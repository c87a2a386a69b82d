/** What an edit of the bottle configuration guarantees: it takes effect, repeating it
    changes nothing, undoing it restores the file, and the rest of the file stays. */
module BottleConfigUpdate {
  import opened Wrappers
  import opened Lists
  import opened Text
  import opened BottleConfig
  import opened BottleConfigLists
  import opened BottleConfigLines
  import opened BottleConfigReplace
  import opened BottleConfigInsert

  // ------------------------------------------------ carriage returns and lines

  /** Carriage returns occur only in front of a line feed. */
  predicate StrayFree(s: string) {
    forall i :: 0 <= i < |s| && s[i] == '\r' ==> i + 1 < |s| && s[i + 1] == '\n'
  }

  lemma StrayFreeTail(s: string, k: nat)
    requires k <= |s| && StrayFree(s)
    ensures StrayFree(s[k..])
  {
    var t := s[k..];
    assert forall i :: 0 <= i < |t| ==> t[i] == s[i + k];
  }

  lemma StrayFreeCons(c: char, s: string)
    requires StrayFree(s) && c != '\r'
    ensures StrayFree([c] + s)
  {}

  lemma StrayFreePair(s: string)
    requires StrayFree(s)
    ensures StrayFree(['\r', '\n'] + s)
  {
    assert ['\r', '\n'] + s == ['\r'] + (['\n'] + s);
    StrayFreeCons('\n', s);
  }

  lemma {:induction false} StrayChar(s: string)
    ensures '\r' !in RemoveCrLf(s) <==> StrayFree(s)
  {
    if s == [] {
    } else if |s| >= 2 && s[0] == '\r' && s[1] == '\n' {
      StrayChar(s[2..]);
      assert s == ['\r', '\n'] + s[2..];
      if StrayFree(s) { StrayFreeTail(s, 2); } else if StrayFree(s[2..]) { StrayFreePair(s[2..]); }
    } else {
      StrayChar(s[1..]);
      assert s == [s[0]] + s[1..];
      if s[0] != '\r' {
        if StrayFree(s) { StrayFreeTail(s, 1); } else if StrayFree(s[1..]) { StrayFreeCons(s[0], s[1..]); }
      }
    }
  }

  lemma NoReturn(s: string, n: nat)
    requires StrayFree(s) && n < |s| && (n + 1 < |s| ==> s[n + 1] != '\n')
    ensures s[n] != '\r'
  {}

  /** The first line of a text without stray carriage returns. */
  lemma FirstLine(s: string, i: nat)
    requires StrayFree(s) && i < |s| && s[i] == '\n' && '\n' !in s[..i]
    ensures IsTerminated(s[..i + 1])
  {
    var k := if i > 0 && s[i - 1] == '\r' then i - 1 else i;
    var body, eol := s[..k], s[k..i + 1];
    assert forall n :: 0 <= n < i ==> s[n] == s[..i][n];
    forall n | 0 <= n < k ensures body[n] != '\r' {
      if n + 1 < i {
        NoReturn(s, n);
      }
    }
    assert body + eol == s[..i + 1];
    TerminatedLine(body, eol);
  }

  lemma {:induction false} StrayFreeLines(s: string)
    requires StrayFree(s)
    ensures AreLines(SplitLines(s))
  {
    hide IsTerminated, StrayFree;
    if s != [] {
      match Find(s, '\n')
      case None =>
        UnbrokenIsBody(s);
      case Some(i) =>
        FirstLine(s, i);
        StrayFreeTail(s, i + 1);
        StrayFreeLines(s[i + 1..]);
    }
  }

  lemma UnbrokenIsBody(s: string)
    requires StrayFree(s) && '\n' !in s
    ensures IsBody(s)
  {
    forall k | 0 <= k < |s| ensures s[k] != '\r' {
      assert k + 1 < |s| ==> s[k + 1] in s;
      NoReturn(s, k);
    }
  }

  lemma StrayFreeBody(body: string, s: string)
    requires IsBody(body) && StrayFree(s)
    ensures StrayFree(body + s)
  {}

  lemma {:induction false} LinesStrayFree(lines: seq<string>)
    requires AreLines(lines)
    ensures StrayFree(Flatten(lines))
  {
    if lines != [] {
      assert AreLines(lines[1..]);
      var rest := Flatten(lines[1..]);
      LinesStrayFree(lines[1..]);
      if IsTerminated(lines[0]) {
        var body := TrimEol(lines[0]);
        var eol := Terminator(lines[0]);
        assert lines[0] + rest == body + (eol + rest);
        if eol == "\n" { StrayFreeCons('\n', rest); } else { StrayFreePair(rest); }
        StrayFreeBody(body, eol + rest);
      } else {
        assert lines[1..] == [];
        StrayFreeBody(lines[0], rest);
      }
    }
  }

  // -------------------------------------------------- texts and their lines

  lemma TextLines(config: string)
    requires !HasUnsupportedControls(config)
    ensures AreLines(SplitLines(config)) && Flatten(SplitLines(config)) == config
  {
    hide RemoveCrLf;
    StrayChar(config);
    StrayFreeLines(config);
    FlattenSplitLines(config);
  }

  /** A text made of lines parses if its lines do. */
  lemma LinesText(lines: seq<string>)
    requires AreLines(lines) && ParseLines(START, lines).Ok?
    requires !StartsWith(Flatten(lines), BYTE_ORDER_MARK) && '\0' !in Flatten(lines)
    ensures ParseConfig(Flatten(lines)) == Ok(ParseLines(START, lines).value.parsed)
    ensures SplitLines(Flatten(lines)) == lines
  {
    hide AreLines, RemoveCrLf, ParseLines;
    SplitFlatten(lines);
    LinesStrayFree(lines);
    StrayChar(Flatten(lines));
  }

  lemma ParsedLines(config: string)
    requires ParseConfig(config).Ok?
    ensures var lines := SplitLines(config);
            && AreLines(lines) && Flatten(lines) == config && ParseLines(START, lines).Ok?
            && ParseConfig(config) == Ok(ParseLines(START, lines).value.parsed)
    ensures '\0' !in config && !StartsWith(config, BYTE_ORDER_MARK)
  {
    hide AreLines, RemoveCrLf, ParseLines;
    TextLines(config);
  }

  // --------------------------------------------------------- the edited list

  /** The edited list has no characters but those of the list and the target. */
  lemma EditedListBody(value: string, hidden: bool)
    requires IsBody(value)
    ensures IsBody(EditedList(value, hidden))
  {
    if !hidden {
      SplitParts(value, ',');
      WithoutKeeps(Split(value, ','), IsDuplicateDevice, IsBody);
      var parts := Without(Split(value, ','), IsDuplicateDevice);
      if !IsBody(Join(parts, ',')) {
        var c := if '\r' in Join(parts, ',') then '\r' else '\n';
        JoinChars(parts, ',', c);
      }
    }
  }

  lemma EditedListClean(value: string, hidden: bool)
    requires ValidateDevices(value).Ok?
    ensures '\0' !in EditedList(value, hidden)
  {
    hide EditedList, ValidateDevices;
    EditedListValid(value, hidden);
    if '\0' in EditedList(value, hidden) {
      ListChars(EditedList(value, hidden), '\0');
    }
  }

  /** What the parser reads back of the edited list hides the target as asked. */
  lemma ReadBackHides(body: string, range: Range, list: string)
    requires ReadsBack(body, range, list) && ValidateDevices(list) == Ok(())
    ensures ListHides(body[range.start..range.end]) == ListHides(list)
  {
    hide ListHides, ValidateDevices, Trim;
    TrimmedList(list);
  }

  // ------------------------------------------------------------- one update

  /** The new file, by its lines: it parses, hides the target exactly as asked, and
      keeps to the file's kind of line terminator. */
  predicate Updated(config: string, hidden: bool, lines: seq<string>) {
    && UpdateConfig(config, hidden) == Ok(Flatten(lines)) && AreLines(lines)
    && ParseLines(START, lines).Ok?
    && '\0' !in Flatten(lines) && !StartsWith(Flatten(lines), BYTE_ORDER_MARK)
    && var setting := ParseLines(START, lines).value.parsed.setting;
       && setting.Some? && setting.value.start <= setting.value.end <= |Flatten(lines)|
       && ListHides(Flatten(lines)[setting.value.start..setting.value.end]) == hidden
  }

  lemma SplicedClean(config: string, range: Range, list: string)
    requires 0 < range.start <= range.end <= |config| && '\0' !in config && '\0' !in list
    requires !StartsWith(config, BYTE_ORDER_MARK)
    ensures '\0' !in Spliced(config, range, list) && !StartsWith(Spliced(config, range, list), BYTE_ORDER_MARK)
  {}

  lemma ReplaceUpdate(config: string, hidden: bool) returns (lines: seq<string>)
    requires ParseConfig(config).Ok? && ParseConfig(config).value.setting.Some? && Hides(config) != hidden
    ensures Updated(config, hidden, lines) && SameTerminators(lines, SplitLines(config))
    ensures var range := ParseConfig(config).value.setting.value;
            var list := EditedList(config[range.start..range.end], hidden);
            && Flatten(lines) == Spliced(config, range, list) && ParseLines(START, lines).value.parsed.setting.Some?
            && ExactRange(config[range.start..range.end], range, ParseLines(START, lines).value.parsed.setting.value, list)
            && ReadsBack(Flatten(lines), ParseLines(START, lines).value.parsed.setting.value, list)
  {
    hide AreLines, ParseLines, ParseConfig, Flatten, SplitLines, ListHides, ValidateDevices, EditedList, Every, ReadsBack,
      IsBody, ExactRange, SameTerminators;
    ParsedLines(config);
    var before := SplitLines(config);
    SettingIsValid(before);
    var range := ParseConfig(config).value.setting.value;
    var value := config[range.start..range.end];
    var list := EditedList(value, hidden);
    EditedListValid(value, hidden);
    EditedListBody(value, hidden);
    EditedListClean(value, hidden);
    EditedListHides(value, hidden);
    ValidEntries(list);
    var range';
    lines, range' := ReplaceInLines(before, list);
    assert range'.start <= range'.end <= |Flatten(lines)| by {
      RangeWithin(Flatten(lines), range', list);
    }
    ReadBackHides(Flatten(lines), range', list);
    SplicedClean(config, range, list);
    ReplacedResult(config, hidden);
  }

  lemma RangeWithin(body: string, range: Range, list: string)
    requires ReadsBack(body, range, list)
    ensures range.start <= range.end <= |body|
  {}

  lemma ReplacedResult(config: string, hidden: bool)
    requires ParseConfig(config).Ok? && ParseConfig(config).value.setting.Some? && Hides(config) != hidden
    ensures var range := ParseConfig(config).value.setting.value;
            UpdateConfig(config, hidden) == Ok(Spliced(config, range, EditedList(config[range.start..range.end], hidden)))
  {
    hide ParseConfig, ListHides, EditedList;
  }

  lemma NewlineIsTerminator(config: string)
    ensures IsTerminator(Newline(config))
  {}

  lemma InsertUpdate(config: string) returns (lines: seq<string>)
    requires ParseConfig(config).Ok? && ParseConfig(config).value.setting.None?
    ensures Updated(config, true, lines) && SetsList(lines, DUPLICATE_DEVICE)
    ensures AllEnd(SplitLines(config), Newline(config)) ==> AllEnd(lines, Newline(config))
  {
    hide AreLines, ParseLines, ParseConfig, Flatten, SplitLines, ListHides, Assignment, Newline, AllEnd, SetsList,
      InsertedAssignment, AppendedSection, DUPLICATE_DEVICE;
    ParsedLines(config);
    var before := SplitLines(config);
    var eol := Newline(config);
    NewlineIsTerminator(config);
    InsertedResult(config);
    if ParseConfig(config).value.insertAt.Some? {
      lines := InsertInSection(before, eol);
      InsertedClean(config, ParseConfig(config).value.insertAt.value, eol);
    } else {
      lines := InsertSection(before, eol);
      AppendedClean(config, eol);
    }
    SetsTarget(lines);
  }

  lemma SetsTarget(lines: seq<string>)
    requires SetsList(lines, DUPLICATE_DEVICE)
    ensures ParseLines(START, lines).Ok?
    ensures var setting := ParseLines(START, lines).value.parsed.setting;
            && setting.Some? && setting.value.start <= setting.value.end <= |Flatten(lines)|
            && ListHides(Flatten(lines)[setting.value.start..setting.value.end])
  {
    hide ParseLines, Flatten;
    SplitSingle(DUPLICATE_DEVICE, ',');
    DuplicateIsDevice();
    assert [DUPLICATE_DEVICE][0] == DUPLICATE_DEVICE;
  }

  lemma InsertedResult(config: string)
    requires ParseConfig(config).Ok? && ParseConfig(config).value.setting.None?
    ensures var insertAt := ParseConfig(config).value.insertAt;
            UpdateConfig(config, true) == Ok(
              if insertAt.Some? then
                config[..insertAt.value] + InsertedAssignment(config, insertAt.value, Newline(config)) + config[insertAt.value..]
              else config + AppendedSection(config, Newline(config)))
  {
    hide ParseConfig, InsertedAssignment, AppendedSection, Newline;
  }

  lemma AssignmentClean()
    ensures '\0' !in Assignment() && IsBody(Assignment())
  {
    AssignmentReads();
  }

  lemma InsertedClean(config: string, at: nat, eol: string)
    requires 0 < at <= |config| && '\0' !in config && !StartsWith(config, BYTE_ORDER_MARK) && IsTerminator(eol)
    ensures var result := config[..at] + InsertedAssignment(config, at, eol) + config[at..];
            '\0' !in result && !StartsWith(result, BYTE_ORDER_MARK)
  {
    hide Assignment;
    AssignmentClean();
  }

  lemma AppendedClean(config: string, eol: string)
    requires '\0' !in config && !StartsWith(config, BYTE_ORDER_MARK) && IsTerminator(eol)
    ensures var result := config + AppendedSection(config, eol);
            '\0' !in result && !StartsWith(result, BYTE_ORDER_MARK)
  {
    hide Assignment, SectionHeader;
    AssignmentClean();
    HeaderReads();
    HeaderStart();
  }

  lemma HeaderStart()
    ensures SectionHeader()[0] == '['
  {}

  // ------------------------------------------------------------ main results

  lemma UpdatedHides(config: string, hidden: bool, lines: seq<string>)
    requires Updated(config, hidden, lines)
    ensures ParseConfig(Flatten(lines)) == Ok(ParseLines(START, lines).value.parsed) && SplitLines(Flatten(lines)) == lines
    ensures Hides(Flatten(lines)) == hidden && UpdateConfig(Flatten(lines), hidden) == Ok(Flatten(lines))
  {
    hide ParseLines, Flatten, AreLines, SplitLines, ParseConfig, ListHides;
    LinesText(lines);
  }

  /** An accepted edit takes effect, and asking again changes nothing. */
  lemma {:induction false} UpdateTakesEffect(config: string, hidden: bool)
    requires UpdateConfig(config, hidden).Ok?
    ensures var result := UpdateConfig(config, hidden).value;
            ParseConfig(result).Ok? && Hides(result) == hidden && UpdateConfig(result, hidden) == Ok(result)
  {
    hide ParseConfig, ListHides, ParseLines, Flatten, Updated;
    if ParseConfig(config).value.setting.Some? {
      if Hides(config) != hidden {
        var lines := ReplaceUpdate(config, hidden);
        ResultOf(config, hidden, lines);
        UpdatedHides(config, hidden, lines);
      }
    } else if hidden {
      var lines := InsertUpdate(config);
      ResultOf(config, hidden, lines);
      UpdatedHides(config, hidden, lines);
    }
  }

  lemma ResultOf(config: string, hidden: bool, lines: seq<string>)
    requires Updated(config, hidden, lines)
    ensures UpdateConfig(config, hidden) == Ok(Flatten(lines))
  {}

  /** Every line that is terminated ends with `eol`. */
  predicate UsesOnly(config: string, eol: string) {
    AllEnd(SplitLines(config), eol)
  }

  /** A file whose lines all end alike keeps them so: an edit never mixes terminators. */
  lemma TerminatorsKept(config: string, hidden: bool)
    requires UpdateConfig(config, hidden).Ok? && UsesOnly(config, Newline(config))
    ensures UsesOnly(UpdateConfig(config, hidden).value, Newline(config))
  {
    hide ParseConfig, ListHides, ParseLines, Flatten, Updated, SplitLines, AllEnd, Newline;
    if ParseConfig(config).value.setting.Some? {
      if Hides(config) != hidden {
        var lines := ReplaceUpdate(config, hidden);
        ResultOf(config, hidden, lines);
        UpdatedHides(config, hidden, lines);
        SameTerminatorsEnd(lines, SplitLines(config), Newline(config));
      }
    } else if hidden {
      var lines := InsertUpdate(config);
      ResultOf(config, hidden, lines);
      UpdatedHides(config, hidden, lines);
    }
  }

  lemma SameTerminatorsEnd(a: seq<string>, b: seq<string>, eol: string)
    requires SameTerminators(a, b) && AllEnd(b, eol)
    ensures AllEnd(a, eol)
  {
    hide Terminator;
  }

  // -- undoing

  lemma ListIsExact(value: string)
    ensures ReadExactly(value, EditedList(value, true))
  {
    DuplicateShape();
    var list := EditedList(value, true);
    if Trim(value) == value {
      if value != "" {
        var i, j := TrimSpan(value);
        assert i == 0 && j == |value|;
      }
      TrimSolid(list);
    }
  }

  lemma SplicedBack(config: string, range: Range, list: string)
    requires range.start <= range.end <= |config|
    ensures var result := Spliced(config, range, list);
            var range' := Range(range.start, range.start + |list|);
            && range'.end <= |result| && result[range'.start..range'.end] == list
            && Spliced(result, range', config[range.start..range.end]) == config
  {}

  lemma HiddenAndShown(config: string)
    requires ParseConfig(config).Ok? && ParseConfig(config).value.setting.Some? && !Hides(config)
    ensures UpdateConfig(config, true).Ok? && UpdateConfig(UpdateConfig(config, true).value, false) == Ok(config)
  {
    hide ParseConfig, ListHides, ParseLines, Flatten, Updated, EditedList, SplitLines, Spliced, ReadExactly;
    var range := ParseConfig(config).value.setting.value;
    var value := config[range.start..range.end];
    var lines := ReplaceUpdate(config, true);
    ResultOf(config, true, lines);
    UpdatedHides(config, true, lines);
    ListIsExact(value);
    var list := EditedList(value, true);
    var result := Flatten(lines);
    SplicedBack(config, range, list);
    ListRoundTrip(value);
    ReplacedResult(result, false);
  }

  /** Without the setting, hiding and showing leaves an assignment of an empty list. */
  lemma {:induction false} LeftoverIsEmpty(config: string)
    requires ParseConfig(config).Ok? && ParseConfig(config).value.setting.None?
    ensures UpdateConfig(config, true).Ok?
    ensures var shown := UpdateConfig(UpdateConfig(config, true).value, false);
            && shown.Ok? && ParseConfig(shown.value).Ok? && ParseConfig(shown.value).value.setting.Some?
            && var range := ParseConfig(shown.value).value.setting.value;
               shown.value[range.start..range.end] == ""
  {
    hide ParseConfig, ListHides, ParseLines, Flatten, Updated, EditedList, SplitLines, Spliced, ExactRange, ReadsBack,
      DUPLICATE_DEVICE;
    var lines := InsertUpdate(config);
    ResultOf(config, true, lines);
    UpdatedHides(config, true, lines);
    UpdatedSets(config, true, lines);
    var lines' := ReplaceUpdate(Flatten(lines), false);
    ResultOf(Flatten(lines), false, lines');
    UpdatedHides(Flatten(lines), false, lines');
    UpdatedSets(Flatten(lines), false, lines');
    TargetRemoved();
    EmptyReadBack(Flatten(lines'), ParseLines(START, lines').value.parsed.setting.value);
  }

  lemma TargetRemoved()
    ensures EditedList(DUPLICATE_DEVICE, false) == ""
  {
    DuplicateShape();
    SplitSingle(DUPLICATE_DEVICE, ',');
    DuplicateAlone();
  }

  lemma EmptyReadBack(body: string, range: Range)
    requires ReadsBack(body, range, "")
    ensures range.start <= range.end <= |body| && body[range.start..range.end] == ""
  {
    TrimSolid("");
  }

  lemma UpdatedSets(config: string, hidden: bool, lines: seq<string>)
    requires Updated(config, hidden, lines)
    ensures ParseLines(START, lines).Ok? && ParseLines(START, lines).value.parsed.setting.Some?
  {}

  /** Hiding and showing again restores the file exactly when it already had the
      setting: otherwise an assignment of an empty list stays behind. */
  lemma {:induction false} UndoIffSet(config: string)
    requires ParseConfig(config).Ok? && !Hides(config)
    ensures UpdateConfig(config, true).Ok?
    ensures UpdateConfig(UpdateConfig(config, true).value, false) == Ok(config) <==> ParseConfig(config).value.setting.Some?
  {
    hide ParseConfig, ListHides, UpdateConfig;
    if ParseConfig(config).value.setting.Some? {
      HiddenAndShown(config);
    } else {
      LeftoverIsEmpty(config);
    }
  }

  // -- what stays

  /** The entries of a list that name some other device. */
  function OtherDevices(value: string): seq<string> {
    Without(OtherEntries(value), IsBlank)
  }

  lemma OtherDevicesKept(value: string, hidden: bool)
    ensures OtherDevices(EditedList(value, hidden)) == OtherDevices(value)
  {
    hide EditedList;
    if value != "" && OtherEntries(value) != [] {
      OtherEntriesKept(value, hidden);
    } else {
      NothingKept(value, hidden);
    }
  }

  lemma NothingKept(value: string, hidden: bool)
    requires value == "" || OtherEntries(value) == []
    ensures OtherDevices(EditedList(value, hidden)) == [] && OtherDevices(value) == []
  {
    hide IsDuplicateDevice, EditedList, IsBlank, DUPLICATE_DEVICE;
    NoDevices();
    EmptyEntry();
    SplitSingle("", ',');
    if hidden {
      HiddenEntries(value);
      DuplicateAlone();
      WithoutAppend(if value == "" then [] else Split(value, ','), [DUPLICATE_DEVICE], IsDuplicateDevice);
    } else {
      ShownEntries(value);
    }
    if value == "" {
      assert OtherEntries(value) == [""];
    }
  }

  lemma NoDevices()
    ensures IsBlank("") && Without([""], IsBlank) == []
  {
    TrimSolid("");
  }

  /** What becomes of the entries of a list, blank ones included: the target's entry is
      added behind them, or exactly those that name it go. */
  predicate EntriesEdited(value: string, hidden: bool, list: string) {
    var entries := Split(value, ',');
    var others := Without(entries, IsDuplicateDevice);
    if hidden == ListHides(value) then list == value
    else if hidden then Split(list, ',') == (if value == "" then [] else entries) + [DUPLICATE_DEVICE]
    else Split(list, ',') == (if others == [] then [""] else others)
  }

  lemma UnchangedEntries(value: string)
    ensures EntriesEdited(value, ListHides(value), value)
  {}

  lemma EditedEntries(value: string, hidden: bool)
    requires ListHides(value) != hidden
    ensures EntriesEdited(value, hidden, EditedList(value, hidden))
  {
    hide EditedList, Split, ListHides, DUPLICATE_DEVICE;
    if hidden {
      HiddenEntries(value);
    } else {
      ShownEntries(value);
    }
  }

  /** With the setting present only its list changes, on its line: everything before
      and after is verbatim, and so are the entries for other devices. */
  lemma {:induction false} OnlyTheListChanges(config: string, hidden: bool)
    requires UpdateConfig(config, hidden).Ok? && ParseConfig(config).value.setting.Some?
    ensures var result := UpdateConfig(config, hidden).value;
            var range := ParseConfig(config).value.setting.value;
            var end := |result| - (|config| - range.end);
            && range.start <= end <= |result|
            && result[..range.start] == config[..range.start] && result[end..] == config[range.end..]
            && EntriesEdited(config[range.start..range.end], hidden, result[range.start..end])
            && OtherDevices(result[range.start..end]) == OtherDevices(config[range.start..range.end])
            && IsBody(result[range.start..end]) && IsBody(config[range.start..range.end])
  {
    hide ParseConfig, ListHides, ParseLines, EditedList, SplitLines, OtherDevices, AreLines, ValidateDevices, IsBody,
      EntriesEdited;
    ParsedLines(config);
    SettingIsValid(SplitLines(config));
    var range := ParseConfig(config).value.setting.value;
    var value := config[range.start..range.end];
    if Hides(config) != hidden {
      var list := EditedList(value, hidden);
      EditedListBody(value, hidden);
      OtherDevicesKept(value, hidden);
      EditedEntries(value, hidden);
      ReplacedResult(config, hidden);
      SplicedBack(config, range, list);
    } else {
      UnchangedEntries(value);
    }
  }

  /** `result` is `config` with some text inserted at `at`, which ends a line or the
      file; a final newline stays, and a file gets none that had text without one. */
  predicate InsertedAt(config: string, at: nat, result: string) {
    && at <= |config| < |result|
    && result[..at] == config[..at] && result[|result| - (|config| - at)..] == config[at..]
    && (at < |config| ==> at > 0 && config[at - 1] == '\n')
    && (EndsWith(result, '\n') <==> config == "" || EndsWith(config, '\n'))
  }

  lemma AssignmentEnd()
    ensures Assignment() != "" && !EndsWith(Assignment(), '\n')
  {}

  lemma MiddleInserted(config: string, at: nat, middle: string)
    requires at <= |config| && middle != ""
    ensures var result := config[..at] + middle + config[at..];
            && result[..at] == config[..at] && result[|result| - (|config| - at)..] == config[at..] && |config| < |result|
            && (at < |config| ==> EndsWith(result, '\n') == EndsWith(config, '\n'))
            && (at == |config| ==> EndsWith(result, '\n') == EndsWith(middle, '\n') && result == config + middle)
  {
    assert config[..|config|] == config;
  }

  lemma InsertedShape(config: string, at: nat, eol: string)
    requires 0 < at <= |config| && IsTerminator(eol) && (at == |config| || config[at - 1] == '\n')
    ensures InsertedAt(config, at, config[..at] + InsertedAssignment(config, at, eol) + config[at..])
  {
    hide Assignment;
    AssignmentEnd();
    MiddleInserted(config, at, InsertedAssignment(config, at, eol));
  }

  lemma AppendedShape(config: string, eol: string)
    requires IsTerminator(eol)
    ensures InsertedAt(config, |config|, config + AppendedSection(config, eol))
  {
    hide Assignment, SectionHeader;
    AssignmentEnd();
    MiddleInserted(config, |config|, AppendedSection(config, eol));
  }

  /** Without the setting, showing changes nothing and hiding inserts at the end of the
      section's header line or of the file. */
  lemma {:induction false} OnlyAnInsertion(config: string, hidden: bool)
    requires UpdateConfig(config, hidden).Ok? && ParseConfig(config).value.setting.None?
    ensures var result := UpdateConfig(config, hidden).value;
            var insertAt := ParseConfig(config).value.insertAt;
            if hidden then InsertedAt(config, if insertAt.Some? then insertAt.value else |config|, result) else result == config
  {
    hide ParseConfig, ListHides, ParseLines, SplitLines, AreLines, InsertedAssignment, AppendedSection, Newline, InsertedAt, IsTerminator,
      SetsList, AllEnd, Flatten;
    if hidden {
      ParsedLines(config);
      InsertedResult(config);
      NewlineIsTerminator(config);
      if ParseConfig(config).value.insertAt.Some? {
        var lines := InsertInSection(SplitLines(config), Newline(config));
        InsertedShape(config, ParseConfig(config).value.insertAt.value, Newline(config));
      } else {
        AppendedShape(config, Newline(config));
      }
    }
  }

  lemma EndsByTerminator(lines: seq<string>)
    requires AreLines(lines) && lines != []
    ensures EndsWith(Flatten(lines), '\n') <==> Terminator(lines[|lines| - 1]) != ""
  {
    hide Flatten, EndsWith;
    var k := |lines| - 1;
    var line := lines[k];
    assert lines == lines[..k] + [line];
    FlattenOneMore(lines[..k], line);
    if IsTerminated(line) {
      EndsTerminated(Flatten(lines[..k]), line);
    } else {
      EndsLast(Flatten(lines[..k]), line);
      BodyLine(line);
    }
  }

  lemma FinalNewlineReplaced(config: string, hidden: bool)
    requires ParseConfig(config).Ok? && ParseConfig(config).value.setting.Some? && Hides(config) != hidden
    ensures UpdateConfig(config, hidden).Ok?
    ensures EndsWith(UpdateConfig(config, hidden).value, '\n') == EndsWith(config, '\n')
  {
    hide ParseConfig, ListHides, ParseLines, Flatten, Updated, SplitLines, EndsWith, AreLines, UpdateConfig, EditedList,
      ExactRange, ReadsBack, Spliced, Terminator;
    var lines := ReplaceUpdate(config, hidden);
    ResultOf(config, hidden, lines);
    ParsedLines(config);
    UpdatedLines(config, hidden, lines);
    SameFinalNewline(lines, SplitLines(config));
  }

  lemma SameFinalNewline(a: seq<string>, b: seq<string>)
    requires AreLines(a) && AreLines(b) && SameTerminators(a, b)
    ensures EndsWith(Flatten(a), '\n') == EndsWith(Flatten(b), '\n')
  {
    hide EndsWith, AreLines, Terminator;
    if a != [] {
      EndsByTerminator(a);
      EndsByTerminator(b);
    }
  }

  lemma FinalNewlineInserted(config: string, hidden: bool)
    requires UpdateConfig(config, hidden).Ok? && config != "" && ParseConfig(config).value.setting.None?
    ensures EndsWith(UpdateConfig(config, hidden).value, '\n') == EndsWith(config, '\n')
  {
    hide ParseConfig, UpdateConfig, EndsWith;
    OnlyAnInsertion(config, hidden);
  }

  lemma {:induction false} FinalNewlineKept(config: string, hidden: bool)
    requires UpdateConfig(config, hidden).Ok? && config != ""
    ensures EndsWith(UpdateConfig(config, hidden).value, '\n') == EndsWith(config, '\n')
  {
    hide ParseConfig, ListHides, EndsWith, EditedList, InsertedAssignment, AppendedSection, Newline;
    if ParseConfig(config).value.setting.None? {
      FinalNewlineInserted(config, hidden);
    } else if Hides(config) != hidden {
      FinalNewlineReplaced(config, hidden);
    }
  }

  lemma UpdatedLines(config: string, hidden: bool, lines: seq<string>)
    requires Updated(config, hidden, lines)
    ensures AreLines(lines)
  {}

  // -- the kind of line terminator

  lemma {:induction false} OnlyLineFeeds(lines: seq<string>)
    requires AreLines(lines) && AllEnd(lines, "\n")
    ensures '\r' !in Flatten(lines)
  {
    if lines != [] {
      assert AreLines(lines[1..]) && AllEnd(lines[1..], "\n");
      OnlyLineFeeds(lines[1..]);
      LineBody(lines[0]);
      assert lines[0] == TrimEol(lines[0]) + Terminator(lines[0]);
    }
  }

  lemma FirstPair(lines: seq<string>)
    requires AreLines(lines) && AllEnd(lines, "\r\n") && '\n' in Flatten(lines)
    ensures HasCrLf(Flatten(lines))
  {
    var line := lines[0];
    if IsTerminated(line) {
      var k := |TrimEol(line)|;
      assert line == TrimEol(line) + Terminator(line);
      assert Flatten(lines)[k] == line[k] && Flatten(lines)[k + 1] == line[k + 1];
    }
  }

  /** The inserted terminator is the one a file uses throughout. */
  lemma NewlineFound(config: string, eol: string)
    requires ParseConfig(config).Ok? && IsTerminator(eol) && UsesOnly(config, eol) && '\n' in config
    ensures Newline(config) == eol
  {
    hide ParseConfig, SplitLines, AllEnd;
    ParsedLines(config);
    if eol == "\n" {
      OnlyLineFeeds(SplitLines(config));
    } else {
      FirstPair(SplitLines(config));
    }
  }

  /** A file with one kind of line terminator keeps it: no edit mixes them. */
  lemma {:induction false} OneTerminatorKept(config: string, hidden: bool, eol: string)
    requires UpdateConfig(config, hidden).Ok? && IsTerminator(eol) && UsesOnly(config, eol) && '\n' in config
    ensures UsesOnly(UpdateConfig(config, hidden).value, eol)
  {
    hide UsesOnly, Newline, IsTerminator;
    NewlineFound(config, eol);
    TerminatorsKept(config, hidden);
  }
}

/** Adding the assignment to a file that has none: after the environment section's
    header, or in a new section at the end. */
module BottleConfigInsert {
  import opened Wrappers
  import opened Lists
  import opened Text
  import opened BottleConfig
  import opened BottleConfigLists
  import opened BottleConfigLines
  import opened BottleConfigReplace
  import opened BottleConfigGrammar
  import opened BottleConfigDevices
  import opened BottleConfigReading

  /** Where the list is in the inserted assignment. */
  function AssignedRange(): Range {
    var start := |IGNORE_DEVICES| + 6;
    Range(start, start + |DUPLICATE_DEVICE|)
  }

  // -------------------------------------------------------- the new lines

  lemma DuplicateQuoted()
    ensures Unquoted(DUPLICATE_DEVICE) && IsBody(DUPLICATE_DEVICE) && '\0' !in DUPLICATE_DEVICE && ',' !in DUPLICATE_DEVICE
  {}

  lemma DuplicateEntries()
    ensures ValidateDevices(DUPLICATE_DEVICE) == Ok(()) && Every(Split(DUPLICATE_DEVICE, ','), ValidDevice)
  {
    hide ValidDevice, ValidateDevices, Split, DUPLICATE_DEVICE;
    DuplicateIsValid();
    DuplicateQuoted();
    SplitSingle(DUPLICATE_DEVICE, ',');
    ValidEntries(DUPLICATE_DEVICE);
  }

  function AssignmentParts(): Line {
    Target([], true, [' '], [' '], DUPLICATE_DEVICE, [], [])
  }

  lemma AssignmentText()
    ensures AssignmentParts().Text() == Assignment()
    ensures AssignmentParts().Meaning() == Setting(AssignedRange()) && AssignedRange().end <= |Assignment()|
    ensures Assignment()[AssignedRange().start..AssignedRange().end] == DUPLICATE_DEVICE
  {
    hide IGNORE_DEVICES, DUPLICATE_DEVICE;
    AssignmentPieces(IGNORE_DEVICES, DUPLICATE_DEVICE);
  }

  lemma AssignmentPieces(name: string, list: string)
    ensures var text := "\"" + name + "\" = \"" + list + "\"";
            && [] + (['"'] + name + ['"']) + [' '] + ['='] + ([' '] + ((['"'] + list + ['"']) + ([] + []))) == text
            && |text| == |name| + |list| + 7 && text[|name| + 6..|name| + 6 + |list|] == list
  {}

  lemma AssignmentFits()
    ensures AssignmentParts().WellFormed()
  {
    hide ValidateDevices, DUPLICATE_DEVICE, ValidList;
    DuplicateEntries();
    ListIff(DUPLICATE_DEVICE);
  }

  /** The inserted line assigns exactly the target to the ignore list. */
  lemma AssignmentReads()
    ensures Classify(Assignment(), true, true, false) == Ok(Setting(AssignedRange()))
    ensures AssignedRange().end <= |Assignment()|
    ensures Assignment()[AssignedRange().start..AssignedRange().end] == DUPLICATE_DEVICE
    ensures IsBody(Assignment()) && '\0' !in Assignment() && Assignment() != []
  {
    hide Classify, AssignedRange, Assignment;
    AssignmentText();
    AssignmentFits();
    PartsRead(AssignmentParts(), true, true, false);
    AssignmentChars();
  }

  lemma AssignmentChars()
    ensures IsBody(Assignment()) && '\0' !in Assignment() && Assignment() != []
  {
    hide IGNORE_DEVICES, DUPLICATE_DEVICE;
    DuplicateQuoted();
    TargetChars();
  }

  lemma TargetChars()
    ensures IsBody(IGNORE_DEVICES) && '\0' !in IGNORE_DEVICES
  {
    assert forall i :: 0 <= i < |IGNORE_DEVICES| ==> 'A' <= IGNORE_DEVICES[i] <= '_';
  }

  lemma HeaderReads()
    ensures Classify(SectionHeader(), false, false, false) == Ok(Header(true))
    ensures IsBody(SectionHeader()) && '\0' !in SectionHeader() && SectionHeader() != []
  {
    hide Classify;
    SectionReads([], ENV_SECTION, [], [], false, false, false);
    assert [] + (['['] + ENV_SECTION + [']']) + ([] + []) == SectionHeader();
  }

  // ------------------------------------------------- the lines of the new text

  /** The end of a line: a terminator, or nothing at the end of the file. */
  predicate IsEnding(eol: string) {
    IsTerminator(eol) || eol == ""
  }

  lemma LineReads(body: string, eol: string, st: ParseState)
    requires IsBody(body) && IsEnding(eol)
    ensures TrimEol(body + eol) == body
    ensures ClassifyIn(st, body + eol) == Classify(body, st.inEnvironment, st.parsed.insertAt.Some?, st.parsed.setting.Some?)
  {
    hide Classify;
    if eol == "" {
      assert body + eol == body;
      BodyLine(body);
    } else {
      TerminatedLine(body, eol);
    }
  }

  /** The assignment's line, right behind the section's header. */
  lemma AssignmentLine(st: ParseState, eol: string)
    requires st.inEnvironment && st.parsed.insertAt.Some? && st.parsed.setting.None? && IsEnding(eol)
    ensures ParseLine(st, Assignment() + eol)
         == Ok(st.After(|Assignment() + eol|, Setting(AssignedRange())))
  {
    hide Classify, Assignment, AssignedRange;
    AssignmentReads();
    LineReads(Assignment(), eol, st);
  }

  lemma HeaderLineRead(st: ParseState, eol: string)
    requires !st.inEnvironment && st.parsed.insertAt.None? && st.parsed.setting.None? && IsEnding(eol)
    ensures ParseLine(st, SectionHeader() + eol) == Ok(st.After(|SectionHeader() + eol|, Header(true)))
  {
    hide Classify, SectionHeader;
    HeaderReads();
    LineReads(SectionHeader(), eol, st);
  }

  lemma BlankLine(st: ParseState, eol: string)
    requires IsEnding(eol)
    ensures ParseLine(st, eol) == Ok(st.After(|eol|, Nothing))
  {
    hide Classify;
    BlankReads([], st.inEnvironment, st.parsed.insertAt.Some?, st.parsed.setting.Some?);
    LineReads([], eol, st);
    assert [] + eol == eol;
  }

  /** Where the environment section starts: the lines before its header, the header. */
  lemma {:induction false} FindHeader(st: ParseState, lines: seq<string>) returns (k: nat, middle: ParseState)
    requires !st.inEnvironment && st.parsed == Parsed(None, None)
    requires ParseLines(st, lines).Ok? && ParseLines(st, lines).value.parsed.insertAt.Some?
    ensures k < |lines| && ParseLines(st, lines[..k]) == Ok(middle)
    ensures !middle.inEnvironment && middle.parsed == Parsed(None, None)
    ensures ParseLine(middle, lines[k]) == Ok(middle.After(|lines[k]|, Header(true)))
    ensures ParseLines(middle.After(|lines[k]|, Header(true)), lines[k + 1..]) == ParseLines(st, lines)
    decreases lines
  {
    hide Classify;
    var body := TrimEol(lines[0]);
    var effect := ClassifyIn(st, lines[0]).value;
    var next := ParseLine(st, lines[0]).value;
    if effect == Header(true) {
      k, middle := 0, st;
      assert lines[..0] == [];
    } else {
      if effect.Setting? {
        SettingNeedsSection(body, st.inEnvironment, st.parsed.insertAt.Some?, st.parsed.setting.Some?);
      }
      k, middle := FindHeader(next, lines[1..]);
      assert lines[..k + 1] == [lines[0]] + lines[1..][..k];
      assert lines[..k + 1][1..] == lines[1..][..k];
      k := k + 1;
      assert lines[1..][k..] == lines[k + 1..];
    }
  }

  /** A file that never opens the section never enters it. */
  lemma {:induction false} NeverEntered(st: ParseState, lines: seq<string>)
    requires !st.inEnvironment && st.parsed == Parsed(None, None)
    requires ParseLines(st, lines).Ok? && ParseLines(st, lines).value.parsed.insertAt.None?
    ensures !ParseLines(st, lines).value.inEnvironment && ParseLines(st, lines).value.parsed == Parsed(None, None)
    decreases lines
  {
    hide Classify;
    if lines != [] {
      var body := TrimEol(lines[0]);
      var effect := ClassifyIn(st, lines[0]).value;
      if effect.Setting? {
        SettingNeedsSection(body, st.inEnvironment, st.parsed.insertAt.Some?, st.parsed.setting.Some?);
      }
      var next := ParseLine(st, lines[0]).value;
      if next.parsed.insertAt.Some? {
        HeaderStays(next, lines[1..]);
      }
      NeverEntered(next, lines[1..]);
    }
  }

  lemma {:induction false} HeaderStays(st: ParseState, lines: seq<string>)
    requires st.parsed.insertAt.Some? && ParseLines(st, lines).Ok?
    ensures ParseLines(st, lines).value.parsed.insertAt == st.parsed.insertAt
    decreases lines
  {
    hide Classify;
    if lines != [] {
      HeaderOnce(TrimEol(lines[0]), st.inEnvironment, st.parsed.setting.Some?);
      HeaderStays(ParseLine(st, lines[0]).value, lines[1..]);
    }
  }

  /** Terminating the last line of a file changes only the positions after it. */
  lemma LastLineTerminated(line: string, eol: string, st: ParseState)
    requires IsLast(line) && IsTerminator(eol)
    ensures TrimEol(line + eol) == TrimEol(line) && ClassifyIn(st, line + eol) == ClassifyIn(st, line)
    ensures IsTerminated(line + eol)
  {
    hide Classify;
    BodyLine(line);
    TerminatedLine(line, eol);
  }

  // --------------------------------------------------------- the whole files

  predicate AllTerminated(lines: seq<string>) {
    forall i :: 0 <= i < |lines| ==> IsTerminated(lines[i])
  }

  /** Every line that has a terminator has this one. */
  predicate AllEnd(lines: seq<string>, eol: string) {
    forall i :: 0 <= i < |lines| ==> Terminator(lines[i]) == eol || Terminator(lines[i]) == ""
  }

  lemma LinesAppend(a: seq<string>, b: seq<string>, eol: string)
    requires AllTerminated(a) && AreLines(b)
    ensures AreLines(a + b)
    ensures AllEnd(a, eol) && AllEnd(b, eol) ==> AllEnd(a + b, eol)
  {
    hide IsTerminated, IsLast;
  }

  lemma NewLine(body: string, eol: string)
    requires IsBody(body) && IsTerminator(eol)
    ensures AllTerminated([body + eol]) && AreLines([body + eol]) && AllEnd([body + eol], eol)
  {
    TerminatedLine(body, eol);
    assert (body + eol)[|body|..] == eol;
  }

  lemma NewLastLine(body: string, eol: string)
    requires IsLast(body)
    ensures AreLines([body]) && AllEnd([body], eol)
  {
    BodyLine(body);
  }

  /** The file sets the ignore list to exactly this text. */
  predicate SetsList(lines: seq<string>, list: string) {
    && ParseLines(START, lines).Ok?
    && var setting := ParseLines(START, lines).value.parsed.setting;
       && setting.Some?
       && setting.value.start <= setting.value.end <= |Flatten(lines)|
       && Flatten(lines)[setting.value.start..setting.value.end] == list
  }

  lemma LineBetween(before: seq<string>, line: string, after: seq<string>, range: Range)
    requires range.start <= range.end <= |line|
    ensures var lines := before + [line] + after;
            var offset := |Flatten(before)|;
            && Flatten(lines) == Flatten(before) + line + Flatten(after)
            && offset + range.end <= |Flatten(lines)|
            && Flatten(lines)[offset + range.start..offset + range.end] == line[range.start..range.end]
  {
    var lines := before + [line] + after;
    assert lines[..|before|] == before && lines[|before| + 1..] == after;
    FlattenAround(lines, |before|);
    SplicedText(Flatten(before), line, Flatten(after), range, []);
  }

  lemma SettingBetween(before: seq<string>, st: ParseState, line: string, range: Range, after: seq<string>)
    requires ParseLines(START, before) == Ok(st)
    requires st.inEnvironment && st.parsed.insertAt.Some? && st.parsed.setting.None?
    requires ParseLine(st, line) == Ok(st.After(|line|, Setting(range)))
    requires ParseLines(st, after).Ok? && ParseLines(st, after).value.parsed.setting.None?
    ensures var result := ParseLines(START, before + [line] + after);
            result.Ok? && result.value.parsed.setting == Some(Shifted(range, |Flatten(before)|))
  {
    hide ParseLine, ParseLines, Flatten;
    var tail, next := [line] + after, st.After(|line|, Setting(range));
    ParseFirst(st, next, line, after);
    assert before + [line] + after == before + tail;
    ParseLinesAppend(START, before, tail);
    RestAfterSetting(st, next, after);
    OffsetReached(before, st);
  }

  lemma SetBetween(before: seq<string>, st: ParseState, line: string, range: Range, after: seq<string>)
    requires ParseLines(START, before) == Ok(st)
    requires st.inEnvironment && st.parsed.insertAt.Some? && st.parsed.setting.None?
    requires range.start <= range.end <= |line| && ParseLine(st, line) == Ok(st.After(|line|, Setting(range)))
    requires ParseLines(st, after).Ok? && ParseLines(st, after).value.parsed.setting.None?
    ensures SetsList(before + [line] + after, line[range.start..range.end])
    ensures Flatten(before + [line] + after) == Flatten(before) + line + Flatten(after)
  {
    hide ParseLine, ParseLines, Flatten;
    SettingBetween(before, st, line, range, after);
    LineBetween(before, line, after, range);
  }

  /** The assignment as a line of its own between `before`, which ends inside the
      section, and `after`, which does not set the list. */
  lemma InsertParse(before: seq<string>, st: ParseState, eol: string, after: seq<string>)
    requires ParseLines(START, before) == Ok(st) && IsEnding(eol)
    requires st.inEnvironment && st.parsed.insertAt.Some? && st.parsed.setting.None?
    requires ParseLines(st, after).Ok? && ParseLines(st, after).value.parsed.setting.None?
    ensures SetsList(before + [Assignment() + eol] + after, DUPLICATE_DEVICE)
    ensures Flatten(before + [Assignment() + eol] + after) == Flatten(before) + (Assignment() + eol) + Flatten(after)
  {
    hide Assignment, AssignedRange, ParseLine, ParseLines, Flatten, DUPLICATE_DEVICE, IsEnding, SetsList;
    var line, range := Assignment() + eol, AssignedRange();
    AssignmentReads();
    AssignmentLine(st, eol);
    PrefixSlice(line, Assignment(), range.start, range.end);
    SetBetween(before, st, line, range, after);
  }

  /** The state behind the section's header keeps what was parsed. */
  lemma HeaderState(lines: seq<string>) returns (k: nat, middle: ParseState, st: ParseState)
    requires ParseLines(START, lines).Ok?
    requires ParseLines(START, lines).value.parsed.insertAt.Some? && ParseLines(START, lines).value.parsed.setting.None?
    ensures k < |lines| && ParseLines(START, lines[..k]) == Ok(middle)
    ensures !middle.inEnvironment && middle.parsed == Parsed(None, None)
    ensures ParseLine(middle, lines[k]) == Ok(middle.After(|lines[k]|, Header(true)))
    ensures st == middle.After(|lines[k]|, Header(true)) && ParseLines(START, lines[..k + 1]) == Ok(st)
    ensures ParseLines(st, lines[k + 1..]) == ParseLines(START, lines)
    ensures st.offset == |Flatten(lines[..k + 1])|
    ensures ParseLines(START, lines).value.parsed.insertAt == Some(st.offset)
  {
    hide ParseLine;
    k, middle := FindHeader(START, lines);
    st := middle.After(|lines[k]|, Header(true));
    assert lines[..k + 1] == lines[..k] + [lines[k]];
    assert [lines[k]][1..] == [];
    ParseLinesAppend(START, lines[..k], [lines[k]]);
    HeaderStays(st, lines[k + 1..]);
  }

  lemma NewLineBetween(before: seq<string>, body: string, eol: string, after: seq<string>)
    requires AllTerminated(before) && AreLines(after) && IsBody(body) && IsTerminator(eol)
    ensures AreLines(before + [body + eol] + after)
    ensures AllEnd(before, eol) && AllEnd(after, eol) ==> AllEnd(before + [body + eol] + after, eol)
  {
    hide IsTerminated, IsTerminator, IsLast, IsBody, AreLines, AllTerminated, AllEnd;
    NewLine(body, eol);
    LinesAppend([body + eol], after, eol);
    LinesAppend(before, [body + eol] + after, eol);
    assert before + [body + eol] + after == before + ([body + eol] + after);
  }

  lemma NewLinesLast(before: seq<string>, line: string, eol: string, last: string)
    requires AllTerminated(before) && IsBody(line) && IsTerminator(eol) && IsLast(last)
    ensures AreLines(before + [line + eol] + [last])
    ensures AllEnd(before, eol) ==> AllEnd(before + [line + eol] + [last], eol)
  {
    NewLastLine(last, eol);
    NewLineBetween(before, line, eol, [last]);
  }

  /** Behind a terminated header, a terminated assignment. */
  lemma InsertTerminated(before: seq<string>, st: ParseState, eol: string, after: seq<string>)
    requires AllTerminated(before) && AreLines(after) && IsTerminator(eol)
    requires ParseLines(START, before) == Ok(st) && st.inEnvironment && st.parsed.insertAt.Some?
    requires ParseLines(st, after).Ok? && ParseLines(st, after).value.parsed.setting.None?
    requires st.parsed.setting.None?
    ensures var lines' := before + [Assignment() + eol] + after;
            && SetsList(lines', DUPLICATE_DEVICE) && AreLines(lines')
            && (AllEnd(before, eol) && AllEnd(after, eol) ==> AllEnd(lines', eol))
            && Flatten(lines') == Flatten(before) + (Assignment() + eol) + Flatten(after)
  {
    hide Assignment, ParseLines, Flatten, DUPLICATE_DEVICE, SetsList, IsTerminated, IsTerminator, IsLast, IsBody,
      AreLines, AllTerminated, AllEnd, AssignedRange, Classify;
    assert IsEnding(eol);
    InsertParse(before, st, eol, after);
    AssignmentReads();
    NewLineBetween(before, Assignment(), eol, after);
  }

  /** Behind an unterminated header at the end of the file, which gets a terminator. */
  lemma InsertLast(before: seq<string>, line: string, middle: ParseState, eol: string)
    requires AllTerminated(before) && IsBody(line) && IsTerminator(eol)
    requires ParseLines(START, before) == Ok(middle) && !middle.inEnvironment && middle.parsed == Parsed(None, None)
    requires ParseLine(middle, line + eol) == Ok(middle.After(|line + eol|, Header(true)))
    ensures var lines' := before + [line + eol] + [Assignment()];
            && SetsList(lines', DUPLICATE_DEVICE) && AreLines(lines') && (AllEnd(before, eol) ==> AllEnd(lines', eol))
            && Flatten(lines') == Flatten(before) + (line + eol) + Assignment()
  {
    hide Assignment, ParseLines, ParseLine, Flatten, DUPLICATE_DEVICE, SetsList, IsTerminated, IsTerminator, IsBody,
      AreLines, AllTerminated, AllEnd, AssignedRange, Classify;
    var st := middle.After(|line + eol|, Header(true));
    ParseOneMore(before, line + eol, middle, st);
    InsertParseLast(before + [line + eol], st);
    FlattenOneMore(before, line + eol);
    AssignmentReads();
    NewLinesLast(before, line, eol, Assignment());
  }

  lemma InsertParseLast(before: seq<string>, st: ParseState)
    requires ParseLines(START, before) == Ok(st)
    requires st.inEnvironment && st.parsed.insertAt.Some? && st.parsed.setting.None?
    ensures SetsList(before + [Assignment()], DUPLICATE_DEVICE)
    ensures Flatten(before + [Assignment()]) == Flatten(before) + Assignment()
  {
    hide Assignment, ParseLines, Flatten, DUPLICATE_DEVICE, SetsList;
    EmptyParse(st);
    InsertParse(before, st, "", []);
    assert Assignment() + "" == Assignment();
    assert before + [Assignment()] + [] == before + [Assignment()];
    FlattenOneMore(before, Assignment());
  }

  lemma EmptyParse(st: ParseState)
    ensures ParseLines(st, []) == Ok(st) && Flatten([]) == []
  {}

  lemma ParseOneMore(before: seq<string>, line: string, middle: ParseState, st: ParseState)
    requires ParseLines(START, before) == Ok(middle) && ParseLine(middle, line) == Ok(st)
    ensures ParseLines(START, before + [line]) == Ok(st)
  {
    hide ParseLine;
    assert [line][1..] == [];
    ParseLinesAppend(START, before, [line]);
  }

  lemma FlattenOneMore(before: seq<string>, line: string)
    ensures Flatten(before + [line]) == Flatten(before) + line
  {
    FlattenAppend(before, [line]);
    assert [line][1..] == [];
  }

  lemma JoinedLines(lines: seq<string>, before: seq<string>, head: seq<string>, after: seq<string>, k: nat)
    requires k < |lines| && before == lines[..k] && head == lines[..k + 1] && after == lines[k + 1..]
    ensures head == before + [lines[k]] && lines == head + after
  {}

  lemma SplitAround(lines: seq<string>, k: nat)
    requires k < |lines|
    ensures Flatten(lines) == Flatten(lines[..k + 1]) + Flatten(lines[k + 1..])
    ensures Flatten(lines[..k + 1]) == Flatten(lines[..k]) + lines[k]
  {
    hide Flatten;
    var before, head, after := lines[..k], lines[..k + 1], lines[k + 1..];
    JoinedLines(lines, before, head, after, k);
    FlattenOneMore(before, lines[k]);
    FlattenAppend(head, after);
  }

  lemma LinesAround(lines: seq<string>, k: nat, eol: string)
    requires AreLines(lines) && k < |lines|
    ensures AllTerminated(lines[..k]) && AreLines(lines[k + 1..]) && (IsTerminated(lines[k]) ==> AllTerminated(lines[..k + 1]))
    ensures !IsTerminated(lines[k]) ==> k + 1 == |lines| && IsLast(lines[k])
    ensures AllEnd(lines, eol) ==> AllEnd(lines[..k], eol) && AllEnd(lines[..k + 1], eol) && AllEnd(lines[k + 1..], eol)
  {
    hide IsTerminated, IsLast, Terminator;
  }

  lemma EndsTerminated(before: string, line: string)
    requires IsTerminated(line)
    ensures EndsWith(before + line, '\n')
  {
    TerminatedShape(line);
  }

  lemma EndsLast(before: string, line: string)
    requires IsLast(line)
    ensures !EndsWith(before + line, '\n')
  {
    assert line[|line| - 1] in line;
  }

  lemma TextWithin(before: string, after: string, at: nat, eol: string)
    requires at == |before| && EndsWith(before, '\n')
    ensures var text := before + after;
            text[..at] + InsertedAssignment(text, at, eol) + text[at..] == before + (Assignment() + eol) + after
  {
    hide Assignment;
    var text := before + after;
    assert text[..at] == before && text[at..] == after;
    assert after == "" ==> text == before;
    assert InsertedAssignment(text, at, eol) == "" + Assignment() + eol;
  }

  lemma TextAtEnd(text: string, before: string, line: string, eol: string)
    requires text == before + line && !EndsWith(text, '\n')
    ensures text[..|text|] + InsertedAssignment(text, |text|, eol) + text[|text|..] == before + (line + eol) + Assignment()
  {
    hide Assignment;
    assert text[..|text|] == text && text[|text|..] == "";
    assert InsertedAssignment(text, |text|, eol) == eol + Assignment() + "";
    assert before + line + (eol + Assignment()) == before + (line + eol) + Assignment();
  }

  /** Inserting the assignment right behind the section's header. */
  lemma {:induction false} InsertInSection(lines: seq<string>, eol: string) returns (lines': seq<string>)
    requires AreLines(lines) && IsTerminator(eol) && ParseLines(START, lines).Ok?
    requires ParseLines(START, lines).value.parsed.insertAt.Some? && ParseLines(START, lines).value.parsed.setting.None?
    ensures var text, at := Flatten(lines), ParseLines(START, lines).value.parsed.insertAt.value;
            && 0 < at <= |text| && (at == |text| || text[at - 1] == '\n')
            && Flatten(lines') == text[..at] + InsertedAssignment(text, at, eol) + text[at..]
    ensures SetsList(lines', DUPLICATE_DEVICE) && AreLines(lines') && (AllEnd(lines, eol) ==> AllEnd(lines', eol))
  {
    hide Assignment, ParseLines, ParseLine, Flatten, DUPLICATE_DEVICE, SetsList, IsTerminated, IsTerminator, IsBody, IsLast,
      AreLines, AllTerminated, AllEnd, AssignedRange, Classify, InsertedAssignment, EndsWith;
    var k, middle, st := HeaderState(lines);
    LinesAround(lines, k, eol);
    SplitAround(lines, k);
    var line, at := lines[k], st.offset;
    if IsTerminated(line) {
      lines' := lines[..k + 1] + [Assignment() + eol] + lines[k + 1..];
      InsertTerminated(lines[..k + 1], st, eol, lines[k + 1..]);
      EndsTerminated(Flatten(lines[..k]), line);
      TerminatedShape(line);
      TextWithin(Flatten(lines[..k + 1]), Flatten(lines[k + 1..]), at, eol);
    } else {
      lines' := lines[..k] + [line + eol] + [Assignment()];
      HeaderLineTerminated(line, eol, middle);
      InsertLast(lines[..k], line, middle, eol);
      EndsLast(Flatten(lines[..k]), line);
      EmptyParse(START);
      assert lines[k + 1..] == [];
      TextAtEnd(Flatten(lines), Flatten(lines[..k]), line, eol);
      assert line != [] by { LastNotEmpty(line); }
    }
  }

  lemma LastNotEmpty(line: string)
    requires IsLast(line)
    ensures line != []
  {}

  lemma HeaderLineTerminated(line: string, eol: string, middle: ParseState)
    requires IsLast(line) && IsTerminator(eol)
    requires ParseLine(middle, line) == Ok(middle.After(|line|, Header(true)))
    requires !middle.inEnvironment
    ensures ParseLine(middle, line + eol) == Ok(middle.After(|line + eol|, Header(true))) && IsBody(line)
  {
    hide Classify;
    LastLineTerminated(line, eol, middle);
  }

  /** A new section behind terminated lines, its own last line terminated too. */
  lemma NewSection(before: seq<string>, middle: ParseState, eol: string)
    requires AllTerminated(before) && IsTerminator(eol)
    requires ParseLines(START, before) == Ok(middle) && !middle.inEnvironment && middle.parsed == Parsed(None, None)
    ensures var lines' := before + [SectionHeader() + eol] + [Assignment() + eol] + [];
            && SetsList(lines', DUPLICATE_DEVICE) && AreLines(lines') && (AllEnd(before, eol) ==> AllEnd(lines', eol))
            && Flatten(lines') == Flatten(before) + (SectionHeader() + eol) + (Assignment() + eol)
  {
    hide Assignment, ParseLines, ParseLine, Flatten, DUPLICATE_DEVICE, SetsList, IsTerminated, IsTerminator, IsBody,
      AssignedRange, Classify, SectionHeader, Terminator;
    var header := SectionHeader() + eol;
    var st := middle.After(|header|, Header(true));
    assert IsEnding(eol);
    HeaderLineRead(middle, eol);
    HeaderReads();
    ParseOneMore(before, header, middle, st);
    FlattenOneMore(before, header);
    NewLine(SectionHeader(), eol);
    EmptyParse(st);
    InsertTerminated(before + [header], st, eol, []);
  }

  /** A new section behind terminated lines, without a final newline. */
  lemma NewSectionLast(before: seq<string>, middle: ParseState, eol: string)
    requires AllTerminated(before) && IsTerminator(eol)
    requires ParseLines(START, before) == Ok(middle) && !middle.inEnvironment && middle.parsed == Parsed(None, None)
    ensures var lines' := before + [SectionHeader() + eol] + [Assignment()];
            && SetsList(lines', DUPLICATE_DEVICE) && AreLines(lines') && (AllEnd(before, eol) ==> AllEnd(lines', eol))
            && Flatten(lines') == Flatten(before) + (SectionHeader() + eol) + Assignment()
  {
    hide Assignment, ParseLines, ParseLine, Flatten, DUPLICATE_DEVICE, SetsList, IsTerminated, IsTerminator, IsBody,
      AssignedRange, Classify, SectionHeader, AllEnd, AllTerminated, AreLines;
    assert IsEnding(eol);
    HeaderLineRead(middle, eol);
    HeaderReads();
    InsertLast(before, SectionHeader(), middle, eol);
  }

  /** A blank line after terminated lines is not noticed. */
  lemma BlankAdded(before: seq<string>, middle: ParseState, eol: string) returns (st: ParseState)
    requires AllTerminated(before) && IsTerminator(eol)
    requires ParseLines(START, before) == Ok(middle) && !middle.inEnvironment && middle.parsed == Parsed(None, None)
    ensures ParseLines(START, before + [eol]) == Ok(st) && !st.inEnvironment && st.parsed == Parsed(None, None)
    ensures AllTerminated(before + [eol]) && (AllEnd(before, eol) ==> AllEnd(before + [eol], eol))
    ensures Flatten(before + [eol]) == Flatten(before) + eol
  {
    hide ParseLines, ParseLine, Flatten, IsTerminated, IsTerminator, Terminator, Classify;
    st := middle.After(|eol|, Nothing);
    assert IsEnding(eol);
    BlankLine(middle, eol);
    ParseOneMore(before, eol, middle, st);
    FlattenOneMore(before, eol);
    NewLine([], eol);
    assert [] + eol == eol;
  }

  /** Terminating the last line of a file that never opens the section. */
  lemma LastLineAdded(before: seq<string>, line: string, eol: string) returns (st: ParseState)
    requires AllTerminated(before) && IsLast(line) && IsTerminator(eol)
    requires ParseLines(START, before + [line]).Ok? && ParseLines(START, before + [line]).value.parsed == Parsed(None, None)
    ensures ParseLines(START, before + [line + eol]) == Ok(st) && !st.inEnvironment && st.parsed == Parsed(None, None)
    ensures AllTerminated(before + [line + eol]) && (AllEnd(before, eol) ==> AllEnd(before + [line + eol], eol))
    ensures Flatten(before + [line + eol]) == Flatten(before) + (line + eol)
  {
    hide ParseLine, IsTerminated, IsTerminator, Terminator, Classify, IsLast;
    PrefixParses(before, [line]);
    var middle := ParseLines(START, before).value;
    NeverEntered(START, before + [line]);
    NeverEnteredBefore(before, line);
    ParseLinesAppend(START, before, [line]);
    LastLineEffect(line, eol, middle);
    st := ParseLine(middle, line + eol).value;
    ParseOneMore(before, line + eol, middle, st);
    FlattenOneMore(before, line + eol);
    LastLineBody(line);
    NewLine(line, eol);
  }

  lemma LastLineBody(line: string)
    requires IsLast(line)
    ensures IsBody(line)
  {}

  lemma {:induction false} PrefixParses(a: seq<string>, b: seq<string>)
    requires ParseLines(START, a + b).Ok?
    ensures ParseLines(START, a).Ok?
  {
    PrefixParsesFrom(START, a, b);
  }

  lemma {:induction false} PrefixParsesFrom(st: ParseState, a: seq<string>, b: seq<string>)
    requires ParseLines(st, a + b).Ok?
    ensures ParseLines(st, a).Ok?
    decreases a
  {
    hide Classify;
    if a != [] {
      assert (a + b)[1..] == a[1..] + b;
      PrefixParsesFrom(ParseLine(st, a[0]).value, a[1..], b);
    }
  }

  lemma NeverEnteredBefore(before: seq<string>, line: string)
    requires ParseLines(START, before + [line]).Ok? && ParseLines(START, before).Ok?
    requires ParseLines(START, before + [line]).value.parsed == Parsed(None, None)
    ensures !ParseLines(START, before).value.inEnvironment && ParseLines(START, before).value.parsed == Parsed(None, None)
  {
    hide Classify;
    var middle := ParseLines(START, before).value;
    ParseLinesAppend(START, before, [line]);
    if middle.parsed.insertAt.Some? {
      HeaderStays(middle, [line]);
    }
    NeverEntered(START, before);
  }

  lemma LastLineEffect(line: string, eol: string, middle: ParseState)
    requires IsLast(line) && IsTerminator(eol) && !middle.inEnvironment && middle.parsed == Parsed(None, None)
    requires ParseLines(middle, [line]).Ok? && ParseLines(middle, [line]).value.parsed == Parsed(None, None)
    ensures ParseLine(middle, line + eol).Ok?
    ensures var st := ParseLine(middle, line + eol).value;
            !st.inEnvironment && st.parsed == Parsed(None, None)
  {
    hide Classify;
    LastLineTerminated(line, eol, middle);
    assert [line][1..] == [];
  }

  lemma SectionText(config: string, eol: string)
    ensures config != "" && EndsWith(config, '\n') ==>
              config + AppendedSection(config, eol) == config + eol + (SectionHeader() + eol) + (Assignment() + eol)
    ensures config != "" && !EndsWith(config, '\n') ==>
              config + AppendedSection(config, eol) == config + eol + eol + (SectionHeader() + eol) + Assignment()
    ensures config == "" ==> config + AppendedSection(config, eol) == (SectionHeader() + eol) + (Assignment() + eol)
  {
    hide Assignment, SectionHeader;
  }

  /** Appending the section to a file without one. */
  lemma {:induction false} InsertSection(lines: seq<string>, eol: string) returns (lines': seq<string>)
    requires AreLines(lines) && IsTerminator(eol)
    requires ParseLines(START, lines).Ok? && ParseLines(START, lines).value.parsed == Parsed(None, None)
    ensures Flatten(lines') == Flatten(lines) + AppendedSection(Flatten(lines), eol)
    ensures SetsList(lines', DUPLICATE_DEVICE) && AreLines(lines') && (AllEnd(lines, eol) ==> AllEnd(lines', eol))
  {
    hide Assignment, ParseLines, ParseLine, Flatten, DUPLICATE_DEVICE, SetsList, IsTerminated, IsTerminator, IsBody, IsLast,
      AreLines, AllTerminated, AllEnd, AssignedRange, Classify, AppendedSection, EndsWith, SectionHeader;
    SectionText(Flatten(lines), eol);
    if lines == [] {
      EmptyParse(START);
      EmptyLines(eol);
      lines' := [] + [SectionHeader() + eol] + [Assignment() + eol] + [];
      NewSection([], START, eol);
      assert [] + (SectionHeader() + eol) == SectionHeader() + eol;
    } else {
      var k := |lines| - 1;
      var line := lines[k];
      LinesAround(lines, k, eol);
      SplitAround(lines, k);
      assert lines[..k + 1] == lines && lines == lines[..k] + [line];
      if IsTerminated(line) {
        EndsTerminated(Flatten(lines[..k]), line);
        NeverEntered(START, lines);
        var st := BlankAdded(lines, ParseLines(START, lines).value, eol);
        lines' := lines + [eol] + [SectionHeader() + eol] + [Assignment() + eol] + [];
        NewSection(lines + [eol], st, eol);
      } else {
        EndsLast(Flatten(lines[..k]), line);
        var st := LastLineAdded(lines[..k], line, eol);
        var st' := BlankAdded(lines[..k] + [line + eol], st, eol);
        lines' := lines[..k] + [line + eol] + [eol] + [SectionHeader() + eol] + [Assignment()];
        NewSectionLast(lines[..k] + [line + eol] + [eol], st', eol);
        assert Flatten(lines[..k]) + (line + eol) == Flatten(lines) + eol;
      }
      NotEmptyText(Flatten(lines[..k]), line);
    }
  }

  lemma EmptyLines(eol: string)
    ensures AllTerminated([]) && AllEnd([], eol)
  {}

  lemma NotEmptyText(before: string, line: string)
    requires IsTerminated(line) || IsLast(line)
    ensures before + line != ""
  {
    if IsTerminated(line) {
      TerminatedShape(line);
    }
  }
}

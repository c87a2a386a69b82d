/** Editing one line of the bottle configuration: it parses as before, with the new
    list in place of the old one. */
module BottleConfigLines {
  import opened Wrappers
  import opened Lists
  import opened Text
  import opened BottleConfig
  import opened BottleConfigLists

  /** `body` with the characters in `range` replaced. */
  function Spliced(body: string, range: Range, list: string): string
    requires range.start <= range.end <= |body|
  {
    body[..range.start] + list + body[range.end..]
  }

  predicate Unquoted(list: string) {
    '"' !in list
  }

  lemma ListUnquoted(value: string)
    requires Every(Split(value, ','), ValidDevice)
    ensures Unquoted(value)
  {
    if '"' in value {
      ListChars(value, '"');
    }
  }

  /** What the parser reads back: the list itself, or without outer white space. */
  predicate ReadsBack(body: string, range: Range, list: string) {
    && range.start <= range.end <= |body|
    && (body[range.start..range.end] == list || body[range.start..range.end] == Trim(list))
  }

  predicate SuffixAllowed(suffix: string) {
    Trim(suffix) == [] || Trim(suffix)[0] == ';'
  }

  function Quoted(list: string, suffix: string): string {
    ['"'] + (list + (['"'] + suffix))
  }

  /** A quoted list ends at the next quote. */
  lemma QuotedParse(list: string, suffix: string)
    requires Unquoted(list) && SuffixAllowed(suffix)
    ensures ParseValue(Quoted(list, suffix), true) == Ok(Range(1, 1 + |list|))
  {
    hide Trim, Find;
    var quoted := list + (['"'] + suffix);
    assert Quoted(list, suffix)[1..] == quoted && quoted[..|list|] == list;
    FindUnique(quoted, '"', |list|);
    assert quoted[|list| + 1..] == suffix;
  }

  lemma QuotedShape(value: string) returns (list: string, suffix: string)
    requires ParseValue(value, true).Ok?
    ensures value == Quoted(list, suffix) && Unquoted(list) && SuffixAllowed(suffix)
    ensures ParseValue(value, true) == Ok(Range(1, 1 + |list|))
  {
    hide Trim, Find;
    var quoted := value[1..];
    var end := Find(quoted, '"').value;
    list, suffix := quoted[..end], quoted[end + 1..];
    assert quoted == list + (['"'] + suffix);
  }

  /** The start of the value only depends on what is before it. */
  lemma ValueStartAt(body: string, equal: nat, start: nat)
    requires equal < start <= |body| && AllBlank(body[equal + 1..start])
    requires start < |body| ==> !IsAsciiWhitespace(body[start])
    ensures ValueStart(body, equal) == start
  {
    var tail := body[equal + 1..];
    assert forall k :: 0 <= k < start - equal - 1 ==> tail[k] == body[equal + 1..start][k];
    SkipForwardTo(tail, 0, start - equal - 1, IsAsciiWhitespace);
  }

  lemma ValueStartIs(body: string, equal: nat)
    requires equal < |body|
    ensures var start := ValueStart(body, equal);
            && equal < start <= |body| && AllBlank(body[equal + 1..start])
            && (start < |body| ==> !IsAsciiWhitespace(body[start]))
  {
    var tail := body[equal + 1..];
    var skipped := SkipForward(tail, 0, IsAsciiWhitespace);
    assert tail[..skipped] == body[equal + 1..equal + 1 + skipped];
  }

  /** A value whose first and last characters are no white space. */
  predicate Solid(core: string) {
    core != [] ==> !IsAsciiWhitespace(core[0]) && !IsAsciiWhitespace(core[|core| - 1])
  }

  lemma PlainParse(core: string, after: string)
    requires AllBlank(after) && Solid(core) && !StartsWith(core + after, '"')
    requires core == [] ==> after == []
    ensures ParseValue(core + after, false) == Ok(Range(0, |core|))
  {
    var value := core + after;
    assert core != [] ==> value[|core| - 1] == core[|core| - 1];
    SkipBackwardTo(value, |value|, |core|, IsAsciiWhitespace);
  }

  lemma PlainShape(value: string) returns (m: nat)
    requires ParseValue(value, false).Ok?
    ensures m <= |value| && AllBlank(value[m..]) && ParseValue(value, false) == Ok(Range(0, m))
  {
    m := SkipBackward(value, |value|, IsAsciiWhitespace);
  }

  /** The pieces of a list around its trimmed part, blank lists counting as one piece. */
  lemma TrimPieces(list: string) returns (before: string, core: string, after: string)
    ensures list == before + core + after && core == Trim(list) && Solid(core)
    ensures AllBlank(before) && AllBlank(after) && (core == [] ==> after == [])
    ensures Trim(list) == list && list != [] ==> before == [] && after == []
  {
    hide Trim;
    var i, j := TrimSpan(list);
    if i == j {
      before, core, after := list, [], [];
      assert list == list[..i] + list[j..];
    } else {
      before, core, after := list[..i], list[i..j], list[j..];
    }
  }

  lemma SolidQuote(list: string)
    requires Unquoted(list)
    ensures !StartsWith(Trim(list), '"')
  {
    var i, j := TrimSpan(list);
    assert i < j ==> list[i] in list;
  }

  /** Where the parser finds the list after splicing `list` into `body`, whose value
      starts at `start` after the equals sign at `equal`. */
  predicate Splices(body: string, equal: nat, quoted: bool, range: Range, list: string) {
    && equal < range.start <= range.end <= |body|
    && var body' := Spliced(body, range, list);
       && equal < |body'|
       && var start' := ValueStart(body', equal);
          && ParseValue(body'[start'..], quoted).Ok?
          && var inner := ParseValue(body'[start'..], quoted).value;
             var range' := Range(start' + inner.start, start' + inner.end);
             && ReadsBack(body', range', list)
             && ((quoted || Trim(list) == list) && list != [] ==> range' == Range(range.start, range.start + |list|))
  }

  /** Where the pieces of a spliced text are. */
  lemma SplicedPieces(body: string, range: Range, before: string, core: string, after: string)
    requires range.start <= range.end <= |body|
    ensures var body' := Spliced(body, range, before + core + after);
            var at := range.start + |before|;
            && body'[..range.start] == body[..range.start]
            && body'[range.start..at] == before
            && body'[at..at + |core|] == core
            && body'[at..] == core + (after + body[range.end..])
  {}

  lemma SlicesJoin(body: string, i: nat, j: nat, k: nat)
    requires i <= j <= k <= |body| && AllBlank(body[i..j]) && AllBlank(body[j..k])
    ensures AllBlank(body[i..k])
  {
    assert body[i..k] == body[i..j] + body[j..k];
  }

  lemma PrefixSlice(a: string, b: string, i: nat, j: nat)
    requires i <= j <= |a| && j <= |b| && a[..j] == b[..j]
    ensures a[i..j] == b[i..j]
  {
    assert a[i..j] == a[..j][i..];
  }

  /** Splicing a list into an unquoted value: the parser reads it trimmed. */
  lemma PlainSpliced(body: string, equal: nat, start: nat, end: nat, list: string)
    requires equal < start <= end <= |body| && AllBlank(body[equal + 1..start]) && AllBlank(body[end..]) && Unquoted(list)
    ensures Splices(body, equal, false, Range(start, end), list)
  {
    hide Trim, ParseValue, ValueStart, Splices, AllBlank, Solid, Unquoted;
    var before, core, after := TrimPieces(list);
    SolidQuote(list);
    if core == [] {
      assert list == before;
      BlankSpliced(body, equal, start, end, list);
    } else {
      SolidSpliced(body, equal, start, end, before, core, after);
    }
  }

  lemma BlankSpliced(body: string, equal: nat, start: nat, end: nat, list: string)
    requires equal < start <= end <= |body| && AllBlank(body[equal + 1..start]) && AllBlank(body[end..])
    requires AllBlank(list) && Trim(list) == []
    ensures Splices(body, equal, false, Range(start, end), list)
  {
    hide Trim, ParseValue, ValueStart;
    var range := Range(start, end);
    var body' := Spliced(body, range, list);
    PrefixSlice(body, body', equal + 1, start);
    assert body'[start..|body'|] == list + body[end..];
    SlicesJoin(body', equal + 1, start, |body'|);
    ValueStartAt(body', equal, |body'|);
    PlainParse([], []);
    assert body'[|body'|..] == [] + [];
  }

  lemma SolidSpliced(body: string, equal: nat, start: nat, end: nat, before: string, core: string, after: string)
    requires equal < start <= end <= |body| && AllBlank(body[equal + 1..start]) && AllBlank(body[end..])
    requires core != [] && Solid(core) && AllBlank(before) && AllBlank(after) && core[0] != '"'
    requires Trim(before + core + after) == core
    ensures Splices(body, equal, false, Range(start, end), before + core + after)
  {
    hide Trim, ParseValue, ValueStart;
    var range := Range(start, end);
    var body' := Spliced(body, range, before + core + after);
    SplicedPieces(body, range, before, core, after);
    PrefixSlice(body, body', equal + 1, start);
    var start' := start + |before|;
    SlicesJoin(body', equal + 1, start, start');
    ValueStartAt(body', equal, start');
    PlainParse(core, after + body[end..]);
    if core == before + core + after {
      assert |before| == 0;
    }
  }

  lemma QuotedText(body: string, start: nat, former: string, suffix: string, list: string)
    requires start <= |body| && body[start..] == Quoted(former, suffix)
    ensures var range := Range(start + 1, start + 1 + |former|);
            && range.end <= |body|
            && var body' := Spliced(body, range, list);
               && body'[..start] == body[..start] && |body'| > start && body'[start] == '"'
               && body'[start..] == Quoted(list, suffix)
               && body'[start + 1..start + 1 + |list|] == list
  {
    assert body == body[..start] + Quoted(former, suffix);
    var range := Range(start + 1, start + 1 + |former|);
    assert body[range.end..] == ['"'] + suffix && body[..range.start] == body[..start] + ['"'];
    assert Spliced(body, range, list) == body[..start] + Quoted(list, suffix);
  }

  /** Splicing a list into a quoted value: the parser reads it verbatim. */
  lemma QuotedSpliced(body: string, equal: nat, start: nat, former: string, suffix: string, list: string)
    requires equal < start <= |body| && AllBlank(body[equal + 1..start]) && Unquoted(list) && SuffixAllowed(suffix)
    requires body[start..] == Quoted(former, suffix)
    ensures Splices(body, equal, true, Range(start + 1, start + 1 + |former|), list)
  {
    hide Trim, ParseValue, ValueStart, SuffixAllowed, Quoted;
    var range := Range(start + 1, start + 1 + |former|);
    QuotedText(body, start, former, suffix, list);
    var body' := Spliced(body, range, list);
    PrefixSlice(body, body', equal + 1, start);
    ValueStartAt(body', equal, start);
    QuotedParse(list, suffix);
  }

  lemma QuotedValueSpliced(body: string, equal: nat, list: string)
    requires equal < |body| && Unquoted(list)
    requires ParseValue(body[ValueStart(body, equal)..], true).Ok?
    ensures var start := ValueStart(body, equal);
            var inner := ParseValue(body[start..], true).value;
            Splices(body, equal, true, Range(start + inner.start, start + inner.end), list)
  {
    hide Trim, Splices, ValueStart, ParseValue, SuffixAllowed, Quoted;
    ValueStartIs(body, equal);
    var start := ValueStart(body, equal);
    var former, suffix := QuotedShape(body[start..]);
    QuotedSpliced(body, equal, start, former, suffix, list);
  }

  lemma PlainValueSpliced(body: string, equal: nat, list: string)
    requires equal < |body| && Unquoted(list)
    requires ParseValue(body[ValueStart(body, equal)..], false).Ok?
    ensures var start := ValueStart(body, equal);
            var inner := ParseValue(body[start..], false).value;
            Splices(body, equal, false, Range(start + inner.start, start + inner.end), list)
  {
    hide Trim, Splices, ValueStart, ParseValue;
    ValueStartIs(body, equal);
    var start := ValueStart(body, equal);
    var m := PlainShape(body[start..]);
    assert body[start..][m..] == body[start + m..];
    PlainSpliced(body, equal, start, start + m, list);
  }

  lemma ValueSpliced(body: string, equal: nat, quoted: bool, list: string)
    requires equal < |body| && Unquoted(list)
    requires ParseValue(body[ValueStart(body, equal)..], quoted).Ok?
    ensures var start := ValueStart(body, equal);
            var inner := ParseValue(body[start..], quoted).value;
            Splices(body, equal, quoted, Range(start + inner.start, start + inner.end), list)
  {
    hide Splices, ValueStart, ParseValue;
    if quoted {
      QuotedValueSpliced(body, equal, list);
    } else {
      PlainValueSpliced(body, equal, list);
    }
  }

  /** What a successful assignment of the ignore list looks like. */
  lemma SettingShape(body: string) returns (equal: nat, quoted: bool)
    requires ParseAssignment(body, false).Ok? && ParseAssignment(body, false).value.Some?
    ensures Find(body, '=') == Some(equal)
    ensures ParseKey(body[..equal]) == Ok((IGNORE_DEVICES, quoted)) && NamesTarget(IGNORE_DEVICES)
    ensures var start := ValueStart(body, equal);
            && ParseValue(body[start..], quoted).Ok?
            && var inner := ParseValue(body[start..], quoted).value;
               ParseAssignment(body, false) == Ok(Some(Range(start + inner.start, start + inner.end)))
  {
    hide ParseKey, ParseValue, NamesTarget, ValidateDevices;
    equal := Find(body, '=').value;
    quoted := ParseKey(body[..equal]).value.1;
  }

  lemma SettingParses(body: string, equal: nat, quoted: bool)
    requires Find(body, '=') == Some(equal)
    requires ParseKey(body[..equal]) == Ok((IGNORE_DEVICES, quoted)) && NamesTarget(IGNORE_DEVICES)
    requires var start := ValueStart(body, equal);
             && ParseValue(body[start..], quoted).Ok?
             && var inner := ParseValue(body[start..], quoted).value;
                ValidateDevices(body[start + inner.start..start + inner.end]) == Ok(())
    ensures var start := ValueStart(body, equal);
            var inner := ParseValue(body[start..], quoted).value;
            ParseAssignment(body, false) == Ok(Some(Range(start + inner.start, start + inner.end)))
  {
    hide ParseKey, ParseValue, NamesTarget, ValidateDevices;
  }

  lemma SplicesParse(body: string, equal: nat, quoted: bool, range: Range, list: string) returns (range': Range)
    requires Splices(body, equal, quoted, range, list)
    requires Find(body, '=') == Some(equal)
    requires ParseKey(body[..equal]) == Ok((IGNORE_DEVICES, quoted)) && NamesTarget(IGNORE_DEVICES)
    requires ValidateDevices(list) == Ok(()) && ValidateDevices(Trim(list)) == Ok(())
    ensures equal < range.start <= range.end <= |body|
    ensures var body' := Spliced(body, range, list);
            && ParseAssignment(body', false) == Ok(Some(range')) && ReadsBack(body', range', list)
            && ((quoted || Trim(list) == list) && list != [] ==> range' == Range(range.start, range.start + |list|))
  {
    hide ParseKey, ParseValue, NamesTarget, ValidateDevices, ParseAssignment, Trim, Find, ValueStart;
    var body' := Spliced(body, range, list);
    var start' := ValueStart(body', equal);
    var inner := ParseValue(body'[start'..], quoted).value;
    range' := Range(start' + inner.start, start' + inner.end);
    assert body'[..equal] == body[..equal] && body'[equal] == '=';
    FindUnique(body', '=', equal);
    SettingParses(body', equal, quoted);
  }

  /** A list to read back exactly: not empty, and without outer white space if it
      replaces a value without any. */
  predicate ReadExactly(value: string, list: string) {
    list != [] && (Trim(value) == value ==> Trim(list) == list)
  }

  lemma PlainIsTrimmed(body: string, equal: nat)
    requires equal < |body| && ParseValue(body[ValueStart(body, equal)..], false).Ok?
    ensures var start := ValueStart(body, equal);
            var inner := ParseValue(body[start..], false).value;
            Trim(body[start + inner.start..start + inner.end]) == body[start + inner.start..start + inner.end]
  {
    var tail := body[equal + 1..];
    assert body[ValueStart(body, equal)..] == TrimStart(tail);
    TrimTwice(tail);
  }

  /** Replacing the list in its assignment gives the same assignment of the new list. */
  lemma AssignmentSpliced(body: string, range: Range, list: string) returns (range': Range)
    requires ParseAssignment(body, false) == Ok(Some(range))
    requires Every(Split(list, ','), ValidDevice)
    ensures range.start <= range.end <= |body|
    ensures var body' := Spliced(body, range, list);
            && ParseAssignment(body', false) == Ok(Some(range')) && ReadsBack(body', range', list)
            && (ReadExactly(body[range.start..range.end], list) ==> range' == Range(range.start, range.start + |list|))
    ensures Find(body, '=').Some? && Find(body, '=').value < range.start && ParseKey(body[..Find(body, '=').value]).Ok?
  {
    hide ParseKey, ParseValue, NamesTarget, ValidateDevices, ParseAssignment, Trim, Every, Find, ValueStart, Splices;
    ListUnquoted(list);
    ValidEntries(list);
    TrimmedList(list);
    var equal, quoted := SettingShape(body);
    ValueSpliced(body, equal, quoted, list);
    range' := SplicesParse(body, equal, quoted, range, list);
    if !quoted {
      PlainIsTrimmed(body, equal);
    }
  }

  /** The first solid character decides how a line is read. */
  lemma SameHead(body: string, body': string, k: nat)
    requires k <= |body| && k <= |body'| && body[..k] == body'[..k] && !AllBlank(body[..k])
    ensures Trim(body) != [] && Trim(body') != [] && Trim(body)[0] == Trim(body')[0]
  {
    HeadWithin(body, k);
    HeadWithin(body', k);
  }

  lemma HeadWithin(body: string, k: nat)
    requires k <= |body| && !AllBlank(body[..k])
    ensures var i := SkipForward(body[..k], 0, IsAsciiWhitespace);
            Trim(body) != [] && Trim(body)[0] == body[..k][SkipForward(body[..k], 0, IsAsciiWhitespace)]
  {
    var i := SkipForward(body[..k], 0, IsAsciiWhitespace);
    var bad :| 0 <= bad < k && !IsAsciiWhitespace(body[..k][bad]);
    assert forall n :: 0 <= n < i ==> body[n] == body[..k][n];
    assert body[i] == body[..k][i];
    SkipForwardTo(body, 0, i, IsAsciiWhitespace);
    var t := body[i..];
    var m := SkipBackward(t, |t|, IsAsciiWhitespace);
    assert m > 0;
  }

  lemma BlankTrim(s: string)
    requires AllBlank(s)
    ensures Trim(s) == []
  {
    TrimIs(s, |s|, |s|);
  }

  lemma KeyIsSolid(body: string, equal: nat)
    requires equal <= |body| && ParseKey(body[..equal]).Ok?
    ensures !AllBlank(body[..equal])
  {
    if AllBlank(body[..equal]) {
      BlankTrim(body[..equal]);
    }
  }

  /** The first solid character of a line that assigns a variable. */
  predicate AssigningHead(body: string) {
    && Trim(body) != []
    && var head := Trim(body)[0];
       head != '[' && head != ';' && head != '#' && !(IsWhitespace(head) && head as int >= 128)
  }

  lemma SetsByAssignment(body: string, seenSection: bool, range: Range)
    ensures Classify(body, true, seenSection, false) == Ok(Setting(range))
       <==> AssigningHead(body) && ParseAssignment(body, false) == Ok(Some(range))
  {
    hide Trim, ParseAssignment, ParseHeader, IsWhitespace;
  }

  /** Replacing the list on its line gives a line that sets the new list. */
  lemma {:induction false} LineSpliced(body: string, seenSection: bool, range: Range, list: string) returns (range': Range)
    requires Classify(body, true, seenSection, false) == Ok(Setting(range))
    requires Every(Split(list, ','), ValidDevice)
    ensures 0 < range.start <= range.end <= |body|
    ensures var body' := Spliced(body, range, list);
            && Classify(body', true, seenSection, false) == Ok(Setting(range')) && ReadsBack(body', range', list)
            && (ReadExactly(body[range.start..range.end], list) ==> range' == Range(range.start, range.start + |list|))
  {
    hide Classify, Trim, ParseAssignment, ParseKey, IsWhitespace, Every, Find, ReadExactly;
    SetsByAssignment(body, seenSection, range);
    range' := AssignmentSpliced(body, range, list);
    var equal := Find(body, '=').value;
    var body' := Spliced(body, range, list);
    KeyIsSolid(body, equal);
    assert body'[..equal] == body[..equal];
    SameHead(body, body', equal);
    SetsByAssignment(body', seenSection, range');
  }

  /** A line that sets nothing is read alike when the setting was seen before. */
  lemma SeenSettingIrrelevant(body: string, inEnvironment: bool, seenSection: bool)
    requires var effect := Classify(body, inEnvironment, seenSection, false); effect.Ok? && !effect.value.Setting?
    ensures Classify(body, inEnvironment, seenSection, true) == Classify(body, inEnvironment, seenSection, false)
  {
    hide Trim, ParseHeader, ParseSetting, ParseKey, IsWhitespace, Find, NamesTarget;
  }

  /** Once the setting was seen no line sets it again. */
  lemma SettingOnce(body: string, inEnvironment: bool, seenSection: bool)
    ensures var r := Classify(body, inEnvironment, seenSection, true);
            r.Ok? ==> !r.value.Setting?
  {}
}

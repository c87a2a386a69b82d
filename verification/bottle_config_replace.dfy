/** Replacing the list on its line, seen from the whole file: every other line is
    read as before. */
module BottleConfigReplace {
  import opened Wrappers
  import opened Lists
  import opened Text
  import opened BottleConfig
  import opened BottleConfigLists
  import opened BottleConfigLines

  function Terminator(line: string): string {
    line[|TrimEol(line)|..]
  }

  /** The same terminators, line by line. */
  predicate SameTerminators(a: seq<string>, b: seq<string>) {
    |a| == |b| && forall i :: 0 <= i < |a| ==> Terminator(a[i]) == Terminator(b[i])
  }

  /** The parser is inside the environment section only after its header. */
  predicate Entered(st: ParseState) {
    st.inEnvironment ==> st.parsed.insertAt.Some?
  }

  lemma SettingNeedsSection(body: string, inEnvironment: bool, seenSection: bool, seenSetting: bool)
    requires Classify(body, inEnvironment, seenSection, seenSetting).Ok?
    requires Classify(body, inEnvironment, seenSection, seenSetting).value.Setting?
    ensures inEnvironment && !seenSetting
  {
    SettingOnce(body, inEnvironment, seenSection);
  }

  lemma HeaderOnce(body: string, inEnvironment: bool, seenSetting: bool)
    ensures Classify(body, inEnvironment, true, seenSetting) != Ok(Header(true))
  {
    hide Trim, ParseAssignment, ParseHeader, IsWhitespace;
  }

  /** After the setting the rest of the file changes nothing in what was parsed, and
      it is accepted whatever came before. */
  lemma {:induction false} RestAfterSetting(st: ParseState, st': ParseState, lines: seq<string>)
    requires st.inEnvironment == st'.inEnvironment
    requires st.parsed.insertAt.Some? && st'.parsed.insertAt.Some?
    requires st'.parsed.setting.Some?
    requires ParseLines(st, lines).Ok?
    requires st.parsed.setting.None? ==> ParseLines(st, lines).value.parsed.setting.None?
    ensures ParseLines(st', lines).Ok? && ParseLines(st', lines).value.parsed == st'.parsed
    ensures ParseLines(st, lines).value.parsed == st.parsed
    decreases lines
  {
    hide Classify;
    if lines != [] {
      var body := TrimEol(lines[0]);
      var next := ParseLine(st, lines[0]).value;
      HeaderOnce(body, st.inEnvironment, st.parsed.setting.Some?);
      SettingOnce(body, st.inEnvironment, true);
      if st.parsed.setting.None? {
        if next.parsed.setting.Some? {
          SettingStays(next, lines[1..]);
        }
        SeenSettingIrrelevant(body, st.inEnvironment, true);
      }
      RestAfterSetting(next, ParseLine(st', lines[0]).value, lines[1..]);
    }
  }

  lemma {:induction false} SettingStays(st: ParseState, lines: seq<string>)
    requires st.parsed.setting.Some? && ParseLines(st, lines).Ok?
    ensures ParseLines(st, lines).value.parsed.setting == st.parsed.setting
    decreases lines
  {
    hide Classify;
    if lines != [] {
      SettingOnce(TrimEol(lines[0]), st.inEnvironment, st.parsed.insertAt.Some?);
      SettingStays(ParseLine(st, lines[0]).value, lines[1..]);
    }
  }

  // --------------------------------------------------------------- one line

  /** The line with the list in place of the text in `range`. */
  lemma SplicedLine(line: string, range: Range, list: string) returns (line': string)
    requires IsTerminated(line) || IsLast(line)
    requires 0 < range.start <= range.end <= |TrimEol(line)| && IsBody(list)
    ensures line' == Spliced(line, range, list)
    ensures TrimEol(line') == Spliced(TrimEol(line), range, list)
    ensures Terminator(line') == Terminator(line)
    ensures IsTerminated(line) ==> IsTerminated(line')
    ensures IsLast(line) ==> IsLast(line')
  {
    var body := TrimEol(line);
    var eol := line[|body|..];
    assert line == body + eol;
    line' := Spliced(line, range, list);
    var body' := Spliced(body, range, list);
    assert line' == body' + eol;
    SplicedIsBody(body, range, list);
    if IsTerminated(line) {
      TerminatedLine(body', eol);
    } else {
      BodyLine(line);
      assert eol == [] && line' == body';
      BodyLine(body');
    }
    if IsLast(line) {
      BodyLine(line);
      assert eol == [] && line' == body';
      BodyLine(body');
    }
  }

  lemma SplicedIsBody(body: string, range: Range, list: string)
    requires range.start <= range.end <= |body| && IsBody(body) && IsBody(list)
    ensures IsBody(Spliced(body, range, list))
  {}

  // -------------------------------------------------------------- all lines

  function Shifted(range: Range, offset: nat): Range {
    Range(range.start + offset, range.end + offset)
  }

  lemma SplicedTail(line: string, rest: string, range: Range, list: string)
    requires range.start <= range.end <= |rest|
    ensures line + Spliced(rest, range, list) == Spliced(line + rest, Shifted(range, |line|), list)
    ensures (line + rest)[range.start + |line|..range.end + |line|] == rest[range.start..range.end]
  {
    var text := line + rest;
    assert text[..range.start + |line|] == line + rest[..range.start];
    assert text[range.end + |line|..] == rest[range.end..];
  }

  lemma SplicedHead(line: string, rest: string, range: Range, list: string)
    requires range.start <= range.end <= |line|
    ensures Spliced(line, range, list) + rest == Spliced(line + rest, range, list)
    ensures (line + rest)[range.start..range.end] == line[range.start..range.end]
  {
    var text := line + rest;
    assert text[..range.start] == line[..range.start];
    assert text[range.end..] == line[range.end..] + rest;
  }

  lemma ReadsBackLater(line: string, rest: string, range: Range, list: string)
    requires ReadsBack(rest, range, list)
    ensures ReadsBack(line + rest, Shifted(range, |line|), list)
  {
    SplicedTail(line, rest, range, list);
  }

  lemma ReadsBackEarlier(line: string, rest: string, range: Range, list: string)
    requires ReadsBack(line, range, list)
    ensures ReadsBack(line + rest, range, list)
  {
    SplicedHead(line, rest, range, list);
  }

  /** The list that replaced `value` is read back where it was written. */
  predicate ExactRange(value: string, range: Range, range': Range, list: string) {
    ReadExactly(value, list) ==> range' == Range(range.start, range.start + |list|)
  }

  /** Where the file sets the ignore list: the lines before it, that line, the lines
      after it, and the list's range on the line. */
  lemma {:induction false} FindSetting(st: ParseState, lines: seq<string>) returns (k: nat, middle: ParseState, range: Range)
    requires Entered(st) && st.parsed.setting.None?
    requires ParseLines(st, lines).Ok? && ParseLines(st, lines).value.parsed.setting.Some?
    ensures k < |lines| && ParseLines(st, lines[..k]) == Ok(middle)
    ensures middle.parsed.setting.None? && middle.inEnvironment && middle.parsed.insertAt.Some?
    ensures Classify(TrimEol(lines[k]), true, true, false) == Ok(Setting(range))
    ensures ParseLines(middle.After(|lines[k]|, Setting(range)), lines[k + 1..]) == ParseLines(st, lines)
    decreases lines
  {
    hide Classify, TrimEol, Flatten;
    var body := TrimEol(lines[0]);
    var effect := ClassifyIn(st, lines[0]).value;
    var next := ParseLine(st, lines[0]).value;
    if effect.Setting? {
      SettingNeedsSection(body, st.inEnvironment, st.parsed.insertAt.Some?, st.parsed.setting.Some?);
      k, middle, range := 0, st, effect.range;
      assert lines[..0] == [];
    } else {
      k, middle, range := FindSetting(next, lines[1..]);
      assert lines[..k + 1] == [lines[0]] + lines[1..][..k];
      assert lines[..k + 1][1..] == lines[1..][..k];
      k := k + 1;
      assert lines[1..][k..] == lines[k + 1..];
    }
  }

  lemma {:induction false} ParseLinesAppend(st: ParseState, a: seq<string>, b: seq<string>)
    requires ParseLines(st, a).Ok?
    ensures ParseLines(st, a + b) == ParseLines(ParseLines(st, a).value, b)
    decreases a
  {
    hide Classify;
    if a == [] {
      assert a + b == b;
    } else {
      assert (a + b)[1..] == a[1..] + b;
      ParseLinesAppend(ParseLine(st, a[0]).value, a[1..], b);
    }
  }

  lemma FlattenAround(lines: seq<string>, k: nat)
    requires k < |lines|
    ensures Flatten(lines) == Flatten(lines[..k]) + lines[k] + Flatten(lines[k + 1..])
  {
    assert lines == lines[..k] + lines[k..] && lines[k..][1..] == lines[k + 1..];
    FlattenAppend(lines[..k], lines[k..]);
  }

  /** Splicing a list into its line of the file. */
  lemma SplicedText(before: string, line: string, after: string, range: Range, list: string)
    requires range.start <= range.end <= |line|
    ensures before + Spliced(line, range, list) + after == Spliced(before + line + after, Shifted(range, |before|), list)
    ensures (before + line + after)[range.start + |before|..range.end + |before|] == line[range.start..range.end]
  {
    SplicedHead(line, after, range, list);
    SplicedTail(before, line + after, range, list);
    assert before + line + after == before + (line + after);
    assert before + Spliced(line, range, list) + after == before + (Spliced(line, range, list) + after);
  }

  lemma ReadsBackWithin(before: string, line: string, after: string, range: Range, list: string)
    requires ReadsBack(line, range, list)
    ensures ReadsBack(before + line + after, Shifted(range, |before|), list)
  {
    ReadsBackEarlier(line, after, range, list);
    ReadsBackLater(before, line + after, range, list);
    assert before + line + after == before + (line + after);
  }

  lemma ReplacedText(lines: seq<string>, k: nat, range: Range, list: string)
    requires k < |lines| && range.start <= range.end <= |lines[k]|
    ensures var offset := |Flatten(lines[..k])|;
            && range.end + offset <= |Flatten(lines)|
            && Flatten(lines[k := Spliced(lines[k], range, list)]) == Spliced(Flatten(lines), Shifted(range, offset), list)
            && Flatten(lines)[range.start + offset..range.end + offset] == lines[k][range.start..range.end]
  {
    var lines' := lines[k := Spliced(lines[k], range, list)];
    assert lines'[..k] == lines[..k] && lines'[k + 1..] == lines[k + 1..];
    FlattenAround(lines, k);
    FlattenAround(lines', k);
    SplicedText(Flatten(lines[..k]), lines[k], Flatten(lines[k + 1..]), range, list);
  }

  lemma ReplacedReadsBack(lines: seq<string>, k: nat, range: Range, list: string)
    requires k < |lines| && ReadsBack(TrimEol(lines[k]), range, list)
    ensures ReadsBack(Flatten(lines), Shifted(range, |Flatten(lines[..k])|), list)
  {
    hide TrimEol, ReadsBack;
    ReadsBackLine(lines[k], range, list);
    ReadsBackWithin(Flatten(lines[..k]), lines[k], Flatten(lines[k + 1..]), range, list);
    FlattenAround(lines, k);
  }

  lemma ParseFirst(st: ParseState, next: ParseState, line: string, after: seq<string>)
    requires ParseLine(st, line) == Ok(next)
    ensures ParseLines(st, [line] + after) == ParseLines(next, after)
  {
    hide ParseLine;
    assert ([line] + after)[1..] == after;
  }

  lemma OffsetReached(before: seq<string>, st: ParseState)
    requires ParseLines(START, before) == Ok(st)
    ensures st.offset == |Flatten(before)|
  {}

  /** A line that sets the list elsewhere on the line leaves the rest of the parse. */
  lemma ReplacedParse(lines: seq<string>, k: nat, middle: ParseState, range: Range, line': string, range': Range)
    requires k < |lines| && ParseLines(START, lines).Ok?
    requires ParseLines(START, lines[..k]) == Ok(middle)
    requires middle.parsed.setting.None? && middle.inEnvironment && middle.parsed.insertAt.Some?
    requires ParseLines(middle.After(|lines[k]|, Setting(range)), lines[k + 1..]) == ParseLines(START, lines)
    requires Classify(TrimEol(line'), true, true, false) == Ok(Setting(range'))
    ensures var parsed := ParseLines(START, lines).value.parsed;
            && ParseLines(START, lines[k := line']).Ok?
            && ParseLines(START, lines[k := line']).value.parsed
               == Parsed(parsed.insertAt, Some(Shifted(range', |Flatten(lines[..k])|)))
            && parsed.setting == Some(Shifted(range, |Flatten(lines[..k])|))
  {
    hide Classify, TrimEol, ParseLines, Flatten;
    var rest, next := lines[k + 1..], middle.After(|line'|, Setting(range'));
    RestAfterSetting(middle.After(|lines[k]|, Setting(range)), next, rest);
    var tail := [line'] + rest;
    assert lines[k := line'] == lines[..k] + tail;
    ParseLinesAppend(START, lines[..k], tail);
    ParseFirst(middle, next, line', rest);
    OffsetReached(lines[..k], middle);
  }

  /** Replacing the list in the file: the new file splits into the same lines but one,
      and parses to the same positions but for the list's new range. */
  lemma {:induction false} ReplaceInLines(lines: seq<string>, list: string) returns (lines': seq<string>, range': Range)
    requires AreLines(lines)
    requires ParseLines(START, lines).Ok? && ParseLines(START, lines).value.parsed.setting.Some?
    requires Every(Split(list, ','), ValidDevice) && IsBody(list)
    ensures var parsed := ParseLines(START, lines).value.parsed;
            var range := parsed.setting.value;
            && 0 < range.start <= range.end <= |Flatten(lines)|
            && Flatten(lines') == Spliced(Flatten(lines), range, list)
            && AreLines(lines') && SameTerminators(lines', lines)
            && ParseLines(START, lines').Ok?
            && ParseLines(START, lines').value.parsed == Parsed(parsed.insertAt, Some(range'))
            && ReadsBack(Flatten(lines'), range', list)
            && ExactRange(Flatten(lines)[range.start..range.end], range, range', list)
  {
    hide Classify, Every, ReadsBack, ReadExactly, TrimEol, IsTerminated, IsLast, ParseLines, Flatten;
    var k, middle, inner := FindSetting(START, lines);
    var line := lines[k];
    var inner' := LineSpliced(TrimEol(line), true, inner, list);
    BodyInLine(line);
    PrefixSlice(TrimEol(line), line, inner.start, inner.end);
    assert IsTerminated(line) || IsLast(line);
    var line' := SplicedLine(line, inner, list);
    lines' := lines[k := line'];
    var offset := |Flatten(lines[..k])|;
    range' := Shifted(inner', offset);
    ReplacedText(lines, k, inner, list);
    ReplacedParse(lines, k, middle, inner, line', inner');
    assert lines'[..k] == lines[..k];
    ReplacedReadsBack(lines', k, inner', list);
  }

  lemma BodyInLine(line: string)
    ensures |TrimEol(line)| <= |line| && TrimEol(line) == line[..|TrimEol(line)|]
  {}

  lemma ReadsBackLine(line: string, range: Range, list: string)
    requires ReadsBack(TrimEol(line), range, list)
    ensures ReadsBack(line, range, list)
  {
    hide TrimEol;
    BodyInLine(line);
    PrefixSlice(TrimEol(line), line, range.start, range.end);
  }

  lemma AssignedIsValid(body: string, range: Range)
    requires ParseAssignment(body, false) == Ok(Some(range))
    ensures range.start <= range.end <= |body| && ValidateDevices(body[range.start..range.end]).Ok?
  {
    hide ParseKey, ParseValue, NamesTarget, ValidateDevices, Find;
  }

  /** The list that a file sets passed validation and lies on one line. */
  lemma {:induction false} SettingIsValid(lines: seq<string>)
    requires AreLines(lines)
    requires ParseLines(START, lines).Ok? && ParseLines(START, lines).value.parsed.setting.Some?
    ensures var range := ParseLines(START, lines).value.parsed.setting.value;
            && range.start <= range.end <= |Flatten(lines)|
            && ValidateDevices(Flatten(lines)[range.start..range.end]).Ok?
            && IsBody(Flatten(lines)[range.start..range.end])
  {
    hide Classify, ParseAssignment, ValidateDevices, Trim, TrimEol, ParseLines, Flatten;
    var k, middle, inner := FindSetting(START, lines);
    var line, body := lines[k], TrimEol(lines[k]);
    SetsByAssignment(body, true, inner);
    AssignedIsValid(body, inner);
    BodyInLine(line);
    PrefixSlice(body, line, inner.start, inner.end);
    ReplacedParse(lines, k, middle, inner, line, inner);
    FlattenAround(lines, k);
    SplicedText(Flatten(lines[..k]), line, Flatten(lines[k + 1..]), inner, []);
    LineBody(line);
  }

  lemma LineBody(line: string)
    requires IsTerminated(line) || IsLast(line)
    ensures IsBody(TrimEol(line))
  {
    if IsLast(line) {
      BodyLine(line);
    }
  }
}

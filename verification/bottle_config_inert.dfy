/** Blank lines and comments are inert: wherever one is put in, the file is accepted or
    refused as before and only positions behind it move
    (crosspuck-app/src/bottle_config.rs). */
module BottleConfigInert {
  import opened Wrappers
  import opened Text
  import opened BottleConfig
  import opened BottleConfigLists
  import opened BottleConfigReplace
  import opened BottleConfigInsert
  import opened BottleConfigUpdate
  import opened BottleConfigGrammar
  import opened BottleConfigReading

  // --------------------------------------------------------- shifted parsing

  /** A position that moves by `length` if it lies behind `at`. */
  function Moved(position: nat, at: nat, length: nat): nat {
    if position <= at then position else position + length
  }

  function MovedParse(parsed: Parsed, at: nat, length: nat): Parsed {
    Parsed(if parsed.insertAt.Some? then Some(Moved(parsed.insertAt.value, at, length)) else None,
           if parsed.setting.Some? then
             (if parsed.setting.value.start < at then parsed.setting else Some(Shifted(parsed.setting.value, length)))
           else None)
  }

  /** The state with what was found at or behind `at` moved, and everything to come. */
  function MovedState(st: ParseState, at: nat, length: nat): ParseState {
    ParseState(st.offset + length, st.inEnvironment, MovedParse(st.parsed, at, length))
  }

  lemma MovedLine(st: ParseState, line: string, at: nat, length: nat)
    requires at <= st.offset && line != [] && ParseLine(st, line).Ok?
    ensures ParseLine(MovedState(st, at, length), line) == Ok(MovedState(ParseLine(st, line).value, at, length))
  {
    hide Classify;
  }

  lemma MovedError(st: ParseState, line: string, at: nat, length: nat)
    requires ParseLine(st, line).Err?
    ensures ParseLine(MovedState(st, at, length), line).Err?
    ensures ParseLine(MovedState(st, at, length), line).error == ParseLine(st, line).error
  {
    hide Classify;
  }

  lemma {:induction false} MovedLines(st: ParseState, lines: seq<string>, at: nat, length: nat)
    requires at <= st.offset && forall k :: 0 <= k < |lines| ==> lines[k] != []
    ensures var a, b := ParseLines(st, lines), ParseLines(MovedState(st, at, length), lines);
            if a.Ok? then b == Ok(MovedState(a.value, at, length)) else b.Err? && b.error == a.error
    decreases lines
  {
    hide Classify, ParseLine, MovedState;
    if lines != [] {
      var r := ParseLine(st, lines[0]);
      if r.Ok? {
        MovedLine(st, lines[0], at, length);
        assert forall k :: 0 <= k < |lines[1..]| ==> lines[1..][k] == lines[k + 1];
        MovedLines(r.value, lines[1..], at, length);
      } else {
        MovedError(st, lines[0], at, length);
      }
    }
  }

  lemma {:induction false} ErrorFirst(st: ParseState, a: seq<string>, b: seq<string>)
    requires ParseLines(st, a).Err?
    ensures ParseLines(st, a + b).Err? && ParseLines(st, a + b).error == ParseLines(st, a).error
    decreases a
  {
    hide Classify, ParseLine;
    assert (a + b)[0] == a[0] && (a + b)[1..] == a[1..] + b;
    if ParseLine(st, a[0]).Ok? {
      ErrorFirst(ParseLine(st, a[0]).value, a[1..], b);
    }
  }

  predicate Within(st: ParseState) {
    && (st.parsed.insertAt.Some? ==> st.parsed.insertAt.value <= st.offset)
    && (st.parsed.setting.Some? ==> st.parsed.setting.value.start < st.offset)
  }

  /** The list starts before the end of the line it is on: its line has an equals sign. */
  lemma {:induction false} FoundWithin(st: ParseState, lines: seq<string>)
    requires Within(st) && ParseLines(st, lines).Ok?
    requires forall k :: 0 <= k < |lines| ==> IsTerminated(lines[k])
    ensures Within(ParseLines(st, lines).value)
    decreases lines
  {
    hide ParseLine, Within, IsTerminated;
    if lines != [] {
      assert IsTerminated(lines[0]);
      FoundOnLine(st, lines[0]);
      assert forall k :: 0 <= k < |lines[1..]| ==> lines[1..][k] == lines[k + 1];
      FoundWithin(ParseLine(st, lines[0]).value, lines[1..]);
    }
  }

  lemma FoundOnLine(st: ParseState, line: string)
    requires Within(st) && ParseLine(st, line).Ok? && IsTerminated(line)
    ensures Within(ParseLine(st, line).value)
  {
    hide Classify;
    TerminatedShape(line);
  }

  /** Text that is put in between lines and means nothing. */
  lemma InertBetween(a: seq<string>, line: string, b: seq<string>)
    requires (forall k :: 0 <= k < |a| ==> IsTerminated(a[k])) && forall k :: 0 <= k < |b| ==> b[k] != []
    requires forall st :: ParseLine(st, line) == Ok(st.After(|line|, Nothing))
    ensures var r, r' := ParseLines(START, a + b), ParseLines(START, a + [line] + b);
            if r.Ok? then r'.Ok? && r'.value.parsed == MovedParse(r.value.parsed, |Flatten(a)|, |line|)
            else r'.Err? && r'.error == r.error
  {
    hide ParseLine, ParseLines, MovedState, MovedParse, Within;
    assert a + [line] + b == a + ([line] + b);
    if ParseLines(START, a).Err? {
      ErrorFirst(START, a, b);
      ErrorFirst(START, a, [line] + b);
    } else {
      var st := ParseLines(START, a).value;
      OffsetReached(a, st);
      StartWithin();
      FoundWithin(START, a);
      ParseLinesAppend(START, a, b);
      ParseLinesAppend(START, a, [line] + b);
      ParseFirst(st, st.After(|line|, Nothing), line, b);
      MovedLines(st, b, st.offset, |line|);
      NotMoved(st, |line|);
      MovedParts(st, b, |line|);
    }
  }

  lemma StartWithin()
    ensures Within(START)
  {}

  lemma NotMoved(st: ParseState, length: nat)
    requires Within(st)
    ensures MovedState(st, st.offset, length) == st.After(length, Nothing)
  {}

  lemma MovedParts(st: ParseState, lines: seq<string>, length: nat)
    ensures ParseLines(st, lines).Ok? ==>
              MovedState(ParseLines(st, lines).value, st.offset, length).parsed
              == MovedParse(ParseLines(st, lines).value.parsed, st.offset, length)
  {
    hide ParseLines;
  }

  // ---------------------------------------------------------------- the text

  /** Every line ends before `at`, and the next one starts there. */
  predicate AtBoundary(config: string, at: nat) {
    at <= |config| && (at > 0 ==> config[at - 1] == '\n')
  }

  lemma StrayFreeAround(a: string, b: string)
    requires a == [] || a[|a| - 1] == '\n'
    ensures StrayFree(a + b) <==> StrayFree(a) && StrayFree(b)
  {
    var s := a + b;
    if StrayFree(s) {
      StrayFreeTail(s, |a|);
      assert s[|a|..] == b;
      assert forall i :: 0 <= i < |a| ==> a[i] == s[i];
    }
  }

  lemma {:induction false} SplitAtBoundary(a: string, b: string)
    requires a == [] || a[|a| - 1] == '\n'
    ensures SplitLines(a + b) == SplitLines(a) + SplitLines(b)
  {
    if a == [] {
      assert a + b == b;
    } else {
      var i := Find(a, '\n').value;
      assert (a + b)[..i] == a[..i];
      FindUnique(a + b, '\n', i);
      assert (a + b)[..i + 1] == a[..i + 1] && (a + b)[i + 1..] == a[i + 1..] + b;
      SplitAtBoundary(a[i + 1..], b);
    }
  }

  /** Every piece of a text that ends with a line feed ends with one. */
  lemma AllTerminatedLines(a: string)
    requires StrayFree(a) && (a == [] || a[|a| - 1] == '\n')
    ensures forall k :: 0 <= k < |SplitLines(a)| ==> IsTerminated(SplitLines(a)[k])
  {
    hide IsTerminated, StrayFree;
    StrayFreeLines(a);
    FlattenSplitLines(a);
    var lines := SplitLines(a);
    if lines != [] && IsLast(lines[|lines| - 1]) {
      LastEnds(lines);
    }
  }

  lemma LastEnds(lines: seq<string>)
    requires lines != [] && IsLast(lines[|lines| - 1])
    ensures Flatten(lines) != [] && Flatten(lines)[|Flatten(lines)| - 1] != '\n'
  {
    var n := |lines| - 1;
    assert lines == lines[..n] + [lines[n]];
    FlattenOneMore(lines[..n], lines[n]);
    var last := lines[n];
    assert last[|last| - 1] in last;
  }

  lemma NoEmptyLines(b: string)
    ensures forall k :: 0 <= k < |SplitLines(b)| ==> SplitLines(b)[k] != []
  {
    if b != [] && Find(b, '\n').Some? {
      NoEmptyLines(b[Find(b, '\n').value + 1..]);
    }
  }

  predicate Inert(line: Line, eol: string) {
    && (line.Blank? || line.Comment?) && AllBlank(line.space) && IsBody(line.Text()) && '\0' !in line.Text()
    && IsTerminator(eol)
  }

  lemma InertParses(line: Line, eol: string, st: ParseState)
    requires Inert(line, eol)
    ensures ParseLine(st, line.Text() + eol) == Ok(st.After(|line.Text() + eol|, Nothing))
  {
    hide Classify;
    TerminatedLine(line.Text(), eol);
    PartsRead(line, st.inEnvironment, st.parsed.insertAt.Some?, st.parsed.setting.Some?);
  }

  lemma InertStart(line: Line, eol: string, rest: string)
    requires Inert(line, eol)
    ensures !StartsWith(line.Text() + eol + rest, BYTE_ORDER_MARK)
  {
    var text := line.Text() + eol + rest;
    if line.space == [] {
      assert text[0] == if line.Comment? then ';' else eol[0];
    } else {
      assert text[0] == line.space[0];
    }
  }

  lemma SameControls(a: string, text: string, b: string)
    requires (a == [] || a[|a| - 1] == '\n') && text != [] && text[|text| - 1] == '\n' && StrayFree(text) && '\0' !in text
    requires !StartsWith(a + b, BYTE_ORDER_MARK) && (a == [] ==> !StartsWith(text + b, BYTE_ORDER_MARK))
    ensures HasUnsupportedControls(a + text + b) == HasUnsupportedControls(a + b)
  {
    hide StrayFree, RemoveCrLf;
    StrayChar(a + text + b);
    StrayChar(a + b);
    StrayFreeAround(a, b);
    assert a + text + b == a + (text + b);
    StrayFreeAround(a, text + b);
    StrayFreeAround(text, b);
  }

  /** A blank line or a comment put in at the end of any line, or at the start of the file,
      changes neither whether the file is accepted nor why it is refused, and positions
      that are found move by its length iff they lie behind it. */
  lemma {:induction false} InertLineShifts(config: string, at: nat, line: Line, eol: string)
    requires AtBoundary(config, at) && Inert(line, eol) && !StartsWith(config, BYTE_ORDER_MARK)
    ensures var text := line.Text() + eol;
            var r, r' := ParseConfig(config), ParseConfig(config[..at] + text + config[at..]);
            if r.Ok? then r' == Ok(MovedParse(r.value, at, |text|)) else r'.Err? && r'.error == r.error
  {
    hide ParseLines, ParseLine, HasUnsupportedControls, IsTerminated, MovedParse, SplitLines, Flatten, StrayFree, RemoveCrLf;
    var a, b, text := config[..at], config[at..], line.Text() + eol;
    assert a + b == config;
    TerminatedLine(line.Text(), eol);
    InertText(line, eol);
    if a == [] {
      InertStart(line, eol, b);
    }
    SameControls(a, text, b);
    if !HasUnsupportedControls(config) {
      CleanAround(a, b);
      SplitAtBoundary(a, b);
      SplitAtBoundary(a, text + b);
      assert a + text + b == a + (text + b);
      SplitFirst(text, b);
      assert SplitLines(a) + ([text] + SplitLines(b)) == SplitLines(a) + [text] + SplitLines(b);
      AllTerminatedLines(a);
      NoEmptyLines(b);
      FlattenSplitLines(a);
      forall st ensures ParseLine(st, text) == Ok(st.After(|text|, Nothing)) {
        InertParses(line, eol, st);
      }
      InertBetween(SplitLines(a), text, SplitLines(b));
    }
  }

  lemma CleanAround(a: string, b: string)
    requires !HasUnsupportedControls(a + b) && (a == [] || a[|a| - 1] == '\n')
    ensures StrayFree(a) && StrayFree(b)
  {
    hide StrayFree, RemoveCrLf;
    StrayChar(a + b);
    StrayFreeAround(a, b);
  }

  lemma InertText(line: Line, eol: string)
    requires Inert(line, eol)
    ensures var text := line.Text() + eol; StrayFree(text) && '\0' !in text && text != [] && text[|text| - 1] == '\n'
  {
    if eol == "\r\n" {
      StrayFreePair([]);
      assert ['\r', '\n'] + [] == eol;
    }
    StrayFreeBody(line.Text(), eol);
  }
}

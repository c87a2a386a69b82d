/** Which files the editor accepts, and where it finds the section and the list: exactly
    those made of ordinary lines (crosspuck-app/src/bottle_config.rs). */
module BottleConfigAcceptance {
  import opened Wrappers
  import opened Lists
  import opened Text
  import opened BottleConfig
  import opened BottleConfigLists
  import opened BottleConfigLines
  import opened BottleConfigReplace
  import opened BottleConfigInsert
  import opened BottleConfigUpdate
  import opened BottleConfigGrammar
  import opened BottleConfigReading

  // ---------------------------------------------------------- ordinary files

  /** Line `k` stands in the environment section: the latest header before it is that
      section's. */
  ghost predicate InEnvironment(lines: seq<Line>, k: nat)
    requires k <= |lines|
  {
    exists j :: OpenedAt(lines, k, j)
  }

  ghost predicate OpenedAt(lines: seq<Line>, k: nat, j: nat)
    requires k <= |lines|
  {
    j < k && lines[j].IsEnvironment() && forall i :: j < i < k ==> !lines[i].Section?
  }

  ghost predicate AllFit(lines: seq<Line>) {
    forall k :: 0 <= k < |lines| ==>
      lines[k].WellFormed() && IsBody(lines[k].Text()) && lines[k].Fits(InEnvironment(lines, k))
  }

  /** Lines fit for their places; the environment section is opened at most once and the
      list set at most once. */
  ghost predicate Acceptable(lines: seq<Line>) {
    && AllFit(lines)
    && (forall i, j :: 0 <= i < j < |lines| ==> !(lines[i].IsEnvironment() && lines[j].IsEnvironment()))
    && (forall i, j :: 0 <= i < j < |lines| ==> !(lines[i].Target? && lines[j].Target?))
  }

  /** Lines end with LF or CRLF; the last one may end with the file, if it has text. */
  predicate Ended(lines: seq<Line>, eols: seq<string>) {
    && |eols| == |lines|
    && forall k :: 0 <= k < |lines| ==>
         IsTerminator(eols[k]) || (eols[k] == "" && k == |lines| - 1 && lines[k].Text() != "")
  }

  function Texts(lines: seq<Line>, eols: seq<string>): (r: seq<string>)
    requires |eols| == |lines|
    ensures |r| == |lines| && forall k :: 0 <= k < |lines| ==> r[k] == lines[k].Text() + eols[k]
  {
    seq(|lines|, k requires 0 <= k < |lines| => lines[k].Text() + eols[k])
  }

  /** How much text comes before line `k`. */
  function Position(lines: seq<Line>, eols: seq<string>, k: nat): nat
    requires k <= |lines| == |eols|
  {
    |Flatten(Texts(lines[..k], eols[..k]))|
  }

  /** The insertion point is behind the environment section's header, and the setting is
      the list, where there are such lines. */
  ghost predicate Describes(parsed: Parsed, lines: seq<Line>, eols: seq<string>)
    requires |eols| == |lines|
  {
    InsertsBehindHeader(parsed.insertAt, lines, eols) && SetsTheList(parsed.setting, lines, eols)
  }

  ghost predicate InsertsBehindHeader(insertAt: Option<nat>, lines: seq<Line>, eols: seq<string>)
    requires |eols| == |lines|
  {
    && (forall k :: 0 <= k < |lines| && lines[k].IsEnvironment() ==> insertAt == Some(Position(lines, eols, k + 1)))
    && (insertAt.Some? <==> Opened(lines))
  }

  ghost predicate SetsTheList(setting: Option<Range>, lines: seq<Line>, eols: seq<string>)
    requires |eols| == |lines|
  {
    && (forall k :: 0 <= k < |lines| && lines[k].Target? ==>
          setting == Some(ListRange(lines[k], Position(lines, eols, k))))
    && (setting.Some? <==> Assigned(lines))
  }

  /** Where the list of a line is that starts at `position`. */
  function ListRange(line: Line, position: nat): Range
    requires line.Target?
  {
    Range(position + line.ListStart(), position + line.ListStart() + |line.list|)
  }

  predicate Opened(lines: seq<Line>) {
    exists k :: 0 <= k < |lines| && lines[k].IsEnvironment()
  }

  predicate Assigned(lines: seq<Line>) {
    exists k :: 0 <= k < |lines| && lines[k].Target?
  }

  /** The file is made of these lines. */
  ghost predicate MadeOf(config: string, lines: seq<Line>, eols: seq<string>) {
    Ended(lines, eols) && Acceptable(lines) && config == Flatten(Texts(lines, eols))
  }

  // ------------------------------------------------------------- one line more

  lemma PrefixFits(lines: seq<Line>, line: Line, k: nat)
    requires k <= |lines|
    ensures InEnvironment(lines + [line], k) <==> InEnvironment(lines, k)
  {
    var more := lines + [line];
    assert forall i :: 0 <= i < |lines| ==> more[i] == lines[i];
    forall j: nat ensures OpenedAt(more, k, j) <==> OpenedAt(lines, k, j) {}
  }

  /** A header decides, and any other line leaves the section as it is. */
  lemma NextInside(lines: seq<Line>, line: Line)
    ensures InEnvironment(lines + [line], |lines| + 1)
       <==> if line.Section? then line.IsEnvironment() else InEnvironment(lines, |lines|)
  {
    var more, k, next := lines + [line], |lines|, |lines| + 1;
    assert forall i :: 0 <= i < |lines| ==> more[i] == lines[i];
    assert more[k] == line;
    if line.Section? {
      assert line.IsEnvironment() ==> OpenedAt(more, next, k);
    } else {
      forall j: nat ensures OpenedAt(more, next, j) <==> OpenedAt(lines, k, j) {}
    }
  }

  lemma AcceptableMore(lines: seq<Line>, line: Line)
    ensures Acceptable(lines + [line])
       <==> Acceptable(lines) && line.WellFormed() && IsBody(line.Text()) && line.Fits(InEnvironment(lines, |lines|))
            && !(line.IsEnvironment() && Opened(lines)) && !(line.Target? && Assigned(lines))
  {
    hide InEnvironment;
    var more := lines + [line];
    assert more[|lines|] == line && forall i :: 0 <= i < |lines| ==> more[i] == lines[i];
    forall k | 0 <= k <= |lines| ensures InEnvironment(more, k) <==> InEnvironment(lines, k) {
      PrefixFits(lines, line, k);
    }
    AllFitMore(lines, line);
    OnceMore(lines, line);
  }

  lemma AllFitMore(lines: seq<Line>, line: Line)
    requires forall k :: 0 <= k <= |lines| ==> (InEnvironment(lines + [line], k) <==> InEnvironment(lines, k))
    ensures AllFit(lines + [line])
       <==> AllFit(lines) && line.WellFormed() && IsBody(line.Text()) && line.Fits(InEnvironment(lines, |lines|))
  {
    hide InEnvironment;
    var more := lines + [line];
    assert more[|lines|] == line && forall i :: 0 <= i < |lines| ==> more[i] == lines[i];
  }

  lemma OnceMore(lines: seq<Line>, line: Line)
    ensures var more := lines + [line];
            && ((forall i, j :: 0 <= i < j < |more| ==> !(more[i].IsEnvironment() && more[j].IsEnvironment()))
                <==> (forall i, j :: 0 <= i < j < |lines| ==> !(lines[i].IsEnvironment() && lines[j].IsEnvironment()))
                     && !(line.IsEnvironment() && Opened(lines)))
            && ((forall i, j :: 0 <= i < j < |more| ==> !(more[i].Target? && more[j].Target?))
                <==> (forall i, j :: 0 <= i < j < |lines| ==> !(lines[i].Target? && lines[j].Target?))
                     && !(line.Target? && Assigned(lines)))
  {
    var more := lines + [line];
    assert more[|lines|] == line && forall i :: 0 <= i < |lines| ==> more[i] == lines[i];
  }

  lemma TextsMore(lines: seq<Line>, line: Line, eols: seq<string>, eol: string)
    requires |eols| == |lines|
    ensures Texts(lines + [line], eols + [eol]) == Texts(lines, eols) + [line.Text() + eol]
    ensures forall k :: 0 <= k <= |lines| ==> Position(lines + [line], eols + [eol], k) == Position(lines, eols, k)
    ensures Position(lines + [line], eols + [eol], |lines| + 1) == Position(lines, eols, |lines|) + |line.Text() + eol|
  {
    hide Flatten;
    var more, eols' := lines + [line], eols + [eol];
    forall k | 0 <= k <= |lines| ensures Position(more, eols', k) == Position(lines, eols, k) {
      assert more[..k] == lines[..k] && eols'[..k] == eols[..k];
    }
    assert more[..|lines| + 1] == more && eols'[..|lines| + 1] == eols' && lines[..|lines|] == lines && eols[..|lines|] == eols;
    assert Texts(more, eols') == Texts(lines, eols) + [line.Text() + eol];
    FlattenOneMore(Texts(lines, eols), line.Text() + eol);
  }

  // ----------------------------------------------------- the parser's progress

  /** What the parser knows after these lines. */
  ghost predicate Knows(st: ParseState, lines: seq<Line>, eols: seq<string>)
    requires |eols| == |lines|
  {
    && st.offset == Position(lines, eols, |lines|)
    && (st.inEnvironment <==> InEnvironment(lines, |lines|))
    && Describes(st.parsed, lines, eols)
  }

  lemma KnowsMore(st: ParseState, lines: seq<Line>, eols: seq<string>, line: Line, eol: string)
    requires |eols| == |lines| && Knows(st, lines, eols)
    requires !(line.IsEnvironment() && Opened(lines)) && !(line.Target? && Assigned(lines))
    ensures Knows(st.After(|line.Text() + eol|, line.Meaning()), lines + [line], eols + [eol])
  {
    hide InEnvironment, Position, InsertsBehindHeader, SetsTheList, Opened, Assigned;
    TextsMore(lines, line, eols, eol);
    NextInside(lines, line);
    SectionMore(st.parsed.insertAt, lines, eols, line, eol);
    SettingMore(st.parsed.setting, lines, eols, line, eol);
  }

  lemma SectionMore(insertAt: Option<nat>, lines: seq<Line>, eols: seq<string>, line: Line, eol: string)
    requires |eols| == |lines| && InsertsBehindHeader(insertAt, lines, eols) && !(line.IsEnvironment() && Opened(lines))
    ensures InsertsBehindHeader(
              if line.IsEnvironment() then Some(Position(lines, eols, |lines|) + |line.Text() + eol|) else insertAt,
              lines + [line], eols + [eol])
  {
    hide Position, Opened;
    var more := lines + [line];
    TextsMore(lines, line, eols, eol);
    OpenedMore(lines, line);
    forall k | 0 <= k < |more| && more[k].IsEnvironment()
      ensures Position(more, eols + [eol], k + 1)
           == if line.IsEnvironment() then Position(lines, eols, |lines|) + |line.Text() + eol| else Position(lines, eols, k + 1)
    {
      if k < |lines| {
        assert more[k] == lines[k];
        OpenedBy(lines, k);
      }
    }
  }

  lemma OpenedBy(lines: seq<Line>, k: nat)
    requires k < |lines| && lines[k].IsEnvironment()
    ensures Opened(lines)
  {}

  lemma AssignedBy(lines: seq<Line>, k: nat)
    requires k < |lines| && lines[k].Target?
    ensures Assigned(lines)
  {}

  lemma OpenedMore(lines: seq<Line>, line: Line)
    ensures Opened(lines + [line]) <==> Opened(lines) || line.IsEnvironment()
  {
    var more := lines + [line];
    assert more[|lines|] == line && forall i :: 0 <= i < |lines| ==> more[i] == lines[i];
  }

  lemma AssignedMore(lines: seq<Line>, line: Line)
    ensures Assigned(lines + [line]) <==> Assigned(lines) || line.Target?
  {
    var more := lines + [line];
    assert more[|lines|] == line && forall i :: 0 <= i < |lines| ==> more[i] == lines[i];
  }

  lemma SettingMore(setting: Option<Range>, lines: seq<Line>, eols: seq<string>, line: Line, eol: string)
    requires |eols| == |lines| && SetsTheList(setting, lines, eols) && !(line.Target? && Assigned(lines))
    ensures SetsTheList(
              if line.Target? then Some(ListRange(line, Position(lines, eols, |lines|))) else setting,
              lines + [line], eols + [eol])
  {
    hide Position, Assigned, ListRange;
    var more := lines + [line];
    TextsMore(lines, line, eols, eol);
    AssignedMore(lines, line);
    forall k | 0 <= k < |more| && more[k].Target?
      ensures ListRange(more[k], Position(more, eols + [eol], k))
           == if line.Target? then ListRange(line, Position(lines, eols, |lines|))
              else ListRange(more[k], Position(lines, eols, k))
    {
      if k < |lines| {
        assert more[k] == lines[k];
        AssignedBy(lines, k);
      }
    }
  }

  lemma LineEnds(line: Line, eol: string)
    requires IsBody(line.Text()) && IsEnding(eol)
    ensures TrimEol(line.Text() + eol) == line.Text()
  {
    if eol == "" {
      assert line.Text() + eol == line.Text();
      BodyLine(line.Text());
    } else {
      TerminatedLine(line.Text(), eol);
    }
  }

  predicate Endings(eols: seq<string>) {
    forall k :: 0 <= k < |eols| ==> IsEnding(eols[k])
  }

  /** The parser accepts acceptable lines and knows what they say. */
  lemma {:induction false} AcceptableParses(lines: seq<Line>, eols: seq<string>)
    requires |eols| == |lines| && Endings(eols) && Acceptable(lines)
    ensures ParseLines(START, Texts(lines, eols)).Ok?
    ensures Knows(ParseLines(START, Texts(lines, eols)).value, lines, eols)
  {
    hide ParseLines, ParseLine, Acceptable, Knows, InEnvironment;
    if lines == [] {
      NothingKnown();
      EmptyParse(START);
      assert Texts(lines, eols) == [];
    } else {
      var n := |lines| - 1;
      var init, line, eols', eol := lines[..n], lines[n], eols[..n], eols[n];
      assert lines == init + [line] && eols == eols' + [eol];
      AcceptableMore(init, line);
      AcceptableParses(init, eols');
      TextsMore(init, line, eols', eol);
      var st := ParseLines(START, Texts(init, eols')).value;
      LineParses(st, init, eols', line, eol);
      ParseOneMore(Texts(init, eols'), line.Text() + eol, st, st.After(|line.Text() + eol|, line.Meaning()));
      KnowsMore(st, init, eols', line, eol);
    }
  }

  lemma NothingKnown()
    ensures Knows(START, [], [])
  {}

  lemma LineParses(st: ParseState, lines: seq<Line>, eols: seq<string>, line: Line, eol: string)
    requires |eols| == |lines| && Knows(st, lines, eols) && IsEnding(eol)
    requires line.WellFormed() && IsBody(line.Text()) && line.Fits(InEnvironment(lines, |lines|))
    requires !(line.IsEnvironment() && Opened(lines)) && !(line.Target? && Assigned(lines))
    ensures ParseLine(st, line.Text() + eol) == Ok(st.After(|line.Text() + eol|, line.Meaning()))
  {
    hide Classify, InEnvironment, Opened, Assigned, TrimEol, Position;
    LineEnds(line, eol);
    PartsRead(line, st.inEnvironment, st.parsed.insertAt.Some?, st.parsed.setting.Some?);
  }

  /** Lines that the parser accepts are acceptable ones. */
  lemma {:induction false} ParsedIsAcceptable(texts: seq<string>) returns (lines: seq<Line>, eols: seq<string>)
    requires AreEnded(texts) && ParseLines(START, texts).Ok?
    ensures |eols| == |lines| && Endings(eols) && Acceptable(lines) && Texts(lines, eols) == texts
    ensures Knows(ParseLines(START, texts).value, lines, eols)
  {
    hide ParseLines, ParseLine, Acceptable, Knows, InEnvironment, AllEnded;
    if texts == [] {
      lines, eols := [], [];
      NothingKnown();
      EmptyParse(START);
      NothingRefused();
      assert Texts([], []) == [];
    } else {
      var n := |texts| - 1;
      var init, text := texts[..n], texts[n];
      assert texts == init + [text];
      var st := LastParsed(init, text);
      var most, eols' := ParsedIsAcceptable(init);
      var line, eol := LastLineOf(st, most, eols', text);
      lines, eols := most + [line], eols' + [eol];
      AcceptableMore(most, line);
      TextsMore(most, line, eols', eol);
      KnowsMore(st, most, eols', line, eol);
      ParseOneMore(init, text, st, st.After(|text|, line.Meaning()));
    }
  }

  lemma NothingRefused()
    ensures Acceptable([])
  {}

  /** Every text is a line's, terminated or not. */
  predicate AreEnded(texts: seq<string>) {
    forall k :: 0 <= k < |texts| ==> AllEnded(texts[k])
  }

  predicate AllEnded(text: string) {
    IsBody(TrimEol(text)) && IsEnding(text[|TrimEol(text)|..])
  }

  lemma {:induction false} LastParsed(init: seq<string>, text: string) returns (st: ParseState)
    requires ParseLines(START, init + [text]).Ok?
    ensures ParseLines(START, init) == Ok(st) && ParseLine(st, text).Ok?
  {
    st := LastParsedFrom(START, init, text);
  }

  lemma {:induction false} LastParsedFrom(from: ParseState, init: seq<string>, text: string) returns (st: ParseState)
    requires ParseLines(from, init + [text]).Ok?
    ensures ParseLines(from, init) == Ok(st) && ParseLine(st, text).Ok?
    decreases init
  {
    hide ParseLine;
    if init == [] {
      st := from;
      assert (init + [text])[0] == text;
    } else {
      assert (init + [text])[0] == init[0] && (init + [text])[1..] == init[1..] + [text];
      st := LastParsedFrom(ParseLine(from, init[0]).value, init[1..], text);
    }
  }

  lemma LastLineOf(st: ParseState, lines: seq<Line>, eols: seq<string>, text: string) returns (line: Line, eol: string)
    requires |eols| == |lines| && Knows(st, lines, eols) && AllEnded(text) && ParseLine(st, text).Ok?
    ensures IsEnding(eol) && text == line.Text() + eol && IsBody(line.Text())
    ensures line.WellFormed() && line.Fits(InEnvironment(lines, |lines|))
    ensures !(line.IsEnvironment() && Opened(lines)) && !(line.Target? && Assigned(lines))
    ensures ParseLine(st, text) == Ok(st.After(|text|, line.Meaning()))
  {
    hide Classify, InEnvironment, Opened, Assigned, TrimEol, Position;
    BodyInLine(text);
    line := LineOf(TrimEol(text), st.inEnvironment, st.parsed.insertAt.Some?, st.parsed.setting.Some?);
    eol := text[|TrimEol(text)|..];
    SettingOnce(TrimEol(text), st.inEnvironment, st.parsed.insertAt.Some?);
  }

  // ------------------------------------------------------------- whole files

  lemma EndedLines(lines: seq<Line>, eols: seq<string>)
    requires Ended(lines, eols) && Acceptable(lines)
    ensures AreLines(Texts(lines, eols)) && Endings(eols)
  {
    hide InEnvironment, Assigned, Opened;
    var texts := Texts(lines, eols);
    forall k | 0 <= k < |texts| ensures IsTerminated(texts[k]) || (k == |texts| - 1 && IsLast(texts[k])) {
      if eols[k] == "" {
        assert texts[k] == lines[k].Text();
      } else {
        TerminatedLine(lines[k].Text(), eols[k]);
      }
    }
  }

  lemma LinesEnded(lines: seq<Line>, eols: seq<string>)
    requires |eols| == |lines| && Endings(eols) && Acceptable(lines) && AreLines(Texts(lines, eols))
    ensures Ended(lines, eols)
  {
    hide InEnvironment, Assigned, Opened;
    var texts := Texts(lines, eols);
    forall k | 0 <= k < |lines|
      ensures IsTerminator(eols[k]) || (eols[k] == "" && k == |lines| - 1 && lines[k].Text() != "")
    {
      if eols[k] == "" {
        assert texts[k] == lines[k].Text();
        BodyLine(lines[k].Text());
      }
    }
  }

  lemma LinesAreEnded(texts: seq<string>)
    requires AreLines(texts)
    ensures AreEnded(texts)
  {
    forall k | 0 <= k < |texts| ensures AllEnded(texts[k]) {
      if IsLast(texts[k]) {
        BodyLine(texts[k]);
      }
    }
  }

  predicate CleanStart(config: string) {
    '\0' !in config && !StartsWith(config, '\U{FEFF}')
  }

  lemma MadeOfParses(config: string, lines: seq<Line>, eols: seq<string>)
    requires CleanStart(config) && MadeOf(config, lines, eols)
    ensures ParseConfig(config).Ok? && Describes(ParseConfig(config).value, lines, eols)
  {
    hide ParseConfig, ParseLines, Acceptable, Describes, AreLines, Flatten, InEnvironment, Opened, Assigned;
    EndedLines(lines, eols);
    AcceptableParses(lines, eols);
    LinesText(Texts(lines, eols));
  }

  lemma ParsedIsMade(config: string) returns (lines: seq<Line>, eols: seq<string>)
    requires ParseConfig(config).Ok?
    ensures CleanStart(config) && MadeOf(config, lines, eols) && Describes(ParseConfig(config).value, lines, eols)
  {
    hide ParseConfig, ParseLines, Acceptable, Describes, AreLines, Flatten, InEnvironment, Opened, Assigned, Ended;
    ParsedLines(config);
    var texts := SplitLines(config);
    LinesAreEnded(texts);
    lines, eols := ParsedIsAcceptable(texts);
    LinesEnded(lines, eols);
  }

  lemma DescribedOnce(a: Parsed, b: Parsed, lines: seq<Line>, eols: seq<string>)
    requires |eols| == |lines| && Describes(a, lines, eols) && Describes(b, lines, eols)
    ensures a == b
  {
    hide Position;
  }

  /** A file is accepted with these positions iff it has no NUL and no byte order mark and
      is made of ordinary lines, of which those positions are the end of the environment
      section's header and the list. */
  lemma {:induction false} AcceptedIff(config: string, parsed: Parsed)
    ensures ParseConfig(config) == Ok(parsed)
       <==> CleanStart(config) && exists lines, eols :: MadeOf(config, lines, eols) && Describes(parsed, lines, eols)
  {
    hide ParseConfig, Acceptable, Describes, CleanStart;
    if ParseConfig(config) == Ok(parsed) {
      var lines, eols := ParsedIsMade(config);
    }
    if CleanStart(config) {
      if lines, eols :| MadeOf(config, lines, eols) && Describes(parsed, lines, eols) {
        MadeOfParses(config, lines, eols);
        DescribedOnce(ParseConfig(config).value, parsed, lines, eols);
      }
    }
  }

  /** A file can be edited iff it is made of ordinary lines. */
  lemma {:induction false} EditableIff(config: string, hidden: bool)
    ensures UpdateConfig(config, hidden).Ok? <==> CleanStart(config) && exists lines, eols :: MadeOf(config, lines, eols)
  {
    hide ParseConfig, MadeOf, CleanStart, EditedList, ListHides, InsertedAssignment, AppendedSection, Newline;
    if ParseConfig(config).Ok? {
      var lines, eols := ParsedIsMade(config);
    }
    if CleanStart(config) {
      if lines, eols :| MadeOf(config, lines, eols) {
        MadeOfParses(config, lines, eols);
      }
    }
  }
}

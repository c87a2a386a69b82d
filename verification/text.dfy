/** Strings as the program cuts them up: ASCII trimming, first occurrences, lists
    with a separator, and lines with their terminators. */
module Text {
  import opened Wrappers

  predicate IsAsciiWhitespace(c: char) {
    c == ' ' || c == '\t' || c == '\n' || c == '\U{000C}' || c == '\r'
  }

  /** White_Space of the Unicode character database. */
  predicate IsWhitespace(c: char) {
    || '\U{0009}' <= c <= '\U{000D}' || c == ' ' || c == '\U{0085}' || c == '\U{00A0}' || c == '\U{1680}'
    || '\U{2000}' <= c <= '\U{200A}' || c == '\U{2028}' || c == '\U{2029}' || c == '\U{202F}' || c == '\U{205F}'
    || c == '\U{3000}'
  }

  function ToLower(c: char): char {
    if 'A' <= c <= 'Z' then (c as int + 32) as char else c
  }

  predicate EqIgnoreAsciiCase(a: string, b: string) {
    |a| == |b| && forall i :: 0 <= i < |a| ==> ToLower(a[i]) == ToLower(b[i])
  }

  predicate StartsWith(s: string, c: char) {
    s != [] && s[0] == c
  }

  predicate EndsWith(s: string, c: char) {
    s != [] && s[|s| - 1] == c
  }

  function Find(s: string, c: char): (r: Option<nat>)
    ensures r.Some? ==> r.value < |s| && s[r.value] == c && c !in s[..r.value]
    ensures r.None? ==> c !in s
  {
    if s == [] then None
    else if s[0] == c then Some(0)
    else
      var rest := Find(s[1..], c);
      if rest.None? then None
      else
        assert s[..rest.value + 1] == [s[0]] + s[1..][..rest.value];
        Some(rest.value + 1)
  }

  /** The first position from `i` on that does not hold a `drop` character. */
  function SkipForward(s: string, i: nat, drop: char -> bool): (r: nat)
    requires i <= |s|
    ensures i <= r <= |s|
    ensures forall k :: i <= k < r ==> drop(s[k])
    ensures r < |s| ==> !drop(s[r])
    decreases |s| - i
  {
    if i < |s| && drop(s[i]) then SkipForward(s, i + 1, drop) else i
  }

  /** The end of `s[..j]` without its trailing `drop` characters. */
  function SkipBackward(s: string, j: nat, drop: char -> bool): (r: nat)
    requires j <= |s|
    ensures r <= j
    ensures forall k :: r <= k < j ==> drop(s[k])
    ensures r > 0 ==> !drop(s[r - 1])
  {
    if j > 0 && drop(s[j - 1]) then SkipBackward(s, j - 1, drop) else j
  }

  function TrimStart(s: string): string {
    s[SkipForward(s, 0, IsAsciiWhitespace)..]
  }

  function TrimEnd(s: string): string {
    s[..SkipBackward(s, |s|, IsAsciiWhitespace)]
  }

  function Trim(s: string): string {
    TrimEnd(TrimStart(s))
  }

  predicate IsEol(c: char) {
    c == '\r' || c == '\n'
  }

  /** Drops every trailing CR and LF. */
  function TrimEol(s: string): string {
    s[..SkipBackward(s, |s|, IsEol)]
  }

  /** Trimming with the wider, Unicode notion of white space. */
  function TrimUnicode(s: string): string {
    var t := s[SkipForward(s, 0, IsWhitespace)..];
    t[..SkipBackward(t, |t|, IsWhitespace)]
  }

  lemma SkipForwardTo(s: string, i: nat, r: nat, drop: char -> bool)
    requires i <= r <= |s| && (forall k :: i <= k < r ==> drop(s[k])) && (r < |s| ==> !drop(s[r]))
    ensures SkipForward(s, i, drop) == r
  {}

  lemma SkipBackwardTo(s: string, j: nat, r: nat, drop: char -> bool)
    requires r <= j <= |s| && (forall k :: r <= k < j ==> drop(s[k])) && (r > 0 ==> !drop(s[r - 1]))
    ensures SkipBackward(s, j, drop) == r
  {}

  // -------------------------------------------------------- separated lists

  function Split(s: string, sep: char): (r: seq<string>)
    ensures r != []
  {
    match Find(s, sep)
    case None => [s]
    case Some(i) => [s[..i]] + Split(s[i + 1..], sep)
  }

  function Join(parts: seq<string>, sep: char): string {
    if parts == [] then []
    else if |parts| == 1 then parts[0]
    else parts[0] + [sep] + Join(parts[1..], sep)
  }

  lemma FindUnique(s: string, c: char, i: nat)
    requires i < |s| && s[i] == c && c !in s[..i]
    ensures Find(s, c) == Some(i)
  {}

  lemma FindAbsent(s: string, c: char)
    requires c !in s
    ensures Find(s, c) == None
  {}

  lemma {:induction false} SplitParts(s: string, sep: char)
    ensures forall p :: p in Split(s, sep) ==> sep !in p
    ensures forall p, c :: p in Split(s, sep) && c in p ==> c in s
    ensures Join(Split(s, sep), sep) == s
  {
    match Find(s, sep)
    case None =>
    case Some(i) =>
      var rest := Split(s[i + 1..], sep);
      SplitParts(s[i + 1..], sep);
      assert ([s[..i]] + rest)[1..] == rest;
      assert s == s[..i] + [sep] + s[i + 1..];
  }

  lemma {:induction false} SplitAppend(a: string, b: string, sep: char)
    ensures Split(a + [sep] + b, sep) == Split(a, sep) + Split(b, sep)
  {
    var s := a + [sep] + b;
    match Find(a, sep)
    case None =>
      assert s[..|a|] == a && s[|a| + 1..] == b;
      FindUnique(s, sep, |a|);
    case Some(i) =>
      assert s[..i] == a[..i];
      FindUnique(s, sep, i);
      assert s[i + 1..] == a[i + 1..] + [sep] + b;
      SplitAppend(a[i + 1..], b, sep);
  }

  lemma SplitSingle(s: string, sep: char)
    requires sep !in s
    ensures Split(s, sep) == [s]
  {
    FindAbsent(s, sep);
  }

  lemma {:induction false} SplitJoin(parts: seq<string>, sep: char)
    requires parts != [] && forall p :: p in parts ==> sep !in p
    ensures Split(Join(parts, sep), sep) == parts
  {
    if |parts| == 1 {
      SplitSingle(parts[0], sep);
    } else {
      hide Split;
      SplitAppend(parts[0], Join(parts[1..], sep), sep);
      SplitSingle(parts[0], sep);
      SplitJoin(parts[1..], sep);
      assert parts == [parts[0]] + parts[1..];
    }
  }

  lemma {:induction false} JoinChars(parts: seq<string>, sep: char, c: char)
    requires c in Join(parts, sep)
    ensures c == sep || exists p :: p in parts && c in p
  {
    if |parts| == 1 {
      assert parts[0] in parts;
    } else if c in parts[0] {
      assert parts[0] in parts;
    } else if c != sep {
      JoinChars(parts[1..], sep, c);
    }
  }

  // ------------------------------------------------------------------ lines

  /** The pieces of `s`, each up to and with its line feed. */
  function SplitLines(s: string): seq<string> {
    if s == [] then []
    else
      match Find(s, '\n')
      case None => [s]
      case Some(i) => [s[..i + 1]] + SplitLines(s[i + 1..])
  }

  function Flatten(lines: seq<string>): string {
    if lines == [] then [] else lines[0] + Flatten(lines[1..])
  }

  lemma {:induction false} FlattenSplitLines(s: string)
    ensures Flatten(SplitLines(s)) == s
  {
    if s != [] {
      match Find(s, '\n')
      case None =>
      case Some(i) =>
        var rest := SplitLines(s[i + 1..]);
        FlattenSplitLines(s[i + 1..]);
        assert ([s[..i + 1]] + rest)[1..] == rest;
        assert s == s[..i + 1] + s[i + 1..];
    }
  }

  lemma {:induction false} FlattenAppend(a: seq<string>, b: seq<string>)
    ensures Flatten(a + b) == Flatten(a) + Flatten(b)
  {
    if a == [] {
      assert a + b == b;
    } else {
      assert (a + b)[1..] == a[1..] + b;
      FlattenAppend(a[1..], b);
    }
  }

  /** A line: text without CR or LF, then LF, CRLF or (at the end of a file) nothing. */
  predicate IsBody(body: string) {
    '\r' !in body && '\n' !in body
  }

  predicate IsTerminator(eol: string) {
    eol == "\n" || eol == "\r\n"
  }

  predicate IsTerminated(line: string) {
    IsBody(TrimEol(line)) && IsTerminator(line[|TrimEol(line)|..])
  }

  predicate IsLast(line: string) {
    IsBody(line) && line != []
  }

  /** What a text without stray carriage returns splits into. */
  predicate AreLines(lines: seq<string>) {
    forall i :: 0 <= i < |lines| ==> IsTerminated(lines[i]) || (i == |lines| - 1 && IsLast(lines[i]))
  }

  lemma TerminatedLine(body: string, eol: string)
    requires IsBody(body) && IsTerminator(eol)
    ensures TrimEol(body + eol) == body && IsTerminated(body + eol)
    ensures body + eol != [] && (body + eol)[|body + eol| - 1] == '\n'
  {
    var line := body + eol;
    assert forall k :: |body| <= k < |line| ==> IsEol(line[k]);
    assert body == [] || body[|body| - 1] in body;
    SkipBackwardTo(line, |line|, |body|, IsEol);
    assert line[..|body|] == body && line[|body|..] == eol;
  }

  lemma BodyLine(body: string)
    requires IsBody(body)
    ensures TrimEol(body) == body
  {
    assert body == [] || body[|body| - 1] in body;
    SkipBackwardTo(body, |body|, |body|, IsEol);
  }

  /** The only line feed of a terminated line is its last character. */
  lemma TerminatedShape(line: string)
    requires IsTerminated(line)
    ensures line != [] && line[|line| - 1] == '\n' && '\n' !in line[..|line| - 1]
  {
    var body := TrimEol(line);
    assert line == body + line[|body|..];
  }

  lemma SplitFirst(line: string, rest: string)
    requires IsTerminated(line)
    ensures SplitLines(line + rest) == [line] + SplitLines(rest)
  {
    hide IsTerminated;
    TerminatedShape(line);
    var s, i := line + rest, |line| - 1;
    assert s[..i] == line[..i] && s[i + 1..] == rest && s[..i + 1] == line;
    FindUnique(s, '\n', i);
  }

  lemma SplitLast(line: string)
    requires IsLast(line)
    ensures SplitLines(line) == [line]
  {
    FindAbsent(line, '\n');
  }

  lemma {:induction false} SplitFlatten(lines: seq<string>)
    requires AreLines(lines)
    ensures SplitLines(Flatten(lines)) == lines
  {
    hide IsTerminated, IsLast;
    if lines != [] {
      var line, rest := lines[0], Flatten(lines[1..]);
      assert AreLines(lines[1..]) by { assert forall i :: 0 <= i < |lines[1..]| ==> lines[1..][i] == lines[i + 1]; }
      SplitFlatten(lines[1..]);
      if IsTerminated(line) {
        SplitFirst(line, rest);
        assert lines == [line] + lines[1..];
      } else {
        assert lines == [line] && lines[1..] == [] && line + [] == line;
        SplitLast(line);
      }
    }
  }
}

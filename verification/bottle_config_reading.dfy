/** Which lines the parser accepts and what they mean to it: exactly those that have the
    parts of an ordinary line (crosspuck-app/src/bottle_config.rs). */
module BottleConfigReading {
  import opened Wrappers
  import opened Lists
  import opened Text
  import opened BottleConfig
  import opened BottleConfigLists
  import opened BottleConfigLines
  import opened BottleConfigReplace
  import opened BottleConfigGrammar
  import opened BottleConfigDevices

  // ----------------------------------------------------------- from the parts

  lemma HeadIs(space: string, c: char, rest: string)
    requires AllBlank(space) && !IsAsciiWhitespace(c)
    ensures Trim(space + [c] + rest) != [] && Trim(space + [c] + rest)[0] == c
  {
    hide Trim;
    var body, k := space + [c] + rest, |space| + 1;
    assert body[..k] == space + [c] && (space + [c])[|space|] == c;
    SkipForwardTo(body[..k], 0, |space|, IsAsciiWhitespace);
    HeadWithin(body, k);
  }

  lemma BlankReads(space: string, inEnvironment: bool, seenSection: bool, seenSetting: bool)
    requires AllBlank(space)
    ensures Classify(space, inEnvironment, seenSection, seenSetting) == Ok(Nothing)
  {
    BlankTrim(space);
  }

  lemma CommentReads(space: string, text: string, inEnvironment: bool, seenSection: bool, seenSetting: bool)
    requires AllBlank(space)
    ensures Classify(space + [';'] + text, inEnvironment, seenSection, seenSetting) == Ok(Nothing)
  {
    hide Trim, ParseAssignment, ParseHeader;
    HeadIs(space, ';', text);
  }

  lemma ForeignReads(space: string, first: char, rest: string, seenSection: bool, seenSetting: bool)
    requires AllBlank(space) && !IsAsciiWhitespace(first) && first != '[' && !OddSpace(first)
    ensures Classify(space + [first] + rest, false, seenSection, seenSetting) == Ok(Nothing)
  {
    hide Trim, ParseAssignment, ParseHeader, IsWhitespace;
    HeadIs(space, first, rest);
  }

  /** A section's header is what is left of its line when outer white space goes. */
  lemma SectionTrimmed(space: string, name: string, gap: string, note: string) returns (tail: string)
    requires AllBlank(space) && AllBlank(gap) && IsNote(note)
    ensures Trim(space + (['['] + name + [']']) + (gap + note)) == (['['] + name + [']']) + tail
    ensures TrimStart(tail) == [] || TrimStart(tail)[0] == ';'
    ensures ']' !in note ==> ']' !in tail
  {
    hide Trim, TrimStart;
    var head := ['['] + name + [']'];
    if note == [] {
      TrimSolid(head);
      TrimPadded(space, head, gap);
      assert gap + note == gap && head + [] == head;
      tail := [];
      TrimSolid([]);
    } else {
      var i, j := TrimSpan(note);
      NoteStarts(note, i, j);
      tail := gap + note[..j];
      SectionCore(space, head, gap, note, j);
      TrimStartPast(gap, note[..j]);
      NoBracketBehind(gap, note[..j]);
      assert ']' !in note ==> ']' !in note[..j];
    }
  }

  lemma NoteStarts(note: string, i: nat, j: nat)
    requires note != [] && note[0] == ';' && i <= j <= |note| && AllBlank(note[..i]) && AllBlank(note[j..])
    ensures i == 0 && 0 < j
  {
    assert forall k :: 0 <= k < i ==> note[k] == note[..i][k];
    assert forall k :: j <= k < |note| ==> note[k] == note[j..][k - j];
  }

  lemma SectionCore(space: string, head: string, gap: string, note: string, j: nat)
    requires AllBlank(space) && head != [] && head[0] == '[' && 0 < j <= |note| && AllBlank(note[j..])
    requires !IsAsciiWhitespace(note[j - 1])
    ensures Trim(space + head + (gap + note)) == head + (gap + note[..j])
  {
    hide Trim;
    var core := head + (gap + note[..j]);
    assert core[|core| - 1] == note[j - 1];
    TrimSolid(core);
    TrimPadded(space, core, note[j..]);
    assert note == note[..j] + note[j..];
    assert space + core + note[j..] == space + head + (gap + note);
  }

  lemma TrimStartPast(gap: string, rest: string)
    requires AllBlank(gap) && rest != [] && !IsAsciiWhitespace(rest[0])
    ensures TrimStart(gap + rest) == rest
  {
    SkipForwardTo(gap + rest, 0, |gap|, IsAsciiWhitespace);
  }

  lemma NoBracketBehind(gap: string, rest: string)
    requires AllBlank(gap)
    ensures ']' in gap + rest ==> ']' in rest
  {}

  lemma SectionReads(space: string, name: string, gap: string, note: string,
      inEnvironment: bool, seenSection: bool, seenSetting: bool)
    requires AllBlank(space) && '[' !in name && ']' !in name && AllBlank(gap) && IsNote(note) && ']' !in note
    ensures var environment := EqIgnoreAsciiCase(name, ENV_SECTION);
            Classify(space + (['['] + name + [']']) + (gap + note), inEnvironment, seenSection, seenSetting)
            == if environment && seenSection then Err(MultipleSections) else Ok(Header(environment))
  {
    hide Trim, TrimStart, ParseAssignment, EqIgnoreAsciiCase, ENV_SECTION;
    var tail := SectionTrimmed(space, name, gap, note);
    HeaderOf(name, tail);
  }

  lemma HeaderOf(name: string, tail: string)
    requires '[' !in name && ']' !in name && ']' !in tail
    requires TrimStart(tail) == [] || TrimStart(tail)[0] == ';'
    ensures ParseHeader((['['] + name + [']']) + tail) == Ok(EqIgnoreAsciiCase(name, ENV_SECTION))
  {
    hide EqIgnoreAsciiCase, ENV_SECTION;
    var text, end := (['['] + name + [']']) + tail, |name| + 1;
    assert text[..end] == ['['] + name && text[1..end] == name && text[end + 1..] == tail;
    FindUnique(text, ']', end);
  }

  // -- assignments

  lemma ResemblesIff(key: string)
    ensures NamesTarget(key) <==> Resembles(key)
  {
    hide EqIgnoreAsciiCase, IGNORE_DEVICES, IsWhitespace;
    TrimUnicodeAt(key);
    if i: nat, j: nat :| ResemblesAt(key, i, j) {
      SolidTarget(key[i..j]);
      TrimUnicodeIs(key, i, j);
    }
  }

  lemma TrimUnicodeAt(key: string)
    ensures EqIgnoreAsciiCase(TrimUnicode(key), IGNORE_DEVICES) ==> Resembles(key)
  {
    hide EqIgnoreAsciiCase, IGNORE_DEVICES, IsWhitespace;
    var i := SkipForward(key, 0, IsWhitespace);
    var t := key[i..];
    var m := SkipBackward(t, |t|, IsWhitespace);
    assert t[..m] == key[i..i + m];
    assert forall k :: i + m <= k < |key| ==> key[k] == t[k - i];
    assert EqIgnoreAsciiCase(TrimUnicode(key), IGNORE_DEVICES) ==> ResemblesAt(key, i, i + m);
  }

  lemma SolidTarget(s: string)
    requires EqIgnoreAsciiCase(s, IGNORE_DEVICES)
    ensures s != [] && !IsWhitespace(s[0]) && !IsWhitespace(s[|s| - 1])
  {
    assert ToLower(s[0]) == ToLower(IGNORE_DEVICES[0]);
    assert ToLower(s[|s| - 1]) == ToLower(IGNORE_DEVICES[|IGNORE_DEVICES| - 1]);
  }

  lemma TrimUnicodeIs(key: string, i: nat, j: nat)
    requires i < j <= |key| && !IsWhitespace(key[i]) && !IsWhitespace(key[j - 1])
    requires (forall k :: 0 <= k < i ==> IsWhitespace(key[k])) && (forall k :: j <= k < |key| ==> IsWhitespace(key[k]))
    ensures TrimUnicode(key) == key[i..j]
  {
    hide IsWhitespace;
    SkipForwardTo(key, 0, i, IsWhitespace);
    SkipBackwardTo(key[i..], |key| - i, j - i, IsWhitespace);
  }

  /** What a name must be, apart from not resembling the target. */
  predicate ReadableName(quoted: bool, name: string) {
    name != [] && '"' !in name && '\\' !in name && '=' !in name && (!quoted ==> PlainName(name))
  }

  lemma NameSolid(quoted: bool, name: string)
    requires ReadableName(quoted, name)
    ensures var text := NameText(quoted, name);
            && text != [] && !IsAsciiWhitespace(text[0]) && !IsAsciiWhitespace(text[|text| - 1])
            && text[0] !in ['[', ';', '#'] && !OddSpace(text[0]) && '=' !in text
            && (StartsWith(text, '"') <==> quoted) && (quoted ==> |text| >= 2 && text[|text| - 1] == '"' && text[1..|text| - 1] == name)
  {}

  lemma KeyReads(space: string, quoted: bool, name: string, gap: string)
    requires AllBlank(space) && AllBlank(gap) && ReadableName(quoted, name)
    ensures ParseKey(space + NameText(quoted, name) + gap) == Ok((name, quoted))
  {
    hide Trim, PlainName;
    NameSolid(quoted, name);
    TrimSolid(NameText(quoted, name));
    TrimPadded(space, NameText(quoted, name), gap);
  }

  lemma LeftOf(space: string, quoted: bool, name: string, gap: string, right: string)
    requires AllBlank(space) && AllBlank(gap) && ReadableName(quoted, name)
    ensures var left := space + NameText(quoted, name) + gap;
            var body := left + ['='] + right;
            Find(body, '=') == Some(|left|) && body[..|left|] == left && body[|left| + 1..] == right
  {
    hide PlainName;
    NameSolid(quoted, name);
    var left := space + NameText(quoted, name) + gap;
    var body := left + ['='] + right;
    assert body[..|left|] == left && body[|left|] == '=';
    NoEqualsInBlanks(space);
    NoEqualsInBlanks(gap);
    FindUnique(body, '=', |left|);
  }

  lemma NoEqualsInBlanks(s: string)
    requires AllBlank(s)
    ensures '=' !in s
  {}

  lemma AssigningLine(space: string, quoted: bool, name: string, rest: string)
    requires AllBlank(space) && ReadableName(quoted, name)
    ensures AssigningHead(space + NameText(quoted, name) + rest)
  {
    hide Trim, IsWhitespace;
    NameSolid(quoted, name);
    var text := NameText(quoted, name);
    assert space + text + rest == space + [text[0]] + (text[1..] + rest);
    HeadIs(space, text[0], text[1..] + rest);
  }

  lemma VariableReads(space: string, quoted: bool, name: string, gap: string, value: string, seenSection: bool, seenSetting: bool)
    requires AllBlank(space) && AllBlank(gap) && ReadableName(quoted, name) && !Resembles(name)
    ensures Classify(space + NameText(quoted, name) + gap + ['='] + value, true, seenSection, seenSetting) == Ok(Nothing)
  {
    hide Trim, Find, ParseKey, NamesTarget, ParseHeader, IsWhitespace, NameText, Resembles, ReadableName;
    var body := space + NameText(quoted, name) + gap + ['='] + value;
    LeftOf(space, quoted, name, gap, value);
    KeyReads(space, quoted, name, gap);
    ResemblesIff(name);
    AssigningLine(space, quoted, name, gap + ['='] + value);
    assert body == space + NameText(quoted, name) + (gap + ['='] + value);
  }

  lemma TargetReadable(quoted: bool)
    ensures ReadableName(quoted, IGNORE_DEVICES) && NamesTarget(IGNORE_DEVICES)
  {
    assert forall i :: 0 <= i < |IGNORE_DEVICES| ==> 'A' <= IGNORE_DEVICES[i] <= '_' && IGNORE_DEVICES[i] != '\\';
    SkipForwardTo(IGNORE_DEVICES, 0, 0, IsWhitespace);
    SkipBackwardTo(IGNORE_DEVICES, |IGNORE_DEVICES|, |IGNORE_DEVICES|, IsWhitespace);
    assert IGNORE_DEVICES[0..] == IGNORE_DEVICES;
  }

  lemma NoteAllowed(after: string, note: string)
    requires AllBlank(after) && IsNote(note)
    ensures SuffixAllowed(after + note)
  {
    hide Trim;
    if note == [] {
      assert after + note == after;
      BlankTrim(after);
    } else {
      HeadIs(after, ';', note[1..]);
      assert after + note == after + [';'] + note[1..];
    }
  }

  /** The value's text, as the parser reads it. */
  lemma ValueReads(quoted: bool, list: string, after: string, note: string)
    requires Unquoted(list) && AllBlank(after)
    requires if quoted then IsNote(note) else note == [] && PlainList(list) && (list == [] ==> after == [])
    ensures var value := ValueText(quoted, list) + (after + note);
            var first := if quoted then 1 else 0;
            && ParseValue(value, quoted) == Ok(Range(first, first + |list|)) && value[first..first + |list|] == list
            && (value != [] ==> !IsAsciiWhitespace(value[0]))
  {
    hide Trim, ParseValue, SuffixAllowed;
    if quoted {
      NoteAllowed(after, note);
      QuotedParse(list, after + note);
      assert ValueText(true, list) + (after + note) == Quoted(list, after + note);
      assert Quoted(list, after + note)[1..1 + |list|] == list;
    } else {
      assert list + (after + note) == list + after;
      assert (list + after)[0..|list|] == list;
      PlainParse(list, after);
    }
  }

  /** An assignment of the target, by its left side, the padding and the value. */
  lemma TargetAssigns(left: string, quoted: bool, pad: string, value: string, list: string)
    requires var body := left + ['='] + (pad + value);
             Find(body, '=') == Some(|left|) && ParseKey(left) == Ok((IGNORE_DEVICES, quoted)) && NamesTarget(IGNORE_DEVICES)
    requires AllBlank(pad) && (value != [] ==> !IsAsciiWhitespace(value[0]))
    requires var first := if quoted then 1 else 0;
             && ParseValue(value, quoted) == Ok(Range(first, first + |list|)) && first + |list| <= |value|
             && value[first..first + |list|] == list && ValidateDevices(list) == Ok(())
    ensures var start := |left| + 1 + |pad| + (if quoted then 1 else 0);
            ParseAssignment(left + ['='] + (pad + value), false) == Ok(Some(Range(start, start + |list|)))
  {
    hide Find, ParseKey, ParseValue, NamesTarget, ParseAssignment, ValueStart, ValidateDevices, IGNORE_DEVICES;
    var body := left + ['='] + (pad + value);
    var equal, start := |left|, |left| + 1 + |pad|;
    assert body[..equal] == left && body[equal + 1..start] == pad && body[start..] == value;
    ValueStartAt(body, equal, start);
    var first := if quoted then 1 else 0;
    SliceOf(body, start, first, first + |list|);
    SettingParses(body, equal, quoted);
  }

  lemma TargetList(list: string)
    requires ValidList(list)
    ensures ValidateDevices(list) == Ok(()) && Unquoted(list)
  {
    hide ValidateDevices, ValidList;
    ListIff(list);
    ValidatedEntries(list);
    ValidEntries(list);
    ListUnquoted(list);
  }

  lemma TargetReads(space: string, quoted: bool, gap: string, pad: string, list: string, after: string, note: string, seenSection: bool)
    requires AllBlank(space) && AllBlank(gap) && AllBlank(pad) && AllBlank(after) && ValidList(list)
    requires if quoted then IsNote(note) else note == [] && PlainList(list) && (list == [] ==> after == [])
    ensures var line := Target(space, quoted, gap, pad, list, after, note);
            Classify(line.Text(), true, seenSection, false) == Ok(line.Meaning())
  {
    hide Classify, Trim, Find, ParseKey, ParseValue, NamesTarget, IsWhitespace, NameText, ReadableName, AssigningHead, ParseAssignment,
      ValidateDevices, ValidList, PlainList, ValueText, IGNORE_DEVICES, IsNote, AllBlank;
    var left := space + NameText(quoted, IGNORE_DEVICES) + gap;
    var value := ValueText(quoted, list) + (after + note);
    TargetLeft(space, quoted, gap, pad + value);
    TargetList(list);
    ValueReads(quoted, list, after, note);
    TargetAssigns(left, quoted, pad, value, list);
    var start := |left| + 1 + |pad| + (if quoted then 1 else 0);
    SetsByAssignment(left + ['='] + (pad + value), seenSection, Range(start, start + |list|));
  }

  /** The left side of an assignment of the target. */
  lemma TargetLeft(space: string, quoted: bool, gap: string, right: string)
    requires AllBlank(space) && AllBlank(gap)
    ensures var left := space + NameText(quoted, IGNORE_DEVICES) + gap;
            var body := left + ['='] + right;
            && Find(body, '=') == Some(|left|) && ParseKey(left) == Ok((IGNORE_DEVICES, quoted)) && NamesTarget(IGNORE_DEVICES)
            && AssigningHead(body)
  {
    hide Trim, Find, ParseKey, NamesTarget, IsWhitespace, NameText, ReadableName, AssigningHead, IGNORE_DEVICES, AllBlank;
    TargetReadable(quoted);
    LeftOf(space, quoted, IGNORE_DEVICES, gap, right);
    KeyReads(space, quoted, IGNORE_DEVICES, gap);
    AssigningLine(space, quoted, IGNORE_DEVICES, gap + ['='] + right);
    LeftAssoc(space, NameText(quoted, IGNORE_DEVICES), gap, right);
  }

  lemma LeftAssoc(space: string, name: string, gap: string, right: string)
    ensures space + name + (gap + ['='] + right) == space + name + gap + ['='] + right
  {}

  lemma SliceOf(body: string, start: nat, i: nat, j: nat)
    requires start <= |body| && i <= j <= |body| - start
    ensures body[start..][i..j] == body[start + i..start + j]
  {}

  /** Every line with the parts of an ordinary one is read as what it means, unless it
      opens the environment section or sets the list a second time. */
  lemma {:induction false} PartsRead(line: Line, inEnvironment: bool, seenSection: bool, seenSetting: bool)
    requires line.WellFormed() && line.Fits(inEnvironment)
    requires !(line.IsEnvironment() && seenSection) && !(line.Target? && seenSetting)
    ensures Classify(line.Text(), inEnvironment, seenSection, seenSetting) == Ok(line.Meaning())
  {
    hide Classify, Resembles, ValidList, PlainName, PlainList, NameText, ValueText;
    match line
    case Blank(space) => BlankReads(space, inEnvironment, seenSection, seenSetting);
    case Comment(space, text) => CommentReads(space, text, inEnvironment, seenSection, seenSetting);
    case Section(space, name, gap, note) => SectionReads(space, name, gap, note, inEnvironment, seenSection, seenSetting);
    case Foreign(space, first, rest) => ForeignReads(space, first, rest, seenSection, seenSetting);
    case Variable(space, quoted, name, gap, value) => VariableReads(space, quoted, name, gap, value, seenSection, seenSetting);
    case Target(space, quoted, gap, pad, list, after, note) => TargetReads(space, quoted, gap, pad, list, after, note, seenSection);
  }

  // ------------------------------------------------------------- to the parts

  lemma SectionOf(body: string, i: nat, j: nat, environment: bool) returns (line: Line)
    requires i < j <= |body| && AllBlank(body[..i]) && AllBlank(body[j..])
    requires StartsWith(body[i..j], '[') && ParseHeader(body[i..j]) == Ok(environment)
    ensures line.Section? && line.WellFormed() && line.Text() == body && line.IsEnvironment() == environment
  {
    hide EqIgnoreAsciiCase, ENV_SECTION, AllBlank, ParseHeader;
    var text := body[i..j];
    var name, gap, note := HeaderShape(text, environment);
    assert body == body[..i] + text + body[j..];
    SectionText(body[..i], ['['] + name + [']'], gap, note, body[j..]);
    if note == [] {
      BlankTail(gap, body[j..]);
      line := Section(body[..i], name, gap + body[j..], []);
    } else {
      NoBracket(note, body[j..]);
      line := Section(body[..i], name, gap, note + body[j..]);
    }
  }

  /** The parts of a header that the parser accepts. */
  lemma HeaderShape(text: string, environment: bool) returns (name: string, gap: string, note: string)
    requires StartsWith(text, '[') && ParseHeader(text) == Ok(environment)
    ensures text == (['['] + name + [']']) + (gap + note) && AllBlank(gap) && IsNote(note)
    ensures '[' !in name && ']' !in name && ']' !in note && EqIgnoreAsciiCase(name, ENV_SECTION) == environment
  {
    hide EqIgnoreAsciiCase, ENV_SECTION, TrimStart, AllBlank;
    var end := Find(text, ']').value;
    var tail := text[end + 1..];
    var m := StartOf(tail);
    name, gap, note := text[1..end], tail[..m], tail[m..];
    assert ']' !in text[..end] && name == text[..end][1..];
  }

  lemma SectionText(space: string, head: string, gap: string, note: string, blank: string)
    ensures space + head + (gap + (note + blank)) == space + (head + (gap + note)) + blank
    ensures note == [] ==> space + head + ((gap + blank) + []) == space + (head + (gap + note)) + blank
  {}

  lemma BlankTail(a: string, b: string)
    requires AllBlank(a) && AllBlank(b)
    ensures AllBlank(a + b)
  {}

  lemma NoBracket(note: string, blank: string)
    requires AllBlank(blank)
    ensures ']' in note + blank ==> ']' in note
  {}

  lemma StartOf(tail: string) returns (m: nat)
    ensures m <= |tail| && AllBlank(tail[..m]) && TrimStart(tail) == tail[m..]
  {
    m := SkipForward(tail, 0, IsAsciiWhitespace);
  }

  lemma Around(body: string, k: nat)
    requires k < |body|
    ensures body == body[..k] + [body[k]] + body[k + 1..]
  {}

  lemma BlankLineOf(body: string, i: nat, j: nat)
    requires i == j <= |body| && AllBlank(body[..i]) && AllBlank(body[j..])
    ensures AllBlank(body)
  {
    BlankTail(body[..i], body[j..]);
    assert body == body[..i] + body[j..];
  }

  /** The parts of an assignment's left side. */
  lemma NameOf(left: string, key: string, quoted: bool) returns (space: string, gap: string)
    requires ParseKey(left) == Ok((key, quoted)) && '=' !in left && AssigningHead(left)
    ensures AllBlank(space) && AllBlank(gap) && ReadableName(quoted, key) && left == space + NameText(quoted, key) + gap
  {
    hide Trim, AllBlank, IsWhitespace;
    var i, j := TrimSpan(left);
    var text := left[i..j];
    space, gap := left[..i], left[j..];
    assert left == space + text + gap;
    KeyText(text, quoted);
    assert NameText(quoted, key) == text;
    NotWithin(left, i, j, '=');
    assert '=' !in key;
  }

  lemma NotWithin(left: string, i: nat, j: nat, c: char)
    requires i <= j <= |left| && c !in left
    ensures c !in left[i..j] && (j - i >= 2 ==> c !in left[i..j][1..j - i - 1])
  {}

  lemma KeyText(text: string, quoted: bool)
    requires StartsWith(text, '"') == quoted && (quoted ==> |text| >= 2 && text[|text| - 1] == '"')
    ensures quoted ==> NameText(true, text[1..|text| - 1]) == text
  {}

  lemma VariableOf(body: string) returns (line: Line)
    requires AssigningHead(body) && ParseAssignment(body, false) == Ok(None)
    ensures line.Variable? && line.WellFormed() && line.Text() == body
  {
    hide Trim, Find, ParseKey, NamesTarget, NameText, ReadableName, AssigningHead, Resembles;
    var equal := Find(body, '=').value;
    var left := body[..equal];
    var (key, quoted) := ParseKey(left).value;
    LeftHead(body, equal);
    var space, gap := NameOf(left, key, quoted);
    line := Variable(space, quoted, key, gap, body[equal + 1..]);
    ResemblesIff(key);
    Around(body, equal);
    Readable(quoted, key);
  }

  lemma Readable(quoted: bool, name: string)
    requires ReadableName(quoted, name)
    ensures name != [] && '"' !in name && '\\' !in name && '=' !in name && (!quoted ==> PlainName(name))
  {}

  lemma LeftHead(body: string, equal: nat)
    requires equal <= |body| && ParseKey(body[..equal]).Ok? && AssigningHead(body)
    ensures AssigningHead(body[..equal])
  {
    hide Trim, ParseKey, IsWhitespace;
    KeyIsSolid(body, equal);
    assert body[..equal][..equal] == body[..equal];
    SameHead(body, body[..equal], equal);
  }

  lemma SuffixOf(suffix: string) returns (after: string, note: string)
    requires SuffixAllowed(suffix)
    ensures AllBlank(after) && IsNote(note) && suffix == after + note
  {
    hide Trim, AllBlank;
    var i, j := TrimSpan(suffix);
    if i == j {
      BlankLineOf(suffix, i, j);
      after, note := suffix, [];
    } else {
      after, note := suffix[..i], suffix[i..];
    }
  }

  lemma PlainListOf(value: string, m: nat)
    requires ParseValue(value, false) == Ok(Range(0, m)) && m <= |value| && (value != [] ==> !IsAsciiWhitespace(value[0]))
    ensures PlainList(value[..m]) && AllBlank(value[m..]) && (m == 0 ==> value == [])
  {
    assert m == SkipBackward(value, |value|, IsAsciiWhitespace);
  }

  /** The parts of a value that the parser accepts. */
  lemma ValueOf(value: string, quoted: bool) returns (list: string, after: string, note: string)
    requires ParseValue(value, quoted).Ok? && (value != [] ==> !IsAsciiWhitespace(value[0]))
    ensures value == ValueText(quoted, list) + (after + note) && AllBlank(after)
    ensures if quoted then IsNote(note) else note == [] && PlainList(list) && (list == [] ==> after == [])
    ensures ParseValue(value, quoted) == Ok(Range(if quoted then 1 else 0, (if quoted then 1 else 0) + |list|))
  {
    hide Trim, ParseValue, AllBlank, SuffixAllowed, PlainList, IsNote;
    if quoted {
      var suffix;
      list, suffix := QuotedShape(value);
      after, note := SuffixOf(suffix);
      assert Quoted(list, after + note) == ValueText(true, list) + (after + note);
    } else {
      var m := PlainShape(value);
      PlainListOf(value, m);
      list, after, note := value[..m], value[m..], [];
      assert value == list + (after + []);
    }
  }

  lemma TargetOf(body: string, range: Range) returns (line: Line)
    requires AssigningHead(body) && ParseAssignment(body, false) == Ok(Some(range))
    ensures line.Target? && line.WellFormed() && line.Text() == body && line.Meaning() == Setting(range)
  {
    hide Trim, Find, ParseKey, ParseValue, NamesTarget, NameText, ReadableName, AssigningHead, ParseAssignment, ValueStart,
      ValidateDevices, ValidList, PlainList, IsNote, AllBlank, ValueText;
    var equal, quoted := SettingShape(body);
    AssignedIsValid(body, range);
    var left, start := body[..equal], ValueStart(body, equal);
    ValueStartIs(body, equal);
    LeftHead(body, equal);
    var space, gap := NameOf(left, IGNORE_DEVICES, quoted);
    var value, pad := body[start..], body[equal + 1..start];
    var list, after, note := ValueOf(value, quoted);
    line := Target(space, quoted, gap, pad, list, after, note);
    RightOf(body, equal, start);
    var first := if quoted then 1 else 0;
    ListWithin(quoted, list, after + note);
    SliceOf(body, start, first, first + |list|);
    ListIff(list);
  }

  lemma RightOf(body: string, equal: nat, start: nat)
    requires equal < start <= |body|
    ensures body == body[..equal] + [body[equal]] + (body[equal + 1..start] + body[start..])
  {}

  lemma ListWithin(quoted: bool, list: string, rest: string)
    ensures var first := if quoted then 1 else 0;
            var value := ValueText(quoted, list) + rest;
            first + |list| <= |value| && value[first..first + |list|] == list
  {}

  /** How the parser comes to an assignment. */
  lemma AssignmentCase(body: string, seenSection: bool, seenSetting: bool)
    requires Trim(body) != [] && Trim(body)[0] != '[' && Trim(body)[0] != ';'
    requires Classify(body, true, seenSection, seenSetting).Ok?
    ensures AssigningHead(body) && ParseAssignment(body, false).Ok?
    ensures var effect := Classify(body, true, seenSection, seenSetting).value;
            effect == match ParseAssignment(body, false).value case None => Nothing case Some(range) => Setting(range)
  {
    hide Trim, Find, ParseKey, NamesTarget, ParseSetting, IsWhitespace;
  }

  lemma HeaderCase(body: string, inEnvironment: bool, seenSection: bool, seenSetting: bool)
    requires StartsWith(Trim(body), '[') && Classify(body, inEnvironment, seenSection, seenSetting).Ok?
    ensures ParseHeader(Trim(body)).Ok?
    ensures Classify(body, inEnvironment, seenSection, seenSetting).value == Header(ParseHeader(Trim(body)).value)
    ensures ParseHeader(Trim(body)).value ==> !seenSection
  {
    hide Trim, ParseHeader, ParseAssignment, IsWhitespace;
  }

  lemma OtherCase(body: string, inEnvironment: bool, seenSection: bool, seenSetting: bool)
    requires !StartsWith(Trim(body), '[') && Classify(body, inEnvironment, seenSection, seenSetting).Ok?
    ensures Trim(body) != [] ==> !OddSpace(Trim(body)[0])
    ensures !inEnvironment || Trim(body) == [] || Trim(body)[0] == ';' ==>
              Classify(body, inEnvironment, seenSection, seenSetting).value == Nothing
  {
    hide Trim, ParseHeader, ParseAssignment;
  }

  /** Every line that the parser accepts has the parts of an ordinary one with that
      meaning, fit for its place. */
  lemma {:induction false} LineOf(body: string, inEnvironment: bool, seenSection: bool, seenSetting: bool) returns (line: Line)
    requires Classify(body, inEnvironment, seenSection, seenSetting).Ok?
    ensures line.WellFormed() && line.Fits(inEnvironment) && line.Text() == body
    ensures Classify(body, inEnvironment, seenSection, seenSetting) == Ok(line.Meaning())
    ensures !(line.IsEnvironment() && seenSection)
  {
    hide Classify, Trim, ParseHeader, ParseAssignment, IsWhitespace, AssigningHead, AllBlank;
    var i, j := TrimSpan(body);
    if i == j {
      OtherCase(body, inEnvironment, seenSection, seenSetting);
      BlankLineOf(body, i, j);
      line := Blank(body);
    } else if body[i] == '[' {
      HeaderCase(body, inEnvironment, seenSection, seenSetting);
      line := SectionOf(body, i, j, ParseHeader(Trim(body)).value);
    } else if body[i] == ';' || !inEnvironment {
      OtherCase(body, inEnvironment, seenSection, seenSetting);
      Around(body, i);
      line := if body[i] == ';' then Comment(body[..i], body[i + 1..]) else Foreign(body[..i], body[i], body[i + 1..]);
    } else {
      AssignmentCase(body, seenSection, seenSetting);
      if ParseAssignment(body, false).value.None? {
        line := VariableOf(body);
      } else {
        line := TargetOf(body, ParseAssignment(body, false).value.value);
      }
    }
  }

  /** The parser accepts a line with a meaning iff the line has the parts of an ordinary
      one with that meaning, fits its place, and neither opens the environment section
      nor sets the list a second time. */
  lemma {:induction false} LineIff(body: string, inEnvironment: bool, seenSection: bool, seenSetting: bool, effect: Effect)
    ensures Classify(body, inEnvironment, seenSection, seenSetting) == Ok(effect)
       <==> exists line: Line :: IsLine(line, body, inEnvironment, effect)
                                && !(line.IsEnvironment() && seenSection) && !(line.Target? && seenSetting)
  {
    hide Classify;
    if Classify(body, inEnvironment, seenSection, seenSetting) == Ok(effect) {
      var line := LineOf(body, inEnvironment, seenSection, seenSetting);
      SettingOnce(body, inEnvironment, seenSection);
      assert IsLine(line, body, inEnvironment, effect);
    }
    if line: Line :| IsLine(line, body, inEnvironment, effect)
                     && !(line.IsEnvironment() && seenSection) && !(line.Target? && seenSetting) {
      PartsRead(line, inEnvironment, seenSection, seenSetting);
    }
  }

  ghost predicate IsLine(line: Line, body: string, inEnvironment: bool, effect: Effect) {
    line.WellFormed() && line.Fits(inEnvironment) && line.Text() == body && line.Meaning() == effect
  }
}

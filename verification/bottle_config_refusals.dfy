/** Why a line is refused: the kinds of lines that are no ordinary ones, by their parts
    (crosspuck-app/src/bottle_config.rs). */
module BottleConfigRefusals {
  import opened Wrappers
  import opened Lists
  import opened Text
  import opened BottleConfig
  import opened BottleConfigLists
  import opened BottleConfigLines
  import opened BottleConfigGrammar
  import opened BottleConfigDevices
  import opened BottleConfigReading

  /** A line with something wrong. Names and values are those of an assignment in the
      environment section; `quoted` says whether the name is. */
  datatype Defect =
    | OddStart(space: string, first: char, rest: string)
    | OpenHeader(space: string, rest: string)
    | BracketInHeader(space: string, name: string, tail: string)
    | TextBehindHeader(space: string, name: string, gap: string, first: char, rest: string)
    | SecondSection(space: string, name: string, gap: string, note: string)
    | Hash(space: string, rest: string)
    | NoEquals(space: string, first: char, rest: string)
    | OpenName(space: string, name: string, gap: string, value: string)
    | OddName(space: string, name: string, gap: string, value: string)
    | NoName(space: string, value: string)
    | OddPlainName(space: string, name: string, gap: string, value: string)
    | CloseName(space: string, quoted: bool, name: string, gap: string, value: string)
    | SecondSetting(space: string, quoted: bool, gap: string, value: string)
    | HalfQuoted(space: string, quoted: bool, gap: string, pad: string, value: string)
    | OpenValue(space: string, gap: string, pad: string, rest: string)
    | TextBehindValue(space: string, gap: string, pad: string, list: string, after: string, first: char, rest: string)
    | FileInList(space: string, gap: string, pad: string, blank: string, rest: string, tail: string)
    | OddList(space: string, gap: string, pad: string, list: string, tail: string)
  {
    function Text(): string {
      match this
      case OddStart(space, first, rest) => space + [first] + rest
      case OpenHeader(space, rest) => space + ['['] + rest
      case BracketInHeader(space, name, tail) => space + (['['] + name + [']']) + tail
      case TextBehindHeader(space, name, gap, first, rest) => space + (['['] + name + [']']) + (gap + [first] + rest)
      case SecondSection(space, name, gap, note) => space + (['['] + name + [']']) + (gap + note)
      case Hash(space, rest) => space + ['#'] + rest
      case NoEquals(space, first, rest) => space + [first] + rest
      case OpenName(space, name, gap, value) => space + (['"'] + name) + gap + ['='] + value
      case OddName(space, name, gap, value) => space + (['"'] + name + ['"']) + gap + ['='] + value
      case NoName(space, value) => space + ['='] + value
      case OddPlainName(space, name, gap, value) => space + name + gap + ['='] + value
      case CloseName(space, quoted, name, gap, value) => space + NameText(quoted, name) + gap + ['='] + value
      case SecondSetting(space, quoted, gap, value) => space + NameText(quoted, IGNORE_DEVICES) + gap + ['='] + value
      case HalfQuoted(space, quoted, gap, pad, value) => space + NameText(quoted, IGNORE_DEVICES) + gap + ['='] + (pad + value)
      case OpenValue(space, gap, pad, rest) => space + NameText(true, IGNORE_DEVICES) + gap + ['='] + (pad + (['"'] + rest))
      case TextBehindValue(space, gap, pad, list, after, first, rest) =>
        space + NameText(true, IGNORE_DEVICES) + gap + ['='] + (pad + Quoted(list, after + [first] + rest))
      case FileInList(space, gap, pad, blank, rest, tail) =>
        space + NameText(true, IGNORE_DEVICES) + gap + ['='] + (pad + Quoted(blank + ['@'] + rest, tail))
      case OddList(space, gap, pad, list, tail) =>
        space + NameText(true, IGNORE_DEVICES) + gap + ['='] + (pad + Quoted(list, tail))
    }

    ghost predicate WellFormed() {
      && AllBlank(space)
      && match this
         case OddStart(_, first, rest) => OddSpace(first) && !IsAsciiWhitespace(first)
         case OpenHeader(_, rest) => ']' !in rest
         case BracketInHeader(_, name, tail) => ']' !in name && ('[' in name || ']' in tail)
         case TextBehindHeader(_, name, gap, first, rest) =>
           ']' !in name && AllBlank(gap) && !IsAsciiWhitespace(first) && first != ';'
         case SecondSection(_, name, gap, note) =>
           '[' !in name && ']' !in name && AllBlank(gap) && IsNote(note) && ']' !in note && EqIgnoreAsciiCase(name, ENV_SECTION)
         case Hash(_, rest) => true
         case NoEquals(_, first, rest) =>
           !IsAsciiWhitespace(first) && first !in ['[', ';', '#', '='] && !OddSpace(first) && '=' !in rest
         case OpenName(_, name, gap, value) =>
           AllBlank(gap) && '=' !in name && (name == [] || (!IsAsciiWhitespace(name[|name| - 1]) && name[|name| - 1] != '"'))
         case OddName(_, name, gap, value) => AllBlank(gap) && '=' !in name && (name == [] || '"' in name || '\\' in name)
         case NoName(_, value) => true
         case OddPlainName(_, name, gap, value) =>
           AllBlank(gap) && '=' !in name && PlainName(name) && name[0] != '"' && ('"' in name || '\\' in name)
         case CloseName(_, quoted, name, gap, value) =>
           AllBlank(gap) && ReadableName(quoted, name) && Resembles(name) && name != IGNORE_DEVICES
         case SecondSetting(_, quoted, gap, value) => AllBlank(gap)
         case HalfQuoted(_, quoted, gap, pad, value) =>
           AllBlank(gap) && AllBlank(pad) && (value != [] ==> !IsAsciiWhitespace(value[0])) && quoted != StartsWith(value, '"')
         case OpenValue(_, gap, pad, rest) => AllBlank(gap) && AllBlank(pad) && '"' !in rest
         case TextBehindValue(_, gap, pad, list, after, first, rest) =>
           AllBlank(gap) && AllBlank(pad) && '"' !in list && AllBlank(after) && !IsAsciiWhitespace(first) && first != ';'
         case FileInList(_, gap, pad, blank, rest, tail) =>
           AllBlank(gap) && AllBlank(pad) && AllBlank(blank) && '"' !in rest && SuffixAllowed(tail)
         case OddList(_, gap, pad, list, tail) =>
           && AllBlank(gap) && AllBlank(pad) && '"' !in list && SuffixAllowed(tail) && !ValidList(list)
           && !StartsWith(TrimStart(list), '@')
    }

    /** Where it is refused: headers and odd white space anywhere, assignments in the
        environment section, repetitions only when there was a first. */
    predicate Refused(inEnvironment: bool, seenSection: bool, seenSetting: bool) {
      if OddStart? || OpenHeader? || BracketInHeader? || TextBehindHeader? then true
      else if SecondSection? then seenSection
      else if SecondSetting? then inEnvironment && seenSetting
      else if HalfQuoted? || OpenValue? || TextBehindValue? || FileInList? || OddList? then inEnvironment && !seenSetting
      else inEnvironment
    }

    function Reason(): ConfigError {
      match this
      case OddStart(_, _, _) => UnsupportedWhitespace
      case OpenHeader(_, _) => MalformedSection
      case BracketInHeader(_, _, _) => UnsupportedSection
      case TextBehindHeader(_, _, _, _, _) => UnsupportedSection
      case SecondSection(_, _, _, _) => MultipleSections
      case Hash(_, _) => HashComment
      case NoEquals(_, _, _) => MalformedAssignment
      case OpenName(_, _, _, _) => MalformedName
      case OddName(_, _, _, _) => UnsupportedName
      case NoName(_, _) => UnsupportedName
      case OddPlainName(_, _, _, _) => UnsupportedName
      case CloseName(_, _, _, _, _) => AmbiguousSetting
      case SecondSetting(_, _, _, _) => AmbiguousSetting
      case HalfQuoted(_, _, _, _, _) => MixedQuoting
      case OpenValue(_, _, _, _) => UnterminatedValue
      case TextBehindValue(_, _, _, _, _, _, _) => UnsupportedValue
      case FileInList(_, _, _, _, _, _) => FileList
      case OddList(_, _, _, _, _) => UnsupportedList
    }
  }

  // ------------------------------------------------------------------ headers

  /** A line's text from its first solid character on, without white space at its end. */
  lemma Trimmed(space: string, c: char, rest: string) returns (tail: string, blank: string)
    requires AllBlank(space) && !IsAsciiWhitespace(c)
    ensures rest == tail + blank && AllBlank(blank) && Trim(space + [c] + rest) == [c] + tail
    ensures tail != [] ==> !IsAsciiWhitespace(tail[|tail| - 1])
  {
    hide Trim;
    var m := SkipBackward(rest, |rest|, IsAsciiWhitespace);
    tail, blank := rest[..m], rest[m..];
    var core := [c] + tail;
    assert core[|core| - 1] == if tail == [] then c else tail[|tail| - 1];
    TrimSolid(core);
    TrimPadded(space, core, blank);
    assert space + core + blank == space + [c] + rest;
  }

  lemma OpenHeaderRefused(space: string, rest: string, inEnvironment: bool, seenSection: bool, seenSetting: bool)
    requires AllBlank(space) && ']' !in rest
    ensures Classify(space + ['['] + rest, inEnvironment, seenSection, seenSetting) == Err(MalformedSection)
  {
    hide Trim, ParseAssignment;
    var tail, blank := Trimmed(space, '[', rest);
    assert ']' !in ['['] + tail;
    FindAbsent(['['] + tail, ']');
  }

  lemma HeaderRefused(space: string, name: string, tail: string, inEnvironment: bool, seenSection: bool, seenSetting: bool)
    requires AllBlank(space) && ']' !in name
    requires '[' in name || ']' in tail || (TrimStart(tail) != [] && TrimStart(tail)[0] != ';')
    ensures Classify(space + (['['] + name + [']']) + tail, inEnvironment, seenSection, seenSetting) == Err(UnsupportedSection)
  {
    hide Trim, TrimStart, ParseAssignment;
    var rest := name + [']'] + tail;
    var text, blank := Trimmed(space, '[', rest);
    assert space + (['['] + name + [']']) + tail == space + ['['] + rest;
    HeaderTail(name, tail, text, blank);
    var tail' := text[|name| + 1..];
    assert text == name + [']'] + tail';
    HeaderTextRefused(name, tail');
    assert ['['] + text == ['['] + name + [']'] + tail';
  }

  /** What white space at the end of the line leaves of it. */
  lemma HeaderTail(name: string, tail: string, text: string, blank: string)
    requires name + [']'] + tail == text + blank && AllBlank(blank) && ']' !in name
    ensures |name| + 1 <= |text| && text[..|name| + 1] == name + [']'] && tail == text[|name| + 1..] + blank
    ensures ']' in tail ==> ']' in text[|name| + 1..]
    ensures TrimStart(tail) != [] && TrimStart(tail)[0] != ';' ==>
              TrimStart(text[|name| + 1..]) != [] && TrimStart(text[|name| + 1..])[0] != ';'
  {
    hide TrimStart;
    var whole, n := name + [']'] + tail, |name|;
    assert whole[n] == ']';
    assert forall k :: |text| <= k < |whole| ==> whole[k] == blank[k - |text|];
    var tail' := text[n + 1..];
    assert tail == whole[n + 1..] && whole[..n + 1] == name + [']'];
    assert tail == tail' + blank;
    StartBeforeBlanks(tail', blank);
  }

  lemma StartBeforeBlanks(tail: string, blank: string)
    requires AllBlank(blank)
    ensures TrimStart(tail + blank) != [] ==> TrimStart(tail) != [] && TrimStart(tail)[0] == TrimStart(tail + blank)[0]
  {
    var i := SkipForward(tail, 0, IsAsciiWhitespace);
    if i < |tail| {
      SkipForwardTo(tail + blank, 0, i, IsAsciiWhitespace);
    } else {
      SkipForwardTo(tail + blank, 0, |tail + blank|, IsAsciiWhitespace);
    }
  }

  lemma HeaderTextRefused(name: string, tail: string)
    requires ']' !in name
    requires '[' in name || ']' in tail || (TrimStart(tail) != [] && TrimStart(tail)[0] != ';')
    ensures ParseHeader(['['] + name + [']'] + tail) == Err(UnsupportedSection)
  {
    var text, end := ['['] + name + [']'] + tail, |name| + 1;
    assert text[..end] == ['['] + name && text[1..end] == name && text[end + 1..] == tail;
    FindUnique(text, ']', end);
    if ']' in tail {
      BracketStays(tail);
    }
  }

  lemma BracketStays(tail: string)
    requires ']' in tail
    ensures ']' in TrimStart(tail)
  {
    var i := SkipForward(tail, 0, IsAsciiWhitespace);
    var k :| 0 <= k < |tail| && tail[k] == ']';
    assert i <= k;
    assert tail[i..][k - i] == ']';
  }

  // -------------------------------------------------------------- assignments

  /** How the parser comes to an assignment that it refuses. */
  lemma AssignmentRefused(body: string, seenSection: bool, seenSetting: bool)
    requires AssigningHead(body) && ParseAssignment(body, seenSetting).Err?
    ensures Classify(body, true, seenSection, seenSetting).Err?
    ensures Classify(body, true, seenSection, seenSetting).error == ParseAssignment(body, seenSetting).error
  {
    hide Trim, ParseAssignment, ParseHeader, IsWhitespace;
  }

  lemma HeadAssigns(space: string, first: char, rest: string)
    requires AllBlank(space) && !IsAsciiWhitespace(first) && first !in ['[', ';', '#'] && !OddSpace(first)
    ensures AssigningHead(space + [first] + rest)
  {
    hide Trim, IsWhitespace;
    HeadIs(space, first, rest);
  }

  lemma NoEqualsRefused(space: string, first: char, rest: string, seenSection: bool, seenSetting: bool)
    requires AllBlank(space) && !IsAsciiWhitespace(first) && first !in ['[', ';', '#', '='] && !OddSpace(first) && '=' !in rest
    ensures Classify(space + [first] + rest, true, seenSection, seenSetting) == Err(MalformedAssignment)
  {
    hide Trim, Classify, IsWhitespace;
    HeadAssigns(space, first, rest);
    NoEqualsInBlanks(space);
    FindAbsent(space + [first] + rest, '=');
    AssignmentRefused(space + [first] + rest, seenSection, seenSetting);
  }

  /** The left side of an assignment whose name starts with a quote. */
  lemma QuoteLeft(space: string, text: string, gap: string, value: string)
    requires AllBlank(space) && AllBlank(gap) && text != [] && text[0] == '"' && '=' !in text
    requires !IsAsciiWhitespace(text[|text| - 1])
    ensures var left := space + text + gap;
            var body := left + ['='] + value;
            && Find(body, '=') == Some(|left|) && body[..|left|] == left && Trim(left) == text && AssigningHead(body)
  {
    hide Trim;
    var left := space + text + gap;
    var body := left + ['='] + value;
    assert body[..|left|] == left && body[|left|] == '=';
    NoEqualsInBlanks(space);
    NoEqualsInBlanks(gap);
    FindUnique(body, '=', |left|);
    TrimSolid(text);
    TrimPadded(space, text, gap);
    HeadAssigns(space, '"', text[1..] + gap + ['='] + value);
    assert body == space + ['"'] + (text[1..] + gap + ['='] + value);
  }

  lemma OpenNameRefused(space: string, name: string, gap: string, value: string, seenSection: bool, seenSetting: bool)
    requires AllBlank(space) && AllBlank(gap) && '=' !in name
    requires name == [] || (!IsAsciiWhitespace(name[|name| - 1]) && name[|name| - 1] != '"')
    ensures Classify(space + (['"'] + name) + gap + ['='] + value, true, seenSection, seenSetting) == Err(MalformedName)
  {
    hide Classify, Trim, Find, AssigningHead;
    var text := ['"'] + name;
    QuoteLeft(space, text, gap, value);
    AssignmentRefused(space + text + gap + ['='] + value, seenSection, seenSetting);
  }

  lemma OddNameRefused(space: string, name: string, gap: string, value: string, seenSection: bool, seenSetting: bool)
    requires AllBlank(space) && AllBlank(gap) && '=' !in name && (name == [] || '"' in name || '\\' in name)
    ensures Classify(space + (['"'] + name + ['"']) + gap + ['='] + value, true, seenSection, seenSetting) == Err(UnsupportedName)
  {
    hide Classify, Trim, Find, AssigningHead;
    var text := ['"'] + name + ['"'];
    assert text[1..|text| - 1] == name;
    QuoteLeft(space, text, gap, value);
    AssignmentRefused(space + text + gap + ['='] + value, seenSection, seenSetting);
  }

  lemma NoNameRefused(space: string, value: string, seenSection: bool, seenSetting: bool)
    requires AllBlank(space)
    ensures Classify(space + ['='] + value, true, seenSection, seenSetting) == Err(UnsupportedName)
  {
    hide Classify, Trim;
    var body := space + ['='] + value;
    HeadAssigns(space, '=', value);
    NoEqualsInBlanks(space);
    assert body[..|space|] == space && body[|space|] == '=';
    FindUnique(body, '=', |space|);
    BlankTrim(space);
    AssignmentRefused(body, seenSection, seenSetting);
  }

  lemma OddPlainRefused(space: string, name: string, gap: string, value: string, seenSection: bool, seenSetting: bool)
    requires AllBlank(space) && AllBlank(gap) && '=' !in name && PlainName(name) && name[0] != '"' && ('"' in name || '\\' in name)
    ensures Classify(space + name + gap + ['='] + value, true, seenSection, seenSetting) == Err(UnsupportedName)
  {
    hide Classify, Trim, Find, AssigningHead;
    PlainLeft(space, name, gap, value);
    AssignmentRefused(space + name + gap + ['='] + value, seenSection, seenSetting);
  }

  lemma PlainLeft(space: string, name: string, gap: string, value: string)
    requires AllBlank(space) && AllBlank(gap) && '=' !in name && PlainName(name)
    ensures var left := space + name + gap;
            var body := left + ['='] + value;
            && Find(body, '=') == Some(|left|) && body[..|left|] == left && Trim(left) == name && AssigningHead(body)
  {
    hide Trim;
    var left := space + name + gap;
    var body := left + ['='] + value;
    assert body[..|left|] == left && body[|left|] == '=';
    NoEqualsInBlanks(space);
    NoEqualsInBlanks(gap);
    FindUnique(body, '=', |left|);
    TrimSolid(name);
    TrimPadded(space, name, gap);
    HeadAssigns(space, name[0], name[1..] + gap + ['='] + value);
    assert body == space + [name[0]] + (name[1..] + gap + ['='] + value);
  }

  /** A name too close to the target's, or the target a second time. */
  lemma AmbiguousRefused(space: string, quoted: bool, name: string, gap: string, value: string, seenSection: bool, seenSetting: bool)
    requires AllBlank(space) && AllBlank(gap) && ReadableName(quoted, name) && NamesTarget(name)
    requires name != IGNORE_DEVICES || seenSetting
    ensures Classify(space + NameText(quoted, name) + gap + ['='] + value, true, seenSection, seenSetting) == Err(AmbiguousSetting)
  {
    hide Classify, Trim, Find, ParseKey, NamesTarget, IsWhitespace, NameText, ReadableName, AssigningHead, IGNORE_DEVICES;
    LeftOf(space, quoted, name, gap, value);
    KeyReads(space, quoted, name, gap);
    AssigningLine(space, quoted, name, gap + ['='] + value);
    LeftAssoc(space, NameText(quoted, name), gap, value);
    AssignmentRefused(space + NameText(quoted, name) + gap + ['='] + value, seenSection, seenSetting);
  }

  /** What is wrong with the target's value decides. */
  lemma ValueRefused(space: string, quoted: bool, gap: string, pad: string, value: string, error: ConfigError, seenSection: bool)
    requires AllBlank(space) && AllBlank(gap) && AllBlank(pad) && (value != [] ==> !IsAsciiWhitespace(value[0]))
    requires var r := ParseValue(value, quoted);
             if r.Ok? then ValidateDevices(value[r.value.start..r.value.end]) == Err(error) else r.error == error
    ensures Classify(space + NameText(quoted, IGNORE_DEVICES) + gap + ['='] + (pad + value), true, seenSection, false) == Err(error)
  {
    hide Classify, Trim, Find, ParseKey, ParseValue, NamesTarget, IsWhitespace, NameText, ReadableName, AssigningHead,
      ValidateDevices, IGNORE_DEVICES, ValueStart;
    var left := space + NameText(quoted, IGNORE_DEVICES) + gap;
    TargetLeft(space, quoted, gap, pad + value);
    SettingRefused(left, quoted, pad, value, error);
    AssignmentRefused(left + ['='] + (pad + value), seenSection, false);
  }

  lemma SettingRefused(left: string, quoted: bool, pad: string, value: string, error: ConfigError)
    requires var body := left + ['='] + (pad + value);
             Find(body, '=') == Some(|left|) && ParseKey(left) == Ok((IGNORE_DEVICES, quoted)) && NamesTarget(IGNORE_DEVICES)
    requires AllBlank(pad) && (value != [] ==> !IsAsciiWhitespace(value[0]))
    requires var r := ParseValue(value, quoted);
             if r.Ok? then ValidateDevices(value[r.value.start..r.value.end]) == Err(error) else r.error == error
    ensures ParseAssignment(left + ['='] + (pad + value), false) == Err(error)
  {
    hide Find, ParseKey, ParseValue, NamesTarget, ValueStart, ValidateDevices, IGNORE_DEVICES;
    var body := left + ['='] + (pad + value);
    var equal, start := |left|, |left| + 1 + |pad|;
    assert body[..equal] == left && body[equal + 1..start] == pad && body[start..] == value;
    ValueStartAt(body, equal, start);
    var r := ParseValue(value, quoted);
    if r.Ok? {
      SliceOf(body, start, r.value.start, r.value.end);
    }
  }

  lemma OpenValueIs(rest: string)
    requires '"' !in rest
    ensures ParseValue(['"'] + rest, true) == Err(UnterminatedValue)
  {
    assert (['"'] + rest)[1..] == rest;
    FindAbsent(rest, '"');
  }

  lemma TextBehindIs(list: string, after: string, first: char, rest: string)
    requires '"' !in list && AllBlank(after) && !IsAsciiWhitespace(first) && first != ';'
    ensures ParseValue(Quoted(list, after + [first] + rest), true) == Err(UnsupportedValue)
  {
    hide Trim;
    var suffix := after + [first] + rest;
    var quoted := list + (['"'] + suffix);
    assert Quoted(list, suffix)[1..] == quoted && quoted[..|list|] == list && quoted[|list|] == '"';
    FindUnique(quoted, '"', |list|);
    assert quoted[|list| + 1..] == suffix;
    HeadIs(after, first, rest);
  }

  /** A quoted list reaches the list's validation. */
  lemma ListRefused(space: string, gap: string, pad: string, list: string, tail: string, error: ConfigError, seenSection: bool)
    requires AllBlank(space) && AllBlank(gap) && AllBlank(pad) && '"' !in list && SuffixAllowed(tail)
    requires ValidateDevices(list) == Err(error)
    ensures Classify(space + NameText(true, IGNORE_DEVICES) + gap + ['='] + (pad + Quoted(list, tail)), true, seenSection, false)
         == Err(error)
  {
    hide Classify, ParseValue, ValidateDevices, IGNORE_DEVICES, NameText, SuffixAllowed;
    QuotedParse(list, tail);
    QuotedList(list, tail);
    ValueRefused(space, true, gap, pad, Quoted(list, tail), error, seenSection);
  }

  lemma QuotedList(list: string, tail: string)
    ensures Quoted(list, tail)[1..1 + |list|] == list && !IsAsciiWhitespace(Quoted(list, tail)[0])
  {}

  lemma FileIs(blank: string, rest: string)
    requires AllBlank(blank)
    ensures ValidateDevices(blank + ['@'] + rest) == Err(FileList)
  {
    SkipForwardTo(blank + ['@'] + rest, 0, |blank|, IsAsciiWhitespace);
  }

  lemma OddListIs(list: string)
    requires !ValidList(list) && !StartsWith(TrimStart(list), '@')
    ensures ValidateDevices(list) == Err(UnsupportedList)
  {
    hide TrimStart, ValidList, ValidDevice, Split;
    ListIff(list);
  }

  // ------------------------------------------------------------- main result

  lemma HeaderDefect(d: Defect, inEnvironment: bool, seenSection: bool, seenSetting: bool)
    requires d.WellFormed() && d.Refused(inEnvironment, seenSection, seenSetting)
    requires d.OddStart? || d.OpenHeader? || d.BracketInHeader? || d.TextBehindHeader? || d.SecondSection?
    ensures Classify(d.Text(), inEnvironment, seenSection, seenSetting) == Err(d.Reason())
  {
    hide Classify, TrimStart, EqIgnoreAsciiCase;
    match d
    case OddStart(space, first, rest) => OddStartRefused(space, first, rest, inEnvironment, seenSection, seenSetting);
    case OpenHeader(space, rest) => OpenHeaderRefused(space, rest, inEnvironment, seenSection, seenSetting);
    case BracketInHeader(space, name, tail) => HeaderRefused(space, name, tail, inEnvironment, seenSection, seenSetting);
    case TextBehindHeader(space, name, gap, first, rest) =>
      StartPast(gap, first, rest);
      HeaderRefused(space, name, gap + [first] + rest, inEnvironment, seenSection, seenSetting);
    case SecondSection(space, name, gap, note) => SectionReads(space, name, gap, note, inEnvironment, seenSection, seenSetting);
  }

  lemma StartPast(gap: string, first: char, rest: string)
    requires AllBlank(gap) && !IsAsciiWhitespace(first)
    ensures TrimStart(gap + [first] + rest) == [first] + rest
  {
    SkipForwardTo(gap + [first] + rest, 0, |gap|, IsAsciiWhitespace);
  }

  lemma OddStartRefused(space: string, first: char, rest: string, inEnvironment: bool, seenSection: bool, seenSetting: bool)
    requires AllBlank(space) && OddSpace(first) && !IsAsciiWhitespace(first)
    ensures Classify(space + [first] + rest, inEnvironment, seenSection, seenSetting) == Err(UnsupportedWhitespace)
  {
    hide Trim;
    HeadIs(space, first, rest);
  }

  lemma HashRefused(space: string, rest: string, seenSection: bool, seenSetting: bool)
    requires AllBlank(space)
    ensures Classify(space + ['#'] + rest, true, seenSection, seenSetting) == Err(HashComment)
  {
    hide Trim;
    HeadIs(space, '#', rest);
  }

  /** Each of these defects is refused with its own reason. */
  lemma {:induction false} RefusedFor(d: Defect, inEnvironment: bool, seenSection: bool, seenSetting: bool)
    requires d.WellFormed() && d.Refused(inEnvironment, seenSection, seenSetting)
    ensures Classify(d.Text(), inEnvironment, seenSection, seenSetting) == Err(d.Reason())
  {
    hide Classify, ParseValue, ValidateDevices, NamesTarget, ReadableName, NameText, ValidList, TrimStart, Quoted, IGNORE_DEVICES;
    match d
    case Hash(space, rest) => HashRefused(space, rest, seenSection, seenSetting);
    case NoEquals(space, first, rest) => NoEqualsRefused(space, first, rest, seenSection, seenSetting);
    case OpenName(space, name, gap, value) => OpenNameRefused(space, name, gap, value, seenSection, seenSetting);
    case OddName(space, name, gap, value) => OddNameRefused(space, name, gap, value, seenSection, seenSetting);
    case NoName(space, value) => NoNameRefused(space, value, seenSection, seenSetting);
    case OddPlainName(space, name, gap, value) => OddPlainRefused(space, name, gap, value, seenSection, seenSetting);
    case CloseName(space, quoted, name, gap, value) =>
      ResemblesIff(name);
      AmbiguousRefused(space, quoted, name, gap, value, seenSection, seenSetting);
    case SecondSetting(space, quoted, gap, value) =>
      TargetReadable(quoted);
      AmbiguousRefused(space, quoted, IGNORE_DEVICES, gap, value, seenSection, seenSetting);
    case HalfQuoted(space, quoted, gap, pad, value) => HalfRefused(space, quoted, gap, pad, value, seenSection);
    case OpenValue(space, gap, pad, rest) =>
      OpenValueIs(rest);
      ValueRefused(space, true, gap, pad, ['"'] + rest, UnterminatedValue, seenSection);
    case TextBehindValue(space, gap, pad, list, after, first, rest) =>
      TextBehindIs(list, after, first, rest);
      QuotedList(list, after + [first] + rest);
      ValueRefused(space, true, gap, pad, Quoted(list, after + [first] + rest), UnsupportedValue, seenSection);
    case FileInList(space, gap, pad, blank, rest, tail) =>
      FileIs(blank, rest);
      NoQuote(blank, rest);
      ListRefused(space, gap, pad, blank + ['@'] + rest, tail, FileList, seenSection);
    case OddList(space, gap, pad, list, tail) =>
      OddListIs(list);
      ListRefused(space, gap, pad, list, tail, UnsupportedList, seenSection);
    case _ => HeaderDefect(d, inEnvironment, seenSection, seenSetting);
  }

  lemma NoQuote(blank: string, rest: string)
    requires AllBlank(blank) && '"' !in rest
    ensures '"' !in blank + ['@'] + rest
  {}

  lemma HalfRefused(space: string, quoted: bool, gap: string, pad: string, value: string, seenSection: bool)
    requires AllBlank(space) && AllBlank(gap) && AllBlank(pad) && (value != [] ==> !IsAsciiWhitespace(value[0]))
    requires quoted != StartsWith(value, '"')
    ensures Classify(space + NameText(quoted, IGNORE_DEVICES) + gap + ['='] + (pad + value), true, seenSection, false) == Err(MixedQuoting)
  {
    hide Classify, NameText, IGNORE_DEVICES;
    ValueRefused(space, quoted, gap, pad, value, MixedQuoting, seenSection);
  }
}

/** The parser's loop and the edit of the copied text, against their specifications. */
module BottleConfigEditor {
  import opened Wrappers
  import opened Lists
  import opened Text
  import opened BottleConfig

  /** One line more is read, or the first error ends the parse. */
  lemma ParseFrom(st: ParseState, lines: seq<string>, i: nat)
    requires i < |lines|
    ensures var effect := ClassifyIn(st, lines[i]);
            ParseLines(st, lines[i..])
            == if effect.Err? then Err(effect.error) else ParseLines(st.After(|lines[i]|, effect.value), lines[i + 1..])
  {
    hide Classify;
    assert lines[i..][0] == lines[i] && lines[i..][1..] == lines[i + 1..];
  }

  lemma ParseDone(st: ParseState, lines: seq<string>)
    requires lines == []
    ensures ParseLines(st, lines) == Ok(st)
  {}

  /** One pass over the lines with the offset, the section flag and what was found. */
  method Parse(config: string) returns (result: Result<Parsed, ConfigError>)
    ensures result == ParseConfig(config)
  {
    hide Trim, ParseHeader, ParseAssignment, IsWhitespace, ParseLines, HasUnsupportedControls, SplitLines;
    if HasUnsupportedControls(config) {
      return Err(ControlCharacters);
    }
    var parsed := Parsed(None, None);
    var inEnvironment := false;
    var offset: nat := 0;
    var lines := SplitLines(config);
    var i := 0;
    while i < |lines|
      invariant i <= |lines|
      invariant ParseLines(START, lines) == ParseLines(ParseState(offset, inEnvironment, parsed), lines[i..])
    {
      ghost var st := ParseState(offset, inEnvironment, parsed);
      ParseFrom(st, lines, i);
      var line := lines[i];
      var body := TrimEol(line);
      var text := Trim(body);
      ghost var effect := Nothing;
      if text != [] && IsWhitespace(text[0]) && text[0] as int >= 128 {
        return Err(UnsupportedWhitespace);
      }
      if StartsWith(text, '[') {
        var header := ParseHeader(text);
        if header.Err? {
          return Err(header.error);
        }
        inEnvironment := header.value;
        if inEnvironment {
          if parsed.insertAt.Some? {
            return Err(MultipleSections);
          }
          parsed := parsed.(insertAt := Some(offset + |line|));
        }
        effect := Header(inEnvironment);
      } else if inEnvironment && text != [] && text[0] != ';' {
        if text[0] == '#' {
          return Err(HashComment);
        }
        var assignment := ParseAssignment(body, parsed.setting.Some?);
        if assignment.Err? {
          return Err(assignment.error);
        }
        if assignment.value.Some? {
          var range := assignment.value.value;
          parsed := parsed.(setting := Some(Range(offset + range.start, offset + range.end)));
          effect := Setting(range);
        }
      }
      assert ClassifyIn(st, line) == Ok(effect);
      offset := offset + |line|;
      assert ParseState(offset, inEnvironment, parsed) == st.After(|line|, effect);
      i := i + 1;
    }
    ParseDone(ParseState(offset, inEnvironment, parsed), lines[i..]);
    result := Ok(parsed);
  }

  /** The edit: a range of the copied text replaced, or text inserted or appended. */
  method Update(config: string, hidden: bool) returns (result: Result<string, ConfigError>)
    ensures result == UpdateConfig(config, hidden)
  {
    hide ParseConfig, EditedList, ListHides, InsertedAssignment, AppendedSection, Newline;
    var parsing := Parse(config);
    if parsing.Err? {
      return Err(parsing.error);
    }
    var parsed := parsing.value;
    var updated := config;
    if parsed.setting.Some? {
      var range := parsed.setting.value;
      var value := config[range.start..range.end];
      if hidden != ListHides(value) {
        updated := updated[..range.start] + EditedList(value, hidden) + updated[range.end..];
      }
    } else if hidden {
      var newline := Newline(config);
      if parsed.insertAt.Some? {
        var at := parsed.insertAt.value;
        updated := updated[..at] + InsertedAssignment(config, at, newline) + updated[at..];
      } else {
        updated := updated + AppendedSection(config, newline);
      }
    }
    result := Ok(updated);
  }
}

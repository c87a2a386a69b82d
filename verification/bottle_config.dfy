/** The bottle configuration file: what is read from it and the one setting that is
    edited in place (crosspuck-app/src/bottle_config.rs). Positions count characters. */
module BottleConfig {
  import opened Wrappers
  import opened Lists
  import opened Text

  const ENV_SECTION: string := "EnvironmentVariables"
  const IGNORE_DEVICES: string := "SDL_GAMECONTROLLER_IGNORE_DEVICES"
  const DUPLICATE_DEVICE: string := "0x05AC/0x0004"
  const BYTE_ORDER_MARK: char := '\U{FEFF}'

  datatype ConfigError =
    | ControlCharacters
    | UnsupportedWhitespace
    | MalformedSection
    | UnsupportedSection
    | MultipleSections
    | HashComment
    | MalformedName
    | UnsupportedName
    | AmbiguousSetting
    | MixedQuoting
    | UnterminatedValue
    | UnsupportedValue
    | FileList
    | UnsupportedList
    | MalformedAssignment

  /** A half-open range of positions. */
  datatype Range = Range(start: nat, end: nat)

  datatype Parsed = Parsed(insertAt: Option<nat>, setting: Option<Range>)

  // ------------------------------------------------------------ device lists

  predicate IsHexDigit(c: char) {
    '0' <= c <= '9' || 'a' <= c <= 'f' || 'A' <= c <= 'F'
  }

  function HexDigit(c: char): nat
    requires IsHexDigit(c)
  {
    if '0' <= c <= '9' then (c as int) - 48
    else if 'a' <= c <= 'f' then (c as int) - 87
    else (c as int) - 55
  }

  function HexValue(digits: string): nat
    requires forall c :: c in digits ==> IsHexDigit(c)
  {
    if digits == [] then 0
    else HexValue(digits[..|digits| - 1]) * 16 + HexDigit(digits[|digits| - 1])
  }

  predicate AllHexDigits(s: string) {
    forall c :: c in s ==> IsHexDigit(c)
  }

  /** A 16-bit hexadecimal number with the lower-case prefix, spaces around it. */
  function DeviceNumber(value: string): Option<nat> {
    var text := Trim(value);
    if |text| <= 2 || text[..2] != "0x" || !AllHexDigits(text[2..]) then None
    else if HexValue(text[2..]) > 0xFFFF then None
    else Some(HexValue(text[2..]))
  }

  function DeviceIds(device: string): Option<(nat, nat)> {
    var text := Trim(device);
    match Find(text, '/')
    case None => None
    case Some(slash) =>
      match (DeviceNumber(text[..slash]), DeviceNumber(text[slash + 1..]))
      case (Some(vendor), Some(product)) => Some((vendor, product))
      case _ => None
  }

  predicate IsDuplicateDevice(device: string) {
    DeviceIds(device) == Some((0x05ac, 0x0004))
  }

  predicate IsBlank(s: string) {
    Trim(s) == []
  }

  predicate ValidDevice(device: string) {
    IsBlank(device) || DeviceIds(device).Some?
  }

  function ValidateDevices(value: string): Result<(), ConfigError> {
    if StartsWith(TrimStart(value), '@') then Err(FileList)
    else if Every(Split(value, ','), ValidDevice) then Ok(())
    else Err(UnsupportedList)
  }

  predicate ListHides(value: string) {
    Any(Split(value, ','), IsDuplicateDevice)
  }

  // ----------------------------------------------------------------- parsing

  function RemoveCrLf(s: string): string {
    if s == [] then []
    else if |s| >= 2 && s[0] == '\r' && s[1] == '\n' then RemoveCrLf(s[2..])
    else [s[0]] + RemoveCrLf(s[1..])
  }

  predicate HasUnsupportedControls(config: string) {
    StartsWith(config, BYTE_ORDER_MARK) || '\0' in config || '\r' in RemoveCrLf(config)
  }

  /** Whether a section header names the environment section. */
  function ParseHeader(text: string): Result<bool, ConfigError>
    requires StartsWith(text, '[')
  {
    match Find(text, ']')
    case None => Err(MalformedSection)
    case Some(end) =>
      var suffix := TrimStart(text[end + 1..]);
      if '[' in text[1..end] || ']' in suffix || (suffix != [] && suffix[0] != ';') then Err(UnsupportedSection)
      else Ok(EqIgnoreAsciiCase(text[1..end], ENV_SECTION))
  }

  /** The variable's name and whether it is quoted. */
  function ParseKey(left: string): Result<(string, bool), ConfigError> {
    var text := Trim(left);
    var quoted := StartsWith(text, '"');
    if quoted && (|text| < 2 || text[|text| - 1] != '"') then Err(MalformedName)
    else
      var key := if quoted then text[1..|text| - 1] else text;
      if '"' in key || '\\' in key || key == [] then Err(UnsupportedName) else Ok((key, quoted))
  }

  /** Where the value starts after the equals sign. */
  function ValueStart(body: string, equal: nat): nat
    requires equal < |body|
  {
    |body| - |TrimStart(body[equal + 1..])|
  }

  /** The range of the list inside the assignment's value. */
  function ParseValue(value: string, quotedKey: bool): (r: Result<Range, ConfigError>)
    ensures r.Ok? ==> r.value.start <= r.value.end <= |value|
  {
    if quotedKey != StartsWith(value, '"') then Err(MixedQuoting)
    else if !quotedKey then Ok(Range(0, |TrimEnd(value)|))
    else
      match Find(value[1..], '"')
      case None => Err(UnterminatedValue)
      case Some(end) =>
        var suffix := Trim(value[1..][end + 1..]);
        if suffix != [] && suffix[0] != ';' then Err(UnsupportedValue)
        else Ok(Range(1, 1 + end))
  }

  /** The validated range of the ignore list in its assignment. */
  function ParseSetting(body: string, start: nat, quotedKey: bool): (r: Result<Range, ConfigError>)
    requires start <= |body|
    ensures r.Ok? ==> start <= r.value.start <= r.value.end <= |body|
  {
    match ParseValue(body[start..], quotedKey)
    case Err(error) => Err(error)
    case Ok(inner) =>
      var range := Range(start + inner.start, start + inner.end);
      match ValidateDevices(body[range.start..range.end])
      case Err(error) => Err(error)
      case Ok(_) => Ok(range)
  }

  predicate NamesTarget(key: string) {
    EqIgnoreAsciiCase(TrimUnicode(key), IGNORE_DEVICES)
  }

  /** An assignment in the environment section: the range of the ignore list, if it
      is that variable; `seen` says that the variable was assigned before. */
  function ParseAssignment(body: string, seen: bool): (r: Result<Option<Range>, ConfigError>)
    ensures r.Ok? && r.value.Some? ==> r.value.value.start <= r.value.value.end <= |body|
  {
    match Find(body, '=')
    case None => Err(MalformedAssignment)
    case Some(equal) =>
      match ParseKey(body[..equal])
      case Err(error) => Err(error)
      case Ok((key, quoted)) =>
        if !NamesTarget(key) then Ok(None)
        else if key != IGNORE_DEVICES || seen then Err(AmbiguousSetting)
        else
          match ParseSetting(body, ValueStart(body, equal), quoted)
          case Err(error) => Err(error)
          case Ok(range) => Ok(Some(range))
  }

  /** What one line means to the parser. */
  datatype Effect = Header(environment: bool) | Nothing | Setting(range: Range)

  /** Reads a line without its terminator; `inEnvironment`, `seenSection` and
      `seenSetting` say what came before it. */
  function Classify(body: string, inEnvironment: bool, seenSection: bool, seenSetting: bool): (r: Result<Effect, ConfigError>)
    ensures r.Ok? && r.value.Setting? ==> r.value.range.start <= r.value.range.end <= |body|
  {
    var text := Trim(body);
    if text != [] && IsWhitespace(text[0]) && text[0] as int >= 128 then Err(UnsupportedWhitespace)
    else if StartsWith(text, '[') then
      match ParseHeader(text)
      case Err(error) => Err(error)
      case Ok(environment) => if environment && seenSection then Err(MultipleSections) else Ok(Header(environment))
    else if !inEnvironment || text == [] || text[0] == ';' then Ok(Nothing)
    else if text[0] == '#' then Err(HashComment)
    else
      match ParseAssignment(body, seenSetting)
      case Err(error) => Err(error)
      case Ok(None) => Ok(Nothing)
      case Ok(Some(range)) => Ok(Setting(range))
  }

  datatype ParseState = ParseState(offset: nat, inEnvironment: bool, parsed: Parsed) {
    predicate InBounds() {
      && (parsed.insertAt.Some? ==> parsed.insertAt.value <= offset)
      && (parsed.setting.Some? ==> parsed.setting.value.start <= parsed.setting.value.end <= offset)
    }

    /** The state after a line of the given length. */
    function After(length: nat, effect: Effect): ParseState {
      var next := this.(offset := offset + length);
      match effect
      case Nothing => next
      case Header(false) => next.(inEnvironment := false)
      case Header(true) => next.(inEnvironment := true, parsed := parsed.(insertAt := Some(next.offset)))
      case Setting(range) =>
        next.(parsed := parsed.(setting := Some(Range(offset + range.start, offset + range.end))))
    }
  }

  function ClassifyIn(st: ParseState, line: string): (r: Result<Effect, ConfigError>)
    ensures r.Ok? && r.value.Setting? ==> r.value.range.start <= r.value.range.end <= |line|
  {
    Classify(TrimEol(line), st.inEnvironment, st.parsed.insertAt.Some?, st.parsed.setting.Some?)
  }

  function ParseLine(st: ParseState, line: string): (r: Result<ParseState, ConfigError>)
    ensures r.Ok? ==> r.value.offset == st.offset + |line|
    ensures r.Ok? && st.InBounds() ==> r.value.InBounds()
  {
    match ClassifyIn(st, line)
    case Err(error) => Err(error)
    case Ok(effect) => Ok(st.After(|line|, effect))
  }

  function ParseLines(st: ParseState, lines: seq<string>): (r: Result<ParseState, ConfigError>)
    ensures r.Ok? ==> r.value.offset == st.offset + |Flatten(lines)|
    ensures r.Ok? && st.InBounds() ==> r.value.InBounds()
    decreases lines
  {
    if lines == [] then Ok(st)
    else
      match ParseLine(st, lines[0])
      case Err(error) => Err(error)
      case Ok(next) => ParseLines(next, lines[1..])
  }

  const START := ParseState(0, false, Parsed(None, None))

  function ParseConfig(config: string): (r: Result<Parsed, ConfigError>)
    ensures r.Ok? && r.value.insertAt.Some? ==> r.value.insertAt.value <= |config|
    ensures r.Ok? && r.value.setting.Some? ==> r.value.setting.value.start <= r.value.setting.value.end <= |config|
  {
    FlattenSplitLines(config);
    if HasUnsupportedControls(config) then Err(ControlCharacters)
    else
      match ParseLines(START, SplitLines(config))
      case Err(error) => Err(error)
      case Ok(st) => Ok(st.parsed)
  }

  // ----------------------------------------------------------------- editing

  /** The list with the target added at its end, or with every spelling of it gone. */
  function EditedList(value: string, hidden: bool): string {
    if hidden then value + (if value == [] then "" else ",") + DUPLICATE_DEVICE
    else Join(Without(Split(value, ','), IsDuplicateDevice), ',')
  }

  function Newline(config: string): string {
    if HasCrLf(config) then "\r\n" else "\n"
  }

  predicate HasCrLf(config: string) {
    exists i :: 0 <= i < |config| - 1 && config[i] == '\r' && config[i + 1] == '\n'
  }

  function Assignment(): string {
    "\"" + IGNORE_DEVICES + "\" = \"" + DUPLICATE_DEVICE + "\""
  }

  /** The text inserted after the section header that ends at `at`. */
  function InsertedAssignment(config: string, at: nat, newline: string): string
    requires at <= |config|
  {
    (if EndsWith(config[..at], '\n') then "" else newline)
    + Assignment()
    + (if at < |config| || EndsWith(config, '\n') then newline else "")
  }

  function SectionHeader(): string {
    "[" + ENV_SECTION + "]"
  }

  /** The section appended to a file that has none. */
  function AppendedSection(config: string, newline: string): string {
    (if config == [] then "" else if EndsWith(config, '\n') then newline else newline + newline)
    + SectionHeader() + newline + Assignment()
    + (if config == [] || EndsWith(config, '\n') then newline else "")
  }

  function UpdateConfig(config: string, hidden: bool): Result<string, ConfigError> {
    match ParseConfig(config)
    case Err(error) => Err(error)
    case Ok(Parsed(_, Some(range))) =>
      var value := config[range.start..range.end];
      if hidden == ListHides(value) then Ok(config)
      else Ok(config[..range.start] + EditedList(value, hidden) + config[range.end..])
    case Ok(Parsed(insertAt, None)) =>
      if !hidden then Ok(config)
      else if insertAt.Some? then
        var at := insertAt.value;
        Ok(config[..at] + InsertedAssignment(config, at, Newline(config)) + config[at..])
      else Ok(config + AppendedSection(config, Newline(config)))
  }

  /** What `duplicate_xinput_hidden` reports for a text that parses. */
  predicate Hides(config: string)
    requires ParseConfig(config).Ok?
  {
    var setting := ParseConfig(config).value.setting;
    && setting.Some?
    && ListHides(config[setting.value.start..setting.value.end])
  }
}

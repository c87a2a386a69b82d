/** The lines of a bottle configuration by their parts: what an ordinary line looks like,
    without a parser (crosspuck-app/src/bottle_config.rs). */
module BottleConfigGrammar {
  import opened Lists
  import opened Text
  import opened BottleConfig
  import opened BottleConfigLists

  // ------------------------------------------------------------ device lists

  predicate HexNumber(digits: string) {
    digits != [] && AllHexDigits(digits) && HexValue(digits) <= 0xFFFF
  }

  /** A device by its parts: white space may stand around either number. */
  datatype Device = Device(before: string, vendor: string, mid: string, middle: string, product: string, after: string)
  {
    predicate WellFormed() {
      && AllBlank(before) && AllBlank(mid) && AllBlank(middle) && AllBlank(after)
      && HexNumber(vendor) && HexNumber(product)
    }

    function Text(): string {
      (before + (['0', 'x'] + vendor) + mid) + ['/'] + (middle + (['0', 'x'] + product) + after)
    }
  }

  ghost predicate IsEntry(entry: string) {
    AllBlank(entry) || exists d: Device :: d.WellFormed() && d.Text() == entry
  }

  /** Entries with commas between them. */
  ghost predicate IsList(list: string, entries: seq<string>) {
    entries != [] && list == Join(entries, ',') && forall e :: e in entries ==> ',' !in e && IsEntry(e)
  }

  ghost predicate ValidList(list: string) {
    exists entries :: IsList(list, entries)
  }

  // ------------------------------------------------------------------- lines

  /** A comment at the end of a line, or nothing. */
  predicate IsNote(note: string) {
    note == [] || note[0] == ';'
  }

  predicate OddSpace(c: char) {
    IsWhitespace(c) && c as int >= 128
  }

  /** The variable whose value is the ignore list, in any letter case and with any white
      space around it: how a name can come too close to it. */
  ghost predicate Resembles(key: string) {
    exists i, j :: ResemblesAt(key, i, j)
  }

  predicate ResemblesAt(key: string, i: nat, j: nat) {
    && i <= j <= |key| && EqIgnoreAsciiCase(key[i..j], IGNORE_DEVICES)
    && (forall k :: 0 <= k < i ==> IsWhitespace(key[k])) && (forall k :: j <= k < |key| ==> IsWhitespace(key[k]))
  }

  datatype Line =
    | Blank(space: string)
    | Comment(space: string, text: string)
    | Section(space: string, name: string, gap: string, note: string)
    | Foreign(space: string, first: char, rest: string)
    | Variable(space: string, quoted: bool, name: string, gap: string, value: string)
    | Target(space: string, quoted: bool, gap: string, pad: string, list: string, after: string, note: string)
  {
    predicate IsEnvironment() {
      Section? && EqIgnoreAsciiCase(name, ENV_SECTION)
    }

    /** What the parts may be. */
    ghost predicate WellFormed() {
      && AllBlank(space)
      && match this
         case Blank(_) => true
         case Comment(_, text) => true
         case Section(_, name, gap, note) =>
           '[' !in name && ']' !in name && AllBlank(gap) && IsNote(note) && ']' !in note
         case Foreign(_, first, rest) => !IsAsciiWhitespace(first) && first != '[' && !OddSpace(first)
         case Variable(_, quoted, name, gap, value) =>
           && AllBlank(gap) && name != [] && '"' !in name && '\\' !in name && '=' !in name && !Resembles(name)
           && (!quoted ==> PlainName(name))
         case Target(_, quoted, gap, pad, list, after, note) =>
           && AllBlank(gap) && AllBlank(pad) && AllBlank(after) && ValidList(list)
           && (if quoted then IsNote(note) else note == [] && PlainList(list) && (list == [] ==> after == []))
    }

    /** Where a line of this kind may stand: variables are set in the environment
        section, and what other sections hold is nobody's business. */
    predicate Fits(inEnvironment: bool) {
      (Foreign? ==> !inEnvironment) && (Variable? || Target? ==> inEnvironment)
    }

    function Text(): string {
      match this
      case Blank(space) => space
      case Comment(space, text) => space + [';'] + text
      case Section(space, name, gap, note) => space + (['['] + name + [']']) + (gap + note)
      case Foreign(space, first, rest) => space + [first] + rest
      case Variable(space, quoted, name, gap, value) => space + NameText(quoted, name) + gap + ['='] + value
      case Target(space, quoted, gap, pad, list, after, note) =>
        space + NameText(quoted, IGNORE_DEVICES) + gap + ['='] + (pad + (ValueText(quoted, list) + (after + note)))
    }

    /** Where the list starts on its line. */
    function ListStart(): nat
      requires Target?
    {
      |space| + |NameText(quoted, IGNORE_DEVICES)| + |gap| + 1 + |pad| + (if quoted then 1 else 0)
    }

    function Meaning(): Effect {
      match this
      case Section(_, _, _, _) => Header(IsEnvironment())
      case Target(_, _, _, _, list, _, _) => Setting(Range(ListStart(), ListStart() + |list|))
      case _ => Nothing
    }
  }

  function NameText(quoted: bool, name: string): string {
    if quoted then ['"'] + name + ['"'] else name
  }

  function ValueText(quoted: bool, list: string): string {
    if quoted then ['"'] + list + ['"'] else list
  }

  /** A name without quotes: it starts and ends with some other character than white
      space, and not as another kind of line does. */
  predicate PlainName(name: string) {
    && name != [] && !IsAsciiWhitespace(name[0]) && !IsAsciiWhitespace(name[|name| - 1])
    && name[0] !in ['[', ';', '#'] && !OddSpace(name[0])
  }

  predicate PlainList(list: string) {
    list != [] ==> !IsAsciiWhitespace(list[0]) && !IsAsciiWhitespace(list[|list| - 1])
  }
}

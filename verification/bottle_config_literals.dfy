/** The configuration's texts letter by letter: what is written into a new file, and how
    letters, digits and white space compare (crosspuck-app/src/bottle_config.rs). */
module BottleConfigLiterals {
  import opened Wrappers
  import opened Text
  import opened BottleConfig
  import opened BottleConfigGrammar

  predicate IsLetter(c: char) {
    'A' <= c <= 'Z' || 'a' <= c <= 'z'
  }

  /** The same character, or the same letter in the other case. */
  predicate SameLetter(c: char, d: char) {
    c == d || (IsLetter(c) && IsLetter(d) && (c as int - d as int == 32 || d as int - c as int == 32))
  }

  predicate SameLetters(a: string, b: string) {
    |a| == |b| && forall i :: 0 <= i < |a| ==> SameLetter(a[i], b[i])
  }

  lemma LetterCase(c: char, d: char)
    ensures ToLower(c) == ToLower(d) <==> SameLetter(c, d)
  {}

  lemma {:induction false} SameLettersIff(a: string, b: string)
    ensures EqIgnoreAsciiCase(a, b) <==> SameLetters(a, b)
  {
    hide ToLower, SameLetter;
    if |a| == |b| {
      forall i | 0 <= i < |a| ensures ToLower(a[i]) == ToLower(b[i]) <==> SameLetter(a[i], b[i]) {
        LetterCase(a[i], b[i]);
      }
    }
  }

  /** A hexadecimal digit counts what its place among the digits says, in either case. */
  lemma DigitCounts(c: char)
    requires IsHexDigit(c)
    ensures HexDigit(c) < 16 && SameLetter("0123456789abcdef"[HexDigit(c)], c)
  {}

  /** White space by its codes. */
  lemma SpaceCodes(c: char)
    ensures IsAsciiWhitespace(c) <==> c as int in {9, 10, 12, 13, 32}
    ensures OddSpace(c) <==>
              c as int in {0x85, 0xA0, 0x1680, 0x2028, 0x2029, 0x202F, 0x205F, 0x3000} || 0x2000 <= c as int <= 0x200A
  {}

  /** The section is the one called EnvironmentVariables, in any letter case. */
  lemma {:induction false} SectionIff(line: Line)
    ensures line.IsEnvironment() <==> line.Section? && SameLetters(line.name, "EnvironmentVariables")
  {
    hide SameLetters, EqIgnoreAsciiCase;
    if line.Section? {
      SameLettersIff(line.name, "EnvironmentVariables");
    }
  }

  /** Hiding in an empty file writes exactly this section, piece by piece. */
  lemma {:induction false} NewFile()
    ensures UpdateConfig("", true)
         == Ok("[" + "EnvironmentVariables" + "]" + "\n"
               + "\"" + "SDL_GAMECONTROLLER_IGNORE_DEVICES" + "\" = \"" + "0x05AC/0x0004" + "\"" + "\n")
    ensures UpdateConfig("", false) == Ok("")
  {
    hide AppendedSection;
    assert ParseConfig("") == Ok(Parsed(None, None)) by {
      assert RemoveCrLf("") == "" && SplitLines("") == [];
    }
    assert Newline("") == "\n";
    SectionPieces(ENV_SECTION, IGNORE_DEVICES, DUPLICATE_DEVICE);
    NewSectionIs();
    assert "" + AppendedSection("", "\n") == AppendedSection("", "\n");
  }

  lemma NewSectionIs()
    ensures AppendedSection("", "\n")
         == "" + ("[" + ENV_SECTION + "]") + "\n" + ("\"" + IGNORE_DEVICES + "\" = \"" + DUPLICATE_DEVICE + "\"") + "\n"
  {
    hide ENV_SECTION, IGNORE_DEVICES, DUPLICATE_DEVICE;
  }

  lemma SectionPieces(section: string, variable: string, list: string)
    ensures "" + ("[" + section + "]") + "\n" + ("\"" + variable + "\" = \"" + list + "\"") + "\n"
         == "[" + section + "]" + "\n" + "\"" + variable + "\" = \"" + list + "\"" + "\n"
  {}
}

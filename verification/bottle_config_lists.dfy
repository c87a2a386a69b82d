/** Editing the ignore list: what it means for the list's entries. */
module BottleConfigLists {
  import opened Wrappers
  import opened Lists
  import opened Text
  import opened BottleConfig

  // ---------------------------------------------------------------- trimming

  predicate AllBlank(s: string) {
    forall i :: 0 <= i < |s| ==> IsAsciiWhitespace(s[i])
  }

  /** Trimming cuts out the part between the first and the last solid character. */
  lemma TrimIs(s: string, i: nat, j: nat)
    requires i <= j <= |s| && AllBlank(s[..i]) && AllBlank(s[j..])
    requires i < j ==> !IsAsciiWhitespace(s[i]) && !IsAsciiWhitespace(s[j - 1])
    ensures Trim(s) == s[i..j]
    ensures i < j ==> TrimStart(s) == s[i..] && TrimEnd(s) == s[..j]
  {
    assert forall k :: 0 <= k < i ==> s[k] == s[..i][k];
    assert forall k :: j <= k < |s| ==> s[k] == s[j..][k - j];
    if i < j {
      SkipForwardTo(s, 0, i, IsAsciiWhitespace);
      SkipBackwardTo(s, |s|, j, IsAsciiWhitespace);
      SkipBackwardTo(s[i..], |s| - i, j - i, IsAsciiWhitespace);
    } else {
      SkipForwardTo(s, 0, |s|, IsAsciiWhitespace);
    }
  }

  /** Where the trimmed text lies. */
  lemma TrimSpan(s: string) returns (i: nat, j: nat)
    ensures i <= j <= |s| && AllBlank(s[..i]) && AllBlank(s[j..]) && Trim(s) == s[i..j]
    ensures i < j ==> !IsAsciiWhitespace(s[i]) && !IsAsciiWhitespace(s[j - 1])
  {
    hide SkipForward, SkipBackward;
    i := SkipForward(s, 0, IsAsciiWhitespace);
    var t := s[i..];
    var m := SkipBackward(t, |t|, IsAsciiWhitespace);
    j := i + m;
    assert s[i..j] == t[..m] && s[j..] == t[m..];
    if i < j {
      assert s[j - 1] == t[m - 1];
    }
  }

  /** Outer white space does not matter to `Trim`. */
  lemma TrimPadded(before: string, s: string, after: string)
    requires AllBlank(before) && AllBlank(after)
    ensures Trim(before + s + after) == Trim(s)
  {
    hide Trim;
    var padded := before + s + after;
    var i, j := TrimSpan(s);
    var i', j' := |before| + i, |before| + j;
    assert padded[..i'] == before + s[..i];
    assert padded[j'..] == s[j..] + after;
    assert padded[i'..j'] == s[i..j];
    if i < j {
      assert padded[i'] == s[i] && padded[j' - 1] == s[j - 1];
    }
    TrimIs(padded, i', j');
  }

  lemma TrimTwice(s: string)
    ensures Trim(Trim(s)) == Trim(s)
  {
    var i, j := TrimSpan(s);
    TrimSolid(s[i..j]);
  }

  /** A text that starts and ends with other characters is its own trimming. */
  lemma TrimSolid(s: string)
    requires s == [] || (!IsAsciiWhitespace(s[0]) && !IsAsciiWhitespace(s[|s| - 1]))
    ensures Trim(s) == s && TrimStart(s) == s && TrimEnd(s) == s
  {
    TrimIs(s, 0, |s|);
    assert s[0..|s|] == s;
  }

  lemma TrimChars(s: string, c: char)
    requires c in s && !IsAsciiWhitespace(c)
    ensures c in Trim(s)
  {
    var i, j := TrimSpan(s);
    assert forall k :: 0 <= k < i ==> s[k] == s[..i][k];
    assert forall k :: j <= k < |s| ==> s[k] == s[j..][k - j];
    var k :| 0 <= k < |s| && s[k] == c;
    assert s[i..j][k - i] == c;
  }

  // ------------------------------------------------------------- list entries

  lemma FirstNumber()
    ensures DeviceNumber("0x05AC") == Some(0x05AC)
  {
    var s: string := "0x05AC";
    TrimSolid(s);
    assert s[..2] == "0x" && s[2..] == "05AC";
    assert HexValue("05AC") == 0x05AC by {
      assert "05AC"[..3] == "05A" && "05A"[..2] == "05" && "05"[..1] == "0" && "0"[..0] == "";
    }
  }

  lemma SecondNumber()
    ensures DeviceNumber("0x0004") == Some(4)
  {
    var s: string := "0x0004";
    TrimSolid(s);
    assert s[..2] == "0x" && s[2..] == "0004";
    assert HexValue("0004") == 4 by {
      assert "0004"[..3] == "000" && "000"[..2] == "00" && "00"[..1] == "0" && "0"[..0] == "";
    }
  }

  lemma DuplicateIsDevice()
    ensures IsDuplicateDevice(DUPLICATE_DEVICE)
  {
    var s: string := DUPLICATE_DEVICE;
    TrimSolid(s);
    assert s[6] == '/' && s[..6] == "0x05AC" && s[7..] == "0x0004";
    FindUnique(s, '/', 6);
    FirstNumber();
    SecondNumber();
  }

  lemma DuplicateShape()
    ensures DUPLICATE_DEVICE != "" && ',' !in DUPLICATE_DEVICE
    ensures !IsAsciiWhitespace(DUPLICATE_DEVICE[0]) && !IsAsciiWhitespace(DUPLICATE_DEVICE[|DUPLICATE_DEVICE| - 1])
  {}

  predicate SafeChar(c: char) {
    IsAsciiWhitespace(c) || IsHexDigit(c) || c == 'x' || c == '/'
  }

  lemma NumberChars(value: string, c: char)
    requires DeviceNumber(value).Some? && c in value
    ensures SafeChar(c)
  {
    if !IsAsciiWhitespace(c) {
      TrimChars(value, c);
      var text := Trim(value);
      assert text == text[..2] + text[2..];
    }
  }

  lemma IdsParts(device: string) returns (vendor: string, product: string)
    requires DeviceIds(device).Some?
    ensures Trim(device) == vendor + ['/'] + product
    ensures DeviceNumber(vendor).Some? && DeviceNumber(product).Some?
  {
    var text := Trim(device);
    var slash := Find(text, '/').value;
    vendor, product := text[..slash], text[slash + 1..];
  }

  /** Entries that are accepted consist of white space, hex digits, `x` and `/`. */
  lemma DeviceChars(device: string, c: char)
    requires ValidDevice(device) && c in device
    ensures SafeChar(c)
  {
    if !IsAsciiWhitespace(c) {
      TrimChars(device, c);
      assert !IsBlank(device);
      var vendor, product := IdsParts(device);
      if c in vendor {
        NumberChars(vendor, c);
      } else if c in product {
        NumberChars(product, c);
      }
    }
  }

  predicate SafeText(s: string) {
    forall c :: c in s ==> SafeChar(c)
  }

  lemma DeviceText(device: string)
    requires ValidDevice(device)
    ensures SafeText(device)
  {
    forall c | c in device ensures SafeChar(c) {
      DeviceChars(device, c);
    }
  }

  lemma EveryDeviceSafe(devices: seq<string>)
    requires Every(devices, ValidDevice)
    ensures Every(devices, SafeText)
  {
    forall i | 0 <= i < |devices| ensures SafeText(devices[i]) {
      DeviceText(devices[i]);
    }
  }

  lemma JoinSafe(value: string, c: char)
    requires Every(Split(value, ','), SafeText) && c in value
    ensures SafeChar(c) || c == ','
  {
    SplitParts(value, ',');
    JoinChars(Split(value, ','), ',', c);
  }

  /** A list of valid entries has only harmless characters... */
  lemma ListChars(value: string, c: char)
    requires Every(Split(value, ','), ValidDevice) && c in value
    ensures SafeChar(c) || c == ','
  {
    EveryDeviceSafe(Split(value, ','));
    JoinSafe(value, c);
  }

  /** ... so it passes validation: it cannot start with an at sign. */
  lemma ValidEntries(value: string)
    requires Every(Split(value, ','), ValidDevice)
    ensures ValidateDevices(value) == Ok(())
  {
    if StartsWith(TrimStart(value), '@') {
      assert '@' in value;
      ListChars(value, '@');
    }
  }

  lemma ValidatedEntries(value: string)
    requires ValidateDevices(value).Ok?
    ensures Every(Split(value, ','), ValidDevice)
  {}

  // ---------------------------------------------------------- the edited list

  /** The entries of a list with one added at its end. */
  lemma AddedEntry(value: string, entry: string)
    requires ',' !in entry
    ensures Split(value + "," + entry, ',') == Split(value, ',') + [entry]
  {
    SplitAppend(value, entry, ',');
    SplitSingle(entry, ',');
    assert value + "," + entry == value + [','] + entry;
  }

  /** The entries of a list without some of them: none at all leaves one empty entry. */
  lemma RemainingEntries(value: string, drop: string -> bool)
    ensures var rest := Without(Split(value, ','), drop);
            Split(Join(rest, ','), ',') == (if rest == [] then [""] else rest)
  {
    var rest := Without(Split(value, ','), drop);
    SplitParts(value, ',');
    WithoutKeeps(Split(value, ','), drop, p => ',' !in p);
    if rest == [] {
      SplitSingle("", ',');
    } else {
      forall p | p in rest ensures ',' !in p {
        var i :| 0 <= i < |rest| && rest[i] == p;
      }
      SplitJoin(rest, ',');
    }
  }

  lemma HiddenEntries(value: string)
    ensures Split(EditedList(value, true), ',') == (if value == "" then [] else Split(value, ',')) + [DUPLICATE_DEVICE]
  {
    hide Split, DUPLICATE_DEVICE;
    DuplicateShape();
    if value == "" {
      SplitSingle(DUPLICATE_DEVICE, ',');
      assert "" + "" + DUPLICATE_DEVICE == DUPLICATE_DEVICE;
      assert [] + [DUPLICATE_DEVICE] == [DUPLICATE_DEVICE];
    } else {
      AddedEntry(value, DUPLICATE_DEVICE);
    }
  }

  lemma ShownEntries(value: string)
    ensures Split(EditedList(value, false), ',') == (if OtherEntries(value) == [] then [""] else OtherEntries(value))
  {
    RemainingEntries(value, IsDuplicateDevice);
  }

  /** The entries other than the target. */
  function OtherEntries(value: string): seq<string> {
    Without(Split(value, ','), IsDuplicateDevice)
  }

  lemma EmptyEntry()
    ensures !IsDuplicateDevice("") && ValidDevice("")
  {}

  lemma DuplicateIsValid()
    ensures ValidDevice(DUPLICATE_DEVICE)
  {
    DuplicateIsDevice();
  }

  lemma AnyAppend<T>(a: seq<T>, x: T, p: T -> bool)
    requires p(x)
    ensures Any(a + [x], p)
  {
    assert (a + [x])[|a|] == x;
  }

  lemma EveryAppend<T>(a: seq<T>, x: T, p: T -> bool)
    requires Every(a, p) && p(x)
    ensures Every(a + [x], p)
  {}

  /** The edited list hides the target exactly as asked. */
  lemma {:induction false} EditedListHides(value: string, hidden: bool)
    ensures ListHides(EditedList(value, hidden)) == hidden
  {
    if hidden {
      HiddenEntries(value);
      DuplicateIsDevice();
      AnyAppend(if value == "" then [] else Split(value, ','), DUPLICATE_DEVICE, IsDuplicateDevice);
    } else {
      ShownEntries(value);
      EmptyEntry();
      WithoutNone(Split(value, ','), IsDuplicateDevice);
    }
  }

  /** The edited list passes validation. */
  lemma {:induction false} EditedListValid(value: string, hidden: bool)
    requires ValidateDevices(value).Ok?
    ensures Every(Split(EditedList(value, hidden), ','), ValidDevice)
  {
    ValidatedEntries(value);
    if hidden {
      HiddenEntries(value);
      DuplicateIsValid();
      EveryAppend(if value == "" then [] else Split(value, ','), DUPLICATE_DEVICE, ValidDevice);
    } else {
      ShownEntries(value);
      EmptyEntry();
      WithoutKeeps(Split(value, ','), IsDuplicateDevice, ValidDevice);
    }
  }

  lemma DuplicateAlone()
    ensures Without([DUPLICATE_DEVICE], IsDuplicateDevice) == []
  {
    DuplicateIsDevice();
  }

  /** Every entry other than the target survives verbatim and in order. */
  lemma OtherEntriesKept(value: string, hidden: bool)
    requires value != "" && OtherEntries(value) != []
    ensures OtherEntries(EditedList(value, hidden)) == OtherEntries(value)
  {
    if hidden {
      HiddenEntries(value);
      WithoutAppend(Split(value, ','), [DUPLICATE_DEVICE], IsDuplicateDevice);
      DuplicateAlone();
    } else {
      ShownEntries(value);
      WithoutNone(Split(value, ','), IsDuplicateDevice);
      WithoutAll(OtherEntries(value), IsDuplicateDevice);
    }
  }

  /** Adding the target to a list without it and removing it again is the identity. */
  lemma {:induction false} ListRoundTrip(value: string)
    requires !ListHides(value)
    ensures EditedList(EditedList(value, true), false) == value
  {
    HiddenEntries(value);
    if value == "" {
      DuplicateAlone();
      assert [] + [DUPLICATE_DEVICE] == [DUPLICATE_DEVICE];
    } else {
      DroppedAgain(Split(value, ','));
      SplitParts(value, ',');
    }
  }

  lemma DroppedAgain(devices: seq<string>)
    requires !Any(devices, IsDuplicateDevice)
    ensures Without(devices + [DUPLICATE_DEVICE], IsDuplicateDevice) == devices
  {
    WithoutAppend(devices, [DUPLICATE_DEVICE], IsDuplicateDevice);
    DuplicateAlone();
    WithoutAll(devices, IsDuplicateDevice);
  }

  // ------------------------------------- outer white space of a list is inert

  predicate SameEntries(a: seq<string>, b: seq<string>) {
    |a| == |b| && forall i :: 0 <= i < |a| ==> Trim(a[i]) == Trim(b[i])
  }

  lemma SplitPrepend(w: char, s: string)
    requires w != ','
    ensures Split([w] + s, ',') == [[w] + Split(s, ',')[0]] + Split(s, ',')[1..]
  {
    match Find(s, ',')
    case None =>
      FindAbsent([w] + s, ',');
    case Some(i) =>
      assert ([w] + s)[..i + 1] == [w] + s[..i];
      FindUnique([w] + s, ',', i + 1);
      assert ([w] + s)[i + 2..] == s[i + 1..];
  }

  lemma SplitBlankFirst(w: char, s: string)
    requires IsAsciiWhitespace(w)
    ensures SameEntries(Split([w] + s, ','), Split(s, ','))
  {
    SplitPrepend(w, s);
    var head := Split(s, ',')[0];
    TrimPadded([w], head, []);
    assert [w] + head + [] == [w] + head;
  }

  lemma {:induction false} SplitPostpend(s: string, w: char)
    requires w != ','
    ensures var parts := Split(s, ',');
            Split(s + [w], ',') == parts[..|parts| - 1] + [parts[|parts| - 1] + [w]]
  {
    match Find(s, ',')
    case None =>
      FindAbsent(s + [w], ',');
    case Some(i) =>
      assert (s + [w])[..i] == s[..i];
      FindUnique(s + [w], ',', i);
      assert (s + [w])[i + 1..] == s[i + 1..] + [w];
      SplitPostpend(s[i + 1..], w);
  }

  lemma SplitBlankLast(s: string, w: char)
    requires IsAsciiWhitespace(w)
    ensures SameEntries(Split(s + [w], ','), Split(s, ','))
  {
    SplitPostpend(s, w);
    var parts := Split(s, ',');
    LastEntryPadded(parts, w);
  }

  lemma LastEntryPadded(parts: seq<string>, w: char)
    requires parts != [] && IsAsciiWhitespace(w)
    ensures SameEntries(parts[..|parts| - 1] + [parts[|parts| - 1] + [w]], parts)
  {
    hide Trim;
    var last := parts[|parts| - 1];
    assert Trim(last + [w]) == Trim(last) by {
      TrimPadded([], last, [w]);
      assert [] + last + [w] == last + [w];
    }
  }

  lemma SameEntriesTrans(a: seq<string>, b: seq<string>, c: seq<string>)
    requires SameEntries(a, b) && SameEntries(b, c)
    ensures SameEntries(a, c)
  {}

  lemma {:induction false} SplitDropStart(s: string, i: nat)
    requires i <= |s| && AllBlank(s[..i])
    ensures SameEntries(Split(s, ','), Split(s[i..], ','))
  {
    if i == 0 {
      assert s[0..] == s;
    } else {
      assert s[..i][0] == s[0] && s == [s[0]] + s[1..];
      SplitBlankFirst(s[0], s[1..]);
      assert s[..i][1..] == s[1..][..i - 1] && s[1..][i - 1..] == s[i..];
      SplitDropStart(s[1..], i - 1);
      SameEntriesTrans(Split(s, ','), Split(s[1..], ','), Split(s[i..], ','));
    }
  }

  lemma {:induction false} SplitDropEnd(s: string, j: nat)
    requires j <= |s| && AllBlank(s[j..])
    ensures SameEntries(Split(s, ','), Split(s[..j], ','))
    decreases |s|
  {
    if j == |s| {
      assert s[..j] == s;
    } else {
      var last := |s| - 1;
      assert s[j..][last - j] == s[last] && s == s[..last] + [s[last]];
      SplitBlankLast(s[..last], s[last]);
      assert s[j..][..last - j] == s[..last][j..] && s[..last][..j] == s[..j];
      SplitDropEnd(s[..last], j);
      SameEntriesTrans(Split(s, ','), Split(s[..last], ','), Split(s[..j], ','));
    }
  }

  lemma SplitTrim(s: string)
    ensures SameEntries(Split(s, ','), Split(Trim(s), ','))
  {
    var i, j := TrimSpan(s);
    SplitDropStart(s, i);
    assert s[i..][j - i..] == s[j..] && s[i..][..j - i] == s[i..j];
    SplitDropEnd(s[i..], j - i);
    SameEntriesTrans(Split(s, ','), Split(s[i..], ','), Split(Trim(s), ','));
  }

  lemma SameTrimSameDevice(a: string, b: string)
    requires Trim(a) == Trim(b)
    ensures IsDuplicateDevice(a) == IsDuplicateDevice(b)
    ensures ValidDevice(a) == ValidDevice(b)
  {}

  lemma SameEntriesAgree(a: seq<string>, b: seq<string>)
    requires SameEntries(a, b)
    ensures Any(a, IsDuplicateDevice) == Any(b, IsDuplicateDevice)
    ensures Every(a, ValidDevice) == Every(b, ValidDevice)
  {
    forall i | 0 <= i < |a|
      ensures IsDuplicateDevice(a[i]) == IsDuplicateDevice(b[i]) && ValidDevice(a[i]) == ValidDevice(b[i])
    {
      SameTrimSameDevice(a[i], b[i]);
    }
  }

  /** Trimming a list changes neither its validity nor whether it hides the target. */
  lemma TrimmedList(value: string)
    requires ValidateDevices(value).Ok?
    ensures ValidateDevices(Trim(value)) == Ok(())
    ensures ListHides(Trim(value)) == ListHides(value)
  {
    SplitTrim(value);
    ValidatedEntries(value);
    SameEntriesAgree(Split(value, ','), Split(Trim(value), ','));
    ValidEntries(Trim(value));
  }
}

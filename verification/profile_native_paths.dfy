/** How the path of a native device is classified: by the interface number in it
    (guest_driver/profile.rs). */
module ProfileNativePaths {
  import opened Wrappers
  import opened Text
  import opened Identity
  import opened ProfilePaths
  import opened ProfilePathParts
  import opened ProfilePathResults

  /** The middle of a native path: vendor, product and interface number. */
  function NativePart(identity: IdentityPayload, n: u8): string {
    VendorPart(identity.vendorId) + ['&'] + (ProductPart(identity.productId) + ['&'] + InterfacePart(n))
  }

  function NativePath(identity: IdentityPayload, n: u8, before: string, after: string): string {
    before + ['#'] + (NativePart(identity, n) + ['#'] + after)
  }

  /** Text around the middle that holds no marker but possibly a collection's. */
  predicate Unmarked(s: string) {
    AllLower(s) && '_' !in s
  }

  /** The path names the second collection, which is the dongle's. */
  predicate SecondCollection(before: string, after: string) {
    Contains(before, "col02") || Contains(after, "col02")
  }

  // ------------------------------------------------------- where markers occur

  lemma MarkerInside(identity: IdentityPayload, n: u8, before: string, after: string, needle: string)
    requires needle != [] && '#' !in needle
    requires !Contains(before, needle) && !Contains(after, needle)
    ensures Contains(NativePath(identity, n, before, after), needle) <==> Contains(NativePart(identity, n), needle)
  {
    hide Contains, NativePart;
    ContainsAround(before, '#', NativePart(identity, n) + ['#'] + after, needle);
    ContainsAround(NativePart(identity, n), '#', after, needle);
  }

  lemma UnmarkedLacks(s: string, needle: string, k: nat)
    requires '_' !in s && k < |needle| && needle[k] == '_'
    ensures !Contains(s, needle)
  {
    LacksNeedle(s, needle, k);
  }

  lemma InNativePart(identity: IdentityPayload, n: u8, needle: string)
    requires needle != [] && '&' !in needle
    ensures Contains(NativePart(identity, n), needle)
       <==> Contains(VendorPart(identity.vendorId), needle) || Contains(ProductPart(identity.productId), needle)
            || Contains(InterfacePart(n), needle)
  {
    hide Contains, VendorPart, ProductPart, InterfacePart;
    ContainsAround(VendorPart(identity.vendorId), '&', ProductPart(identity.productId) + ['&'] + InterfacePart(n), needle);
    ContainsAround(ProductPart(identity.productId), '&', InterfacePart(n), needle);
  }

  lemma InterfaceInNative(identity: IdentityPayload, n: u8, before: string, after: string, m: u8)
    requires Unmarked(before) && Unmarked(after)
    ensures Contains(NativePath(identity, n, before, after), InterfacePart(m)) <==> m == n
  {
    hide Contains, Hex, VendorPart, ProductPart, NativePath, NativePart, HexLimit;
    NoSeparators("mi_", m, 2);
    UnmarkedLacks(before, InterfacePart(m), 2);
    UnmarkedLacks(after, InterfacePart(m), 2);
    MarkerInside(identity, n, before, after, InterfacePart(m));
    InNativePart(identity, n, InterfacePart(m));
    NoLetter(identity, n, InterfacePart(m), 0);
    Limits();
    SamePart("mi_", n, m, 2);
  }

  /** A letter that no part but possibly the interface's has. */
  lemma NoLetter(identity: IdentityPayload, n: u8, needle: string, k: nat)
    requires k < |needle| && !IsLowerHex(needle[k]) && needle[k] !in "vid_" && needle[k] !in "pid_"
    ensures !Contains(VendorPart(identity.vendorId), needle) && !Contains(ProductPart(identity.productId), needle)
    ensures needle[k] !in "mi_" ==> !Contains(InterfacePart(n), needle)
  {
    hide Contains, Hex;
    FixedText("vid_", identity.vendorId, 4, needle, k);
    FixedText("pid_", identity.productId, 4, needle, k);
    if needle[k] !in "mi_" {
      FixedText("mi_", n, 2, needle, k);
    }
  }

  lemma VendorAndProduct(identity: IdentityPayload, n: u8, before: string, after: string)
    ensures var path := NativePath(identity, n, before, after);
            Contains(path, VendorPart(identity.vendorId)) && Contains(path, ProductPart(identity.productId))
  {
    hide Contains, Hex;
    var vendor, product := VendorPart(identity.vendorId), ProductPart(identity.productId);
    SameLength(vendor, vendor);
    SameLength(product, product);
    NoSeparators("vid_", identity.vendorId, 4);
    NoSeparators("pid_", identity.productId, 4);
    InNativePart(identity, n, vendor);
    InNativePart(identity, n, product);
    WithinPath(identity, n, before, after, vendor);
    WithinPath(identity, n, before, after, product);
  }

  lemma WithinPath(identity: IdentityPayload, n: u8, before: string, after: string, needle: string)
    requires needle != [] && '#' !in needle && Contains(NativePart(identity, n), needle)
    ensures Contains(NativePath(identity, n, before, after), needle)
  {
    hide Contains, NativePart;
    ContainsAround(before, '#', NativePart(identity, n) + ['#'] + after, needle);
    ContainsAround(NativePart(identity, n), '#', after, needle);
  }

  lemma CollectionInNative(identity: IdentityPayload, n: u8, before: string, after: string)
    ensures Contains(NativePath(identity, n, before, after), "col02") <==> SecondCollection(before, after)
  {
    hide Contains, NativePart, VendorPart, ProductPart, InterfacePart;
    ContainsAround(before, '#', NativePart(identity, n) + ['#'] + after, "col02");
    ContainsAround(NativePart(identity, n), '#', after, "col02");
    InNativePart(identity, n, "col02");
    NoLetter(identity, n, "col02", 1);
  }

  lemma NoUsage(identity: IdentityPayload, n: u8, before: string, after: string, descriptor: Descriptor)
    requires Unmarked(before) && Unmarked(after)
    ensures !Contains(NativePath(identity, n, before, after), UsagePart(descriptor))
  {
    hide Contains, NativePath, NativePart, VendorPart, ProductPart, InterfacePart, Hex;
    var needle := UsagePart(descriptor);
    UsageShape(descriptor);
    UnmarkedLacks(before, needle, 7);
    UnmarkedLacks(after, needle, 7);
    MarkerInside(identity, n, before, after, needle);
    InNativePart(identity, n, needle);
    NoLetter(identity, n, needle, 2);
  }

  lemma UsageShape(descriptor: Descriptor)
    ensures var needle := UsagePart(descriptor);
            |needle| > 7 && needle[2] == ':' && needle[7] == '_' && '#' !in needle && '&' !in needle
  {
    hide Hex;
    var page, usage := Hex(descriptor.usagePage, 4), Hex(descriptor.usage, 4);
    assert forall c :: c in page || c in usage ==> c != '#' && c != '&';
    assert UsagePart(descriptor)[7] == "_u:"[0];
  }

  /** A descriptor matches a native path iff its number is the one in the path, or it is
      the dongle's and the path names the second collection. */
  lemma NativeMatches(identity: IdentityPayload, n: u8, before: string, after: string, descriptor: Descriptor)
    requires Unmarked(before) && Unmarked(after)
    ensures Matches(identity, descriptor, NativePath(identity, n, before, after)) <==> Named(descriptor, n, SecondCollection(before, after))
  {
    hide Contains, SecondCollection, NativePath, VendorPart, ProductPart, InterfacePart, UsagePart, Hex;
    VendorAndProduct(identity, n, before, after);
    InterfaceInNative(identity, n, before, after, descriptor.interfaceNumber);
    NoUsage(identity, n, before, after, descriptor);
    CollectionInNative(identity, n, before, after);
    DongleCollection();
  }

  lemma DongleCollection()
    ensures CollectionPart(VendorDongle) == "col02"
  {
    assert Hex(0, 1) == "0" && Hex(2, 2) == "02";
  }

  // ---------------------------------------------------------------- the guess

  predicate Named(descriptor: Descriptor, n: u8, second: bool) {
    descriptor.interfaceNumber == n || (second && descriptor.profile.VendorDongle?)
  }

  /** The profile that a native interface number stands for by itself; `second` says that
      the path names the second collection. */
  function UsualProfile(n: u8, second: bool): Profile {
    if n == 6 || second then VendorDongle
    else if n == 3 then Interface3 else if n == 4 then Interface4 else if n == 5 then Interface5 else Main
  }

  lemma VidPidIn(identity: IdentityPayload, n: u8, before: string, after: string, m: nat)
    requires Unmarked(before) && Unmarked(after) && m < 0x100
    ensures var vidPid := VendorPart(identity.vendorId) + "&" + ProductPart(identity.productId);
            && Contains(NativePath(identity, n, before, after), vidPid)
            && (Contains(NativePath(identity, n, before, after), vidPid + "&" + InterfacePart(m)) <==> m == n)
  {
    hide Contains, Hex, NativePath, NativePart, HexLimit;
    var vidPid := VendorPart(identity.vendorId) + "&" + ProductPart(identity.productId);
    var needle := vidPid + "&" + InterfacePart(m);
    WholePart(identity, n, m);
    WithinPath(identity, n, before, after, vidPid);
    UnmarkedLacks(before, needle, 3);
    UnmarkedLacks(after, needle, 3);
    MarkerInside(identity, n, before, after, needle);
  }

  lemma WholePart(identity: IdentityPayload, n: u8, m: nat)
    requires m < 0x100
    ensures var vidPid := VendorPart(identity.vendorId) + "&" + ProductPart(identity.productId);
            var needle := vidPid + "&" + InterfacePart(m);
            && needle[3] == '_' && '#' !in needle && '#' !in vidPid && vidPid != []
            && Contains(NativePart(identity, n), vidPid) && (Contains(NativePart(identity, n), needle) <==> m == n)
  {
    hide Contains, Hex, HexLimit;
    var vidPid := VendorPart(identity.vendorId) + "&" + ProductPart(identity.productId);
    var needle := vidPid + "&" + InterfacePart(m);
    var middle := NativePart(identity, n);
    NoSeparators("vid_", identity.vendorId, 4);
    NoSeparators("pid_", identity.productId, 4);
    NoSeparators("mi_", m, 2);
    assert middle == vidPid + "&" + InterfacePart(n);
    SameLength(middle, needle);
    Limits();
    HexInjective(n, m, 2);
    AtFront(vidPid, "&" + InterfacePart(n));
    assert vidPid + ("&" + InterfacePart(n)) == middle;
    if middle == needle {
      assert middle[|middle| - 2..] == Hex(n, 2) && needle[|needle| - 2..] == Hex(m, 2);
    }
  }

  lemma AtFront(s: string, rest: string)
    ensures Contains(s + rest, s)
  {
    assert (s + rest)[0..|s|] == s;
    assert OccursAt(s + rest, s, 0);
  }

  lemma Numbers()
    ensures InterfacePart(3) == "mi_03" && InterfacePart(4) == "mi_04" && InterfacePart(5) == "mi_05" && InterfacePart(6) == "mi_06"
  {
    assert Hex(0, 1) == "0" && Hex(3, 2) == "03" && Hex(4, 2) == "04" && Hex(5, 2) == "05" && Hex(6, 2) == "06";
  }

  lemma NativeGuess(catalog: Catalog, n: u8, before: string, after: string)
    requires Unmarked(before) && Unmarked(after)
    ensures LenientMatch(catalog, NativePath(catalog.identity, n, before, after))
         == var usual := UsualProfile(n, SecondCollection(before, after));
            if catalog.Find(usual).Some? then Some(usual) else None
  {
    hide Contains, SecondCollection, NativePath, Hex, FindDescriptor, DescriptorsFor, VendorPart, ProductPart, InterfacePart;
    var identity := catalog.identity;
    CollectionInNative(identity, n, before, after);
    Numbers();
    var vidPid := VendorPart(identity.vendorId) + "&" + ProductPart(identity.productId);
    assert vidPid + "&mi_03" == vidPid + "&" + "mi_03" && vidPid + "&mi_04" == vidPid + "&" + "mi_04";
    assert vidPid + "&mi_05" == vidPid + "&" + "mi_05" && vidPid + "&mi_06" == vidPid + "&" + "mi_06";
    VidPidIn(identity, n, before, after, 3);
    VidPidIn(identity, n, before, after, 4);
    VidPidIn(identity, n, before, after, 5);
    VidPidIn(identity, n, before, after, 6);
  }

  // ------------------------------------------------------------- main result

  lemma {:induction false} FirstWithNumber(identity: IdentityPayload, descriptors: seq<Descriptor>, n: u8, before: string, after: string)
    requires Unmarked(before) && Unmarked(after)
    ensures var found := FirstMatch(identity, descriptors, NativePath(identity, n, before, after));
            var second := SecondCollection(before, after);
            && (found.None? <==> NoneNamed(descriptors, n, second))
            && (found.Some? ==> exists k: nat :: FirstNamed(descriptors, n, second, k) && descriptors[k].profile == found.value)
  {
    hide Matches, NativePath, Unmarked, SecondCollection, Named;
    var second := SecondCollection(before, after);
    if descriptors != [] {
      NativeMatches(identity, n, before, after, descriptors[0]);
      if Named(descriptors[0], n, second) {
        assert FirstNamed(descriptors, n, second, 0);
      } else {
        var rest := descriptors[1..];
        FirstWithNumber(identity, rest, n, before, after);
        assert forall k :: 0 < k < |descriptors| ==> descriptors[k] == rest[k - 1];
        var found := FirstMatch(identity, rest, NativePath(identity, n, before, after));
        if k: nat :| FirstNamed(rest, n, second, k) && Some(rest[k].profile) == found {
          assert FirstNamed(descriptors, n, second, k + 1) && descriptors[k + 1] == rest[k];
        }
      }
    }
  }

  predicate NoneNamed(descriptors: seq<Descriptor>, n: u8, second: bool) {
    forall k :: 0 <= k < |descriptors| ==> !Named(descriptors[k], n, second)
  }

  predicate FirstNamed(descriptors: seq<Descriptor>, n: u8, second: bool, k: nat) {
    k < |descriptors| && Named(descriptors[k], n, second) && forall j :: 0 <= j < k ==> !Named(descriptors[j], n, second)
  }

  lemma NativeIsLower(identity: IdentityPayload, n: u8, before: string, after: string)
    requires AllLower(before) && AllLower(after)
    ensures ToLowerCase(NativePath(identity, n, before, after)) == NativePath(identity, n, before, after)
  {
    hide AllLower, Hex;
    HexIsLower(identity.vendorId, 4);
    HexIsLower(identity.productId, 4);
    HexIsLower(n, 2);
    LiteralsAreLower();
    LowerAppend("vid_", Hex(identity.vendorId, 4));
    LowerAppend("pid_", Hex(identity.productId, 4));
    LowerAppend("mi_", Hex(n, 2));
    LowerAround(ProductPart(identity.productId), ['&'], InterfacePart(n));
    LowerAround(VendorPart(identity.vendorId), ['&'], ProductPart(identity.productId) + ['&'] + InterfacePart(n));
    LowerAround(NativePart(identity, n), ['#'], after);
    LowerAround(before, ['#'], NativePart(identity, n) + ['#'] + after);
    LowerIs(NativePath(identity, n, before, after));
  }

  lemma LowerIs(s: string)
    requires AllLower(s)
    ensures ToLowerCase(s) == s
  {
    forall i | 0 <= i < |s| ensures ToLower(s[i]) == s[i] {
      assert s[i] in s;
    }
  }

  /** A native path that names vendor, product and interface number in the usual form is
      classified as the first profile with that number, the dongle's counting as such on
      its collection; if the catalog has none, as the one that usually has it, if the
      catalog has that: 3, 4 and 5 the wireless ones, 6 and the second collection the
      dongle and any other the main one. */
  lemma {:induction false} NativePathClassified(catalog: Catalog, n: u8, before: string, after: string)
    requires Unmarked(before) && Unmarked(after)
    ensures var descriptors, second := catalog.Descriptors(), SecondCollection(before, after);
            var profile := ProfileForPath(catalog, NativePath(catalog.identity, n, before, after));
            if NoneNamed(descriptors, n, second) then
              profile == if catalog.Find(UsualProfile(n, second)).Some? then Some(UsualProfile(n, second)) else None
            else profile.Some? && exists k: nat :: FirstNamed(descriptors, n, second, k) && descriptors[k].profile == profile.value
  {
    hide LenientMatch, NativePath, DescriptorsFor, FirstMatch, SecondCollection;
    NativeIsLower(catalog.identity, n, before, after);
    FirstWithNumber(catalog.identity, catalog.Descriptors(), n, before, after);
    NativeGuess(catalog, n, before, after);
  }

  /** A path without the separator is no HID path and not worth classifying. */
  lemma NoSeparatorNotVirtual(path: string)
    requires '#' !in path
    ensures !MayBeVirtual(path)
  {
    hide Contains;
    var lower := ToLowerCase(path);
    assert forall i :: 0 <= i < |path| ==> lower[i] == ToLower(path[i]);
    LacksNeedle(lower, "hid#", 3);
  }
}

/** Device paths of the virtual profiles: how they are built, how a path is classified
    back by substring search, and exactly when the two agree (guest_driver/profile.rs,
    guest_driver/routing.rs). */
module ProfilePaths {
  import opened Wrappers
  import opened Text
  import opened Identity

  // ------------------------------------------------------------- substrings

  predicate OccursAt(s: string, needle: string, i: nat) {
    i + |needle| <= |s| && s[i..i + |needle|] == needle
  }

  predicate Contains(s: string, needle: string) {
    exists i: nat :: i <= |s| && OccursAt(s, needle, i)
  }

  function ToLowerCase(s: string): string {
    seq(|s|, i requires 0 <= i < |s| => ToLower(s[i]))
  }

  /** A needle without the separator lies on one side of it. */
  lemma ContainsAround(a: string, separator: char, b: string, needle: string)
    requires separator !in needle && needle != []
    ensures Contains(a + [separator] + b, needle) <==> Contains(a, needle) || Contains(b, needle)
  {
    var s := a + [separator] + b;
    forall i: nat | i <= |s| && OccursAt(s, needle, i) ensures Contains(a, needle) || Contains(b, needle) {
      OneSide(a, separator, b, needle, i);
    }
    forall i: nat | i <= |a| && OccursAt(a, needle, i) ensures Contains(s, needle) {
      OccursWithin([], a, [separator] + b, needle, i);
      assert [] + a + ([separator] + b) == s;
    }
    forall i: nat | i <= |b| && OccursAt(b, needle, i) ensures Contains(s, needle) {
      OccursWithin(a + [separator], b, [], needle, i);
      assert a + [separator] + b + [] == s;
    }
  }

  lemma OccursWithin(before: string, s: string, after: string, needle: string, i: nat)
    requires OccursAt(s, needle, i)
    ensures Contains(before + s + after, needle)
  {
    var whole, k := before + s + after, |before| + i;
    assert whole[|before|..|before| + |s|] == s;
    assert whole[k..k + |needle|] == whole[|before|..|before| + |s|][i..i + |needle|];
    assert OccursAt(whole, needle, k);
  }

  lemma OneSide(a: string, separator: char, b: string, needle: string, i: nat)
    requires separator !in needle && needle != []
    requires OccursAt(a + [separator] + b, needle, i)
    ensures Contains(a, needle) || Contains(b, needle)
  {
    var s := a + [separator] + b;
    if i + |needle| <= |a| {
      assert a[i..i + |needle|] == s[i..i + |needle|];
      assert OccursAt(a, needle, i);
    } else if i > |a| {
      assert b[i - |a| - 1..i - |a| - 1 + |needle|] == s[i..i + |needle|];
      assert OccursAt(b, needle, i - |a| - 1);
    } else {
      CharacterFound(s, needle, i, |a| - i);
    }
  }

  lemma CharacterFound(s: string, needle: string, i: nat, k: nat)
    requires OccursAt(s, needle, i) && k < |needle|
    ensures s[i + k] in needle
  {
    assert s[i..i + |needle|][k] == s[i + k];
  }

  /** A text that lacks one of the needle's characters lacks the needle. */
  lemma LacksNeedle(s: string, needle: string, k: nat)
    requires k < |needle| && needle[k] !in s
    ensures !Contains(s, needle)
  {
    forall i: nat | i <= |s| ensures !OccursAt(s, needle, i) {
      if i + |needle| <= |s| {
        assert s[i..i + |needle|][k] == s[i + k];
        assert s[i + k] in s;
      }
    }
  }

  lemma SameLength(s: string, needle: string)
    requires |s| == |needle|
    ensures Contains(s, needle) <==> s == needle
  {
    if s == needle {
      assert s[0..|needle|] == s;
      assert OccursAt(s, needle, 0);
    }
    forall i: nat | i <= |s| && OccursAt(s, needle, i) ensures s == needle {
      assert i == 0 && s[0..|s|] == s;
    }
  }

  // ----------------------------------------------------- hexadecimal numbers

  function LowerDigit(n: nat): char
    requires n < 16
  {
    if n < 10 then (48 + n) as char else (87 + n) as char
  }

  /** `width` lower-case digits. */
  function Hex(n: nat, width: nat): (r: string)
    ensures |r| == width
    ensures forall c :: c in r ==> IsLowerHex(c)
    decreases width
  {
    if width == 0 then "" else Hex(n / 16, width - 1) + [LowerDigit(n % 16)]
  }

  predicate IsLowerHex(c: char) {
    '0' <= c <= '9' || 'a' <= c <= 'f'
  }

  function HexLimit(width: nat): nat {
    if width == 0 then 1 else 16 * HexLimit(width - 1)
  }

  lemma {:induction false} HexInjective(a: nat, b: nat, width: nat)
    requires a < HexLimit(width) && b < HexLimit(width)
    ensures Hex(a, width) == Hex(b, width) <==> a == b
    decreases width
  {
    if width > 0 {
      HexInjective(a / 16, b / 16, width - 1);
      var x, y := Hex(a, width), Hex(b, width);
      assert x[..width - 1] == Hex(a / 16, width - 1) && y[..width - 1] == Hex(b / 16, width - 1);
      assert x[width - 1] == LowerDigit(a % 16) && y[width - 1] == LowerDigit(b % 16);
    }
  }

  // ------------------------------------------------------------------- paths

  function PathPrefix(): string {
    "\\\\?\\hid"
  }

  function InterfaceGuid(): string {
    "{4d1e55b2-f16f-11cf-88cb-001111000030}"
  }

  function VendorPart(vendorId: u16): string { "vid_" + Hex(vendorId, 4) }

  function ProductPart(productId: u16): string { "pid_" + Hex(productId, 4) }

  function InterfacePart(interfaceNumber: u8): string { "mi_" + Hex(interfaceNumber, 2) }

  function CollectionPart(profile: Profile): string { "col" + Hex(profile.CollectionNumber(), 2) }

  function UsagePart(descriptor: Descriptor): string {
    "up:" + Hex(descriptor.usagePage, 4) + "_u:" + Hex(descriptor.usage, 4)
  }

  function PathInstance(identity: IdentityPayload, descriptor: Descriptor): string {
    InterfacePart(descriptor.interfaceNumber) + ['&'] + (CollectionPart(descriptor.profile)
    + ['#'] + (ToLowerCase(identity.serial)
    + ['&'] + ("0" + ['&'] + Hex(descriptor.profile.InstanceSuffix(), 4))))
  }

  /** The path of a descriptor's device. */
  function PathOf(identity: IdentityPayload, descriptor: Descriptor): string {
    PathPrefix() + ['#'] + (VendorPart(identity.vendorId)
    + ['&'] + (ProductPart(identity.productId)
    + ['&'] + (PathInstance(identity, descriptor)
    + ['#'] + InterfaceGuid())))
  }

  function DevicePath(catalog: Catalog, profile: Profile): Option<string> {
    match catalog.Find(profile)
    case None => None
    case Some(descriptor) => Some(PathOf(catalog.identity, descriptor))
  }

  // ---------------------------------------------------------- classification

  /** Whether a lower-case path names the descriptor's device. */
  predicate Matches(identity: IdentityPayload, descriptor: Descriptor, path: string) {
    && Contains(path, VendorPart(identity.vendorId)) && Contains(path, ProductPart(identity.productId))
    && (|| Contains(path, InterfacePart(descriptor.interfaceNumber))
        || (Contains(path, CollectionPart(descriptor.profile)) && descriptor.profile.VendorDongle?)
        || Contains(path, UsagePart(descriptor)))
  }

  function FirstMatch(identity: IdentityPayload, descriptors: seq<Descriptor>, path: string): Option<Profile> {
    if descriptors == [] then None
    else if Matches(identity, descriptors[0], path) then Some(descriptors[0].profile)
    else FirstMatch(identity, descriptors[1..], path)
  }

  /** The guess for paths that name the vendor and product in the usual form. */
  function LenientMatch(catalog: Catalog, path: string): Option<Profile> {
    var vidPid := VendorPart(catalog.identity.vendorId) + "&" + ProductPart(catalog.identity.productId);
    if !Contains(path, vidPid) then None
    else
      var profile :=
        if Contains(path, vidPid + "&mi_06") || Contains(path, "col02") then VendorDongle
        else if Contains(path, vidPid + "&mi_03") then Interface3
        else if Contains(path, vidPid + "&mi_04") then Interface4
        else if Contains(path, vidPid + "&mi_05") then Interface5
        else Main;
      if catalog.Find(profile).Some? then Some(profile) else None
  }

  function ProfileForPath(catalog: Catalog, path: string): Option<Profile> {
    var lower := ToLowerCase(path);
    var exact := FirstMatch(catalog.identity, catalog.Descriptors(), lower);
    if exact.Some? then exact else LenientMatch(catalog, lower)
  }

  const CROSSPUCK_VENDOR_ID: u16 := 0x28DE
  const KNOWN_PRODUCT_IDS: seq<u16> := [0x1302, 0x1303, 0x1304]

  /** The prefilter: whether a path is worth classifying. */
  predicate MayBeVirtual(path: string) {
    var lower := ToLowerCase(path);
    && Contains(lower, "hid#") && Contains(lower, "vid_28de")
    && exists i :: 0 <= i < |KNOWN_PRODUCT_IDS| && Contains(lower, ProductPart(KNOWN_PRODUCT_IDS[i]))
  }
}

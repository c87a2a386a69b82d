/** In which parts of a generated device path a marker can occur. */
module ProfilePathParts {
  import opened Text
  import opened Identity
  import opened ProfilePaths

  /** A needle without separators occurs in one of the path's parts. */
  lemma PathContains(identity: IdentityPayload, descriptor: Descriptor, needle: string)
    requires needle != [] && '#' !in needle && '&' !in needle
    ensures Contains(PathOf(identity, descriptor), needle) <==>
              || Contains(PathPrefix(), needle) || Contains(VendorPart(identity.vendorId), needle)
              || Contains(ProductPart(identity.productId), needle)
              || Contains(InterfacePart(descriptor.interfaceNumber), needle)
              || Contains(CollectionPart(descriptor.profile), needle)
              || Contains(ToLowerCase(identity.serial), needle) || Contains("0", needle)
              || Contains(Hex(descriptor.profile.InstanceSuffix(), 4), needle) || Contains(InterfaceGuid(), needle)
  {
    hide Contains, Hex, VendorPart, ProductPart, InterfacePart, CollectionPart, ToLowerCase, InterfaceGuid;
    var suffix := Hex(descriptor.profile.InstanceSuffix(), 4);
    var serial := ToLowerCase(identity.serial);
    var col, mi := CollectionPart(descriptor.profile), InterfacePart(descriptor.interfaceNumber);
    ContainsAround("0", '&', suffix, needle);
    ContainsAround(serial, '&', "0" + ['&'] + suffix, needle);
    ContainsAround(col, '#', serial + ['&'] + ("0" + ['&'] + suffix), needle);
    ContainsAround(mi, '&', col + ['#'] + (serial + ['&'] + ("0" + ['&'] + suffix)), needle);
    var instance := PathInstance(identity, descriptor);
    ContainsAround(instance, '#', InterfaceGuid(), needle);
    var product, vendor := ProductPart(identity.productId), VendorPart(identity.vendorId);
    ContainsAround(product, '&', instance + ['#'] + InterfaceGuid(), needle);
    ContainsAround(vendor, '&', product + ['&'] + (instance + ['#'] + InterfaceGuid()), needle);
    ContainsAround(PathPrefix(), '#', vendor + ['&'] + (product + ['&'] + (instance + ['#'] + InterfaceGuid())), needle);
  }

  /** A character that is no hexadecimal digit is only found in a part's fixed text. */
  lemma FixedText(prefix: string, n: nat, width: nat, needle: string, k: nat)
    requires k < |needle| && !IsLowerHex(needle[k]) && needle[k] !in prefix
    ensures !Contains(prefix + Hex(n, width), needle)
  {
    LacksNeedle(prefix + Hex(n, width), needle, k);
  }

  lemma GuidLacks(needle: string, k: nat)
    requires k < |needle| && 'g' <= needle[k] <= 'z'
    ensures !Contains(InterfaceGuid(), needle)
  {
    hide InterfaceGuid;
    GuidChars();
    LacksNeedle(InterfaceGuid(), needle, k);
  }

  lemma GuidChars()
    ensures forall c :: c in InterfaceGuid() ==> IsLowerHex(c) || c == '{' || c == '}' || c == '-'
  {
    var guid := InterfaceGuid();
    assert forall i :: 0 <= i < |guid| ==> IsLowerHex(guid[i]) || guid[i] == '{' || guid[i] == '}' || guid[i] == '-';
  }

  /** The parts in which a needle with the letter at `k` cannot occur. */
  lemma LackingParts(identity: IdentityPayload, descriptor: Descriptor, needle: string, k: nat)
    requires k < |needle| && 'g' <= needle[k] <= 'z'
    ensures !Contains(Hex(descriptor.profile.InstanceSuffix(), 4), needle) && !Contains("0", needle)
    ensures !Contains(InterfaceGuid(), needle)
    ensures needle[k] !in "hid" ==> !Contains(PathPrefix(), needle)
    ensures needle[k] !in "vid_" ==> !Contains(VendorPart(identity.vendorId), needle)
    ensures needle[k] !in "pid_" ==> !Contains(ProductPart(identity.productId), needle)
    ensures needle[k] !in "mi_" ==> !Contains(InterfacePart(descriptor.interfaceNumber), needle)
    ensures needle[k] !in "col" ==> !Contains(CollectionPart(descriptor.profile), needle)
  {
    hide Contains, Hex, InterfaceGuid;
    GuidLacks(needle, k);
    var suffix := Hex(descriptor.profile.InstanceSuffix(), 4);
    assert "" + suffix == suffix;
    FixedText("", descriptor.profile.InstanceSuffix(), 4, needle, k);
    LacksNeedle("0", needle, k);
    if needle[k] !in "hid" {
      LacksNeedle(PathPrefix(), needle, k);
    }
    if needle[k] !in "vid_" {
      FixedText("vid_", identity.vendorId, 4, needle, k);
    }
    if needle[k] !in "pid_" {
      FixedText("pid_", identity.productId, 4, needle, k);
    }
    if needle[k] !in "mi_" {
      FixedText("mi_", descriptor.interfaceNumber, 2, needle, k);
    }
    if needle[k] !in "col" {
      FixedText("col", descriptor.profile.CollectionNumber(), 2, needle, k);
    }
  }

  lemma NoSeparators(prefix: string, n: nat, width: nat)
    requires '#' !in prefix && '&' !in prefix
    ensures '#' !in prefix + Hex(n, width) && '&' !in prefix + Hex(n, width)
  {}

  lemma SamePart(prefix: string, a: nat, b: nat, width: nat)
    requires a < HexLimit(width) && b < HexLimit(width)
    ensures Contains(prefix + Hex(a, width), prefix + Hex(b, width)) <==> a == b
  {
    hide Contains, Hex;
    SameLength(prefix + Hex(a, width), prefix + Hex(b, width));
    HexInjective(a, b, width);
    if prefix + Hex(a, width) == prefix + Hex(b, width) {
      assert (prefix + Hex(a, width))[|prefix|..] == Hex(a, width);
      assert (prefix + Hex(b, width))[|prefix|..] == Hex(b, width);
    }
  }

  lemma Limits()
    ensures HexLimit(2) == 0x100 && HexLimit(4) == 0x1_0000
  {
    assert HexLimit(3) == 16 * HexLimit(2) && HexLimit(4) == 16 * HexLimit(3);
  }

  lemma InterfaceInPath(identity: IdentityPayload, descriptor: Descriptor, n: u8)
    ensures Contains(PathOf(identity, descriptor), InterfacePart(n)) <==>
              n == descriptor.interfaceNumber || Contains(ToLowerCase(identity.serial), InterfacePart(n))
  {
    hide Contains, Hex, PathOf, VendorPart, ProductPart, CollectionPart, ToLowerCase, InterfaceGuid, HexLimit;
    NoSeparators("mi_", n, 2);
    PathContains(identity, descriptor, InterfacePart(n));
    LackingParts(identity, descriptor, InterfacePart(n), 0);
    Limits();
    SamePart("mi_", descriptor.interfaceNumber, n, 2);
  }

  lemma VendorInPath(identity: IdentityPayload, descriptor: Descriptor, vendorId: u16)
    ensures Contains(PathOf(identity, descriptor), VendorPart(vendorId)) <==>
              vendorId == identity.vendorId || Contains(ToLowerCase(identity.serial), VendorPart(vendorId))
  {
    hide Contains, Hex, PathOf, InterfacePart, ProductPart, CollectionPart, ToLowerCase, InterfaceGuid, HexLimit;
    NoSeparators("vid_", vendorId, 4);
    PathContains(identity, descriptor, VendorPart(vendorId));
    LackingParts(identity, descriptor, VendorPart(vendorId), 0);
    Limits();
    SamePart("vid_", identity.vendorId, vendorId, 4);
  }

  lemma ProductInPath(identity: IdentityPayload, descriptor: Descriptor, productId: u16)
    ensures Contains(PathOf(identity, descriptor), ProductPart(productId)) <==>
              productId == identity.productId || Contains(ToLowerCase(identity.serial), ProductPart(productId))
  {
    hide Contains, Hex, PathOf, InterfacePart, VendorPart, CollectionPart, ToLowerCase, InterfaceGuid, HexLimit;
    NoSeparators("pid_", productId, 4);
    PathContains(identity, descriptor, ProductPart(productId));
    LackingParts(identity, descriptor, ProductPart(productId), 0);
    Limits();
    SamePart("pid_", identity.productId, productId, 4);
  }

  lemma UsageText(descriptor: Descriptor)
    ensures '#' !in UsagePart(descriptor) && '&' !in UsagePart(descriptor)
    ensures UsagePart(descriptor) != [] && UsagePart(descriptor)[0] == 'u'
  {}

  lemma UsageInPath(identity: IdentityPayload, descriptor: Descriptor, other: Descriptor)
    ensures Contains(PathOf(identity, descriptor), UsagePart(other)) <==> Contains(ToLowerCase(identity.serial), UsagePart(other))
  {
    hide Contains, Hex, PathOf, InterfacePart, VendorPart, ProductPart, CollectionPart, ToLowerCase, InterfaceGuid, UsagePart;
    UsageText(other);
    PathContains(identity, descriptor, UsagePart(other));
    LackingParts(identity, descriptor, UsagePart(other), 0);
  }
}

/** When a generated path is classified back as its profile, and when it passes the
    prefilter. */
module ProfilePathResults {
  import opened Wrappers
  import opened Text
  import opened Identity
  import opened ProfilePaths
  import opened ProfilePathParts

  /** The path is all lower case. */
  lemma PathIsLower(identity: IdentityPayload, descriptor: Descriptor)
    ensures ToLowerCase(PathOf(identity, descriptor)) == PathOf(identity, descriptor)
  {
    hide Hex;
    var path := PathOf(identity, descriptor);
    LowerParts(identity, descriptor);
    forall i | 0 <= i < |path| ensures ToLower(path[i]) == path[i] {
      assert path[i] in path;
    }
  }

  predicate IsLower(c: char) {
    ToLower(c) == c
  }

  predicate AllLower(s: string) {
    forall c :: c in s ==> IsLower(c)
  }

  lemma LowerAppend(a: string, b: string)
    requires AllLower(a) && AllLower(b)
    ensures AllLower(a + b)
  {}

  lemma HexIsLower(n: nat, width: nat)
    ensures AllLower(Hex(n, width))
  {}

  lemma LowerSerial(s: string)
    ensures AllLower(ToLowerCase(s))
  {}

  lemma GuidIsLower()
    ensures AllLower(InterfaceGuid())
  {
    hide InterfaceGuid;
    GuidChars();
  }

  lemma LowerParts(identity: IdentityPayload, descriptor: Descriptor)
    ensures AllLower(PathOf(identity, descriptor))
  {
    hide AllLower, Hex, ToLowerCase, InterfaceGuid;
    HexIsLower(identity.vendorId, 4);
    HexIsLower(identity.productId, 4);
    HexIsLower(descriptor.interfaceNumber, 2);
    HexIsLower(descriptor.profile.CollectionNumber(), 2);
    HexIsLower(descriptor.profile.InstanceSuffix(), 4);
    LowerSerial(identity.serial);
    GuidIsLower();
    LiteralsAreLower();
    LowerAppend("vid_", Hex(identity.vendorId, 4));
    LowerAppend("pid_", Hex(identity.productId, 4));
    LowerAppend("mi_", Hex(descriptor.interfaceNumber, 2));
    LowerAppend("col", Hex(descriptor.profile.CollectionNumber(), 2));
    var suffix := Hex(descriptor.profile.InstanceSuffix(), 4);
    var serial := ToLowerCase(identity.serial);
    var col, mi := CollectionPart(descriptor.profile), InterfacePart(descriptor.interfaceNumber);
    LowerAround("0", ['&'], suffix);
    LowerAround(serial, ['&'], "0" + ['&'] + suffix);
    LowerAround(col, ['#'], serial + ['&'] + ("0" + ['&'] + suffix));
    LowerAround(mi, ['&'], col + ['#'] + (serial + ['&'] + ("0" + ['&'] + suffix)));
    var instance := PathInstance(identity, descriptor);
    LowerAround(instance, ['#'], InterfaceGuid());
    var product, vendor := ProductPart(identity.productId), VendorPart(identity.vendorId);
    LowerAround(product, ['&'], instance + ['#'] + InterfaceGuid());
    LowerAround(vendor, ['&'], product + ['&'] + (instance + ['#'] + InterfaceGuid()));
    LowerAround(PathPrefix(), ['#'], vendor + ['&'] + (product + ['&'] + (instance + ['#'] + InterfaceGuid())));
  }

  lemma LowerAround(a: string, separator: string, b: string)
    requires AllLower(a) && AllLower(separator) && AllLower(b)
    ensures AllLower(a + separator + b)
  {
    LowerAppend(a, separator);
    LowerAppend(a + separator, b);
  }

  lemma LiteralsAreLower()
    ensures AllLower("vid_") && AllLower("pid_") && AllLower("mi_") && AllLower("col") && AllLower("0")
    ensures AllLower(['&']) && AllLower(['#']) && AllLower(PathPrefix())
  {}

  /** An earlier descriptor that takes the path of a later one: it has the same
      interface number, or the serial number contains one of its markers. */
  predicate Shadows(earlier: Descriptor, later: Descriptor, serial: string) {
    || earlier.interfaceNumber == later.interfaceNumber
    || Contains(ToLowerCase(serial), InterfacePart(earlier.interfaceNumber))
    || Contains(ToLowerCase(serial), UsagePart(earlier))
  }

  lemma {:induction false} MatchesIff(identity: IdentityPayload, other: Descriptor, descriptor: Descriptor)
    requires other == descriptor || !other.profile.VendorDongle?
    ensures Matches(identity, other, PathOf(identity, descriptor)) <==> other == descriptor || Shadows(other, descriptor, identity.serial)
  {
    hide Contains, PathOf, InterfacePart, VendorPart, ProductPart, CollectionPart, ToLowerCase, UsagePart;
    VendorInPath(identity, descriptor, identity.vendorId);
    ProductInPath(identity, descriptor, identity.productId);
    InterfaceInPath(identity, descriptor, other.interfaceNumber);
    UsageInPath(identity, descriptor, other);
  }

  /** Descriptors follow the order of the profiles: the dongle's is the last. */
  predicate InProfileOrder(descriptors: seq<Descriptor>) {
    && (forall i, j :: 0 <= i < j < |descriptors| ==> descriptors[i].profile != descriptors[j].profile)
    && (forall i :: 0 <= i < |descriptors| - 1 ==> !descriptors[i].profile.VendorDongle?)
  }

  lemma {:induction false} DescriptorsInOrder(identity: IdentityPayload, allowFallback: bool, profiles: seq<Profile>)
    requires forall i, j :: 0 <= i < j < |profiles| ==> profiles[i] != profiles[j]
    requires forall i :: 0 <= i < |profiles| - 1 ==> !profiles[i].VendorDongle?
    ensures InProfileOrder(DescriptorsFor(identity, allowFallback, profiles))
  {
    hide CollectionFor;
    if profiles != [] {
      var others := profiles[1..];
      assert forall i :: 0 <= i < |others| ==> others[i] == profiles[i + 1];
      DescriptorsInOrder(identity, allowFallback, others);
      var c := CollectionFor(identity, allowFallback, profiles[0]);
      if c.Some? {
        var first := Descriptor(profiles[0], c.value.interfaceNumber, c.value.usagePage, c.value.usage);
        FirstInOrder(profiles, first, DescriptorsFor(identity, allowFallback, others));
      }
    }
  }

  /** A first descriptor in front of those of the other profiles. */
  lemma FirstInOrder(profiles: seq<Profile>, first: Descriptor, rest: seq<Descriptor>)
    requires profiles != [] && first.profile == profiles[0]
    requires InProfileOrder(rest) && (forall d :: d in rest ==> d.profile in profiles[1..])
    requires forall i, j :: 0 <= i < j < |profiles| ==> profiles[i] != profiles[j]
    requires forall i :: 0 <= i < |profiles| - 1 ==> !profiles[i].VendorDongle?
    ensures InProfileOrder([first] + rest)
  {
    assert forall i :: 0 <= i < |profiles[1..]| ==> profiles[1..][i] == profiles[i + 1];
    assert forall i :: 0 <= i < |rest| ==> rest[i] in rest;
    if rest != [] {
      assert rest[0].profile in profiles[1..];
    }
  }

  lemma CatalogInOrder(catalog: Catalog)
    ensures InProfileOrder(catalog.Descriptors())
  {
    DescriptorsInOrder(catalog.identity, catalog.allowFallback, ALL_PROFILES);
  }

  lemma {:induction false} FindAt(descriptors: seq<Descriptor>, k: nat)
    requires k < |descriptors| && InProfileOrder(descriptors)
    ensures FindDescriptor(descriptors, descriptors[k].profile) == Some(descriptors[k])
  {
    if k > 0 {
      assert InProfileOrder(descriptors[1..]);
      FindAt(descriptors[1..], k - 1);
    }
  }

  lemma {:induction false} FirstMatchIff(identity: IdentityPayload, descriptors: seq<Descriptor>, k: nat, path: string)
    requires k < |descriptors| && InProfileOrder(descriptors) && Matches(identity, descriptors[k], path)
    ensures FirstMatch(identity, descriptors, path).Some?
    ensures FirstMatch(identity, descriptors, path) == Some(descriptors[k].profile)
       <==> forall j :: 0 <= j < k ==> !Matches(identity, descriptors[j], path)
  {
    hide Matches;
    if k > 0 {
      assert InProfileOrder(descriptors[1..]);
      FirstMatchIff(identity, descriptors[1..], k - 1, path);
      assert forall j :: 0 <= j < k - 1 ==> descriptors[1..][j] == descriptors[j + 1];
      assert forall j :: 0 < j < k ==> descriptors[j] == descriptors[1..][j - 1];
    }
  }

  /** A profile's own path is classified as that profile exactly if no earlier profile of
      the catalog shadows it. */
  lemma {:induction false} RoundTripIff(catalog: Catalog, k: nat)
    requires k < |catalog.Descriptors()|
    ensures var descriptors := catalog.Descriptors();
            var profile := descriptors[k].profile;
            && DevicePath(catalog, profile).Some?
            && ProfileForPath(catalog, DevicePath(catalog, profile).value).Some?
            && (ProfileForPath(catalog, DevicePath(catalog, profile).value) == Some(profile)
                <==> forall j :: 0 <= j < k ==> !Shadows(descriptors[j], descriptors[k], catalog.identity.serial))
  {
    hide Matches, Shadows, PathOf, ToLowerCase, DescriptorsFor, LenientMatch;
    var descriptors := catalog.Descriptors();
    var descriptor := descriptors[k];
    CatalogInOrder(catalog);
    FindAt(descriptors, k);
    var path := PathOf(catalog.identity, descriptor);
    PathIsLower(catalog.identity, descriptor);
    MatchesIff(catalog.identity, descriptor, descriptor);
    forall j | 0 <= j < k
      ensures Matches(catalog.identity, descriptors[j], path) == Shadows(descriptors[j], descriptor, catalog.identity.serial)
    {
      assert descriptors[j] != descriptor && !descriptors[j].profile.VendorDongle?;
      MatchesIff(catalog.identity, descriptors[j], descriptor);
    }
    FirstMatchIff(catalog.identity, descriptors, k, path);
  }

  /** A serial number without the markers that the classification looks for. */
  predicate IsPlainSerial(serial: string) {
    !Contains(ToLowerCase(serial), "mi_") && !Contains(ToLowerCase(serial), "up:")
  }

  predicate DistinctInterfaces(descriptors: seq<Descriptor>) {
    forall i, j :: 0 <= i < j < |descriptors| ==> descriptors[i].interfaceNumber != descriptors[j].interfaceNumber
  }

  /** Every profile of the catalog gets its own path back. */
  predicate RoundTrips(catalog: Catalog) {
    forall k :: 0 <= k < |catalog.Descriptors()| ==>
      var profile := catalog.Descriptors()[k].profile;
      var path := DevicePath(catalog, profile);
      path.Some? && ProfileForPath(catalog, path.value) == Some(profile)
  }

  lemma PrefixFound(s: string, prefix: string, rest: string)
    requires Contains(s, prefix + rest)
    ensures Contains(s, prefix)
  {
    var i: nat :| i <= |s| && OccursAt(s, prefix + rest, i);
    assert s[i..i + |prefix|] == (prefix + rest)[..|prefix|];
    assert OccursAt(s, prefix, i);
  }

  lemma PlainShadows(earlier: Descriptor, later: Descriptor, serial: string)
    requires IsPlainSerial(serial)
    ensures Shadows(earlier, later, serial) <==> earlier.interfaceNumber == later.interfaceNumber
  {
    hide Contains, ToLowerCase, Hex;
    var lower := ToLowerCase(serial);
    if Contains(lower, InterfacePart(earlier.interfaceNumber)) {
      PrefixFound(lower, "mi_", Hex(earlier.interfaceNumber, 2));
    }
    if Contains(lower, UsagePart(earlier)) {
      var rest := Hex(earlier.usagePage, 4) + ("_u:" + Hex(earlier.usage, 4));
      assert UsagePart(earlier) == "up:" + rest;
      PrefixFound(lower, "up:", rest);
    }
  }

  /** With a plain serial number all paths are classified back exactly if the interface
      numbers are distinct. */
  lemma {:induction false} RoundTripsIffDistinct(catalog: Catalog)
    requires IsPlainSerial(catalog.identity.serial)
    ensures RoundTrips(catalog) <==> DistinctInterfaces(catalog.Descriptors())
  {
    hide Shadows, ProfileForPath, DevicePath, IsPlainSerial, DescriptorsFor;
    var descriptors := catalog.Descriptors();
    forall k | 0 <= k < |descriptors|
      ensures var path := DevicePath(catalog, descriptors[k].profile);
              path.Some? && (ProfileForPath(catalog, path.value) == Some(descriptors[k].profile)
                <==> forall j :: 0 <= j < k ==> descriptors[j].interfaceNumber != descriptors[k].interfaceNumber)
    {
      RoundTripIff(catalog, k);
      forall j | 0 <= j < k
        ensures Shadows(descriptors[j], descriptors[k], catalog.identity.serial)
             == (descriptors[j].interfaceNumber == descriptors[k].interfaceNumber)
      {
        PlainShadows(descriptors[j], descriptors[k], catalog.identity.serial);
      }
    }
  }

  // ------------------------------------------------------------- the prefilter

  lemma VendorText()
    ensures VendorPart(CROSSPUCK_VENDOR_ID) == "vid_28de"
  {
    assert Hex(0x2, 1) == "2";
    assert Hex(0x28, 2) == "28";
    assert Hex(0x28D, 3) == "28d";
    assert Hex(0x28DE, 4) == "28de";
  }

  lemma KnownProductTexts()
    ensures ProductPart(0x1302) == "pid_1302" && ProductPart(0x1303) == "pid_1303" && ProductPart(0x1304) == "pid_1304"
  {
    assert Hex(0x1, 1) == "1" && Hex(0x13, 2) == "13" && Hex(0x130, 3) == "130";
    assert Hex(0x1302, 4) == "1302" && Hex(0x1303, 4) == "1303" && Hex(0x1304, 4) == "1304";
  }

  lemma HidInPath(identity: IdentityPayload, descriptor: Descriptor)
    ensures Contains(PathOf(identity, descriptor), "hid#")
  {
    hide Hex;
    var rest := VendorPart(identity.vendorId)
      + ['&'] + (ProductPart(identity.productId) + ['&'] + (PathInstance(identity, descriptor) + ['#'] + InterfaceGuid()));
    HidAtStart(rest);
  }

  lemma HidAtStart(rest: string)
    ensures Contains(PathPrefix() + ['#'] + rest, "hid#")
  {
    var path := PathPrefix() + ['#'] + rest;
    assert path[4..8] == "hid#";
    assert OccursAt(path, "hid#", 4);
  }

  /** A generated path passes the prefilter exactly if its vendor and product are known
      ones, or the serial number happens to spell such a marker. */
  lemma {:induction false} PrefilterIff(identity: IdentityPayload, descriptor: Descriptor)
    ensures MayBeVirtual(PathOf(identity, descriptor)) <==>
              && (identity.vendorId == 0x28DE || Contains(ToLowerCase(identity.serial), "vid_28de"))
              && (|| identity.productId == 0x1302 || Contains(ToLowerCase(identity.serial), "pid_1302")
                  || identity.productId == 0x1303 || Contains(ToLowerCase(identity.serial), "pid_1303")
                  || identity.productId == 0x1304 || Contains(ToLowerCase(identity.serial), "pid_1304"))
  {
    hide Contains, PathOf, VendorPart, ProductPart, ToLowerCase;
    KnownProductTexts();
    PathIsLower(identity, descriptor);
    HidInPath(identity, descriptor);
    VendorText();
    VendorInPath(identity, descriptor, CROSSPUCK_VENDOR_ID);
    forall i | 0 <= i < |KNOWN_PRODUCT_IDS|
      ensures Contains(PathOf(identity, descriptor), ProductPart(KNOWN_PRODUCT_IDS[i]))
           == (identity.productId == KNOWN_PRODUCT_IDS[i]
               || Contains(ToLowerCase(identity.serial), ProductPart(KNOWN_PRODUCT_IDS[i])))
    {
      ProductInPath(identity, descriptor, KNOWN_PRODUCT_IDS[i]);
    }
    assert KNOWN_PRODUCT_IDS[0] == 0x1302 && KNOWN_PRODUCT_IDS[1] == 0x1303 && KNOWN_PRODUCT_IDS[2] == 0x1304;
  }
}

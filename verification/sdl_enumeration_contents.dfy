/** What the augmented device list holds, and when augmenting it again changes nothing. */
module SdlEnumerationContents {
  import opened Wrappers
  import opened Text
  import opened Identity
  import opened ProfilePaths
  import opened ProfilePathParts
  import opened ProfilePathResults
  import opened SdlEnumeration

  // ------------------------------------------------------- paths as C strings

  lemma ContainsChar(s: string, c: char)
    ensures Contains(s, [c]) <==> c in s
  {
    forall i: nat | i < |s| && s[i] == c ensures Contains(s, [c]) {
      assert s[i..i + 1] == [c];
      assert OccursAt(s, [c], i);
    }
    forall i: nat | i <= |s| && OccursAt(s, [c], i) ensures c in s {
      assert s[i..i + 1][0] == s[i];
    }
  }

  lemma LowerKeepsNul(s: string)
    ensures '\0' in ToLowerCase(s) <==> '\0' in s
  {
    var lower := ToLowerCase(s);
    forall i | 0 <= i < |s| ensures lower[i] == '\0' <==> s[i] == '\0' {}
  }

  lemma FixedPartsHaveNoNul(identity: IdentityPayload, descriptor: Descriptor)
    ensures '\0' !in PathPrefix() && '\0' !in "0" && '\0' !in InterfaceGuid()
    ensures '\0' !in VendorPart(identity.vendorId) && '\0' !in ProductPart(identity.productId)
    ensures '\0' !in InterfacePart(descriptor.interfaceNumber) && '\0' !in CollectionPart(descriptor.profile)
    ensures '\0' !in Hex(descriptor.profile.InstanceSuffix(), 4)
  {
    hide InterfaceGuid;
    GuidChars();
  }

  /** A path has a NUL exactly if the serial number has. */
  lemma NulInPath(identity: IdentityPayload, descriptor: Descriptor)
    ensures '\0' in PathOf(identity, descriptor) <==> '\0' in identity.serial
  {
    hide Contains, Hex, PathOf, InterfacePart, VendorPart, ProductPart, CollectionPart, ToLowerCase, InterfaceGuid;
    PathContains(identity, descriptor, ['\0']);
    FixedPartsHaveNoNul(identity, descriptor);
    ContainsChar(PathOf(identity, descriptor), '\0');
    ContainsChar(PathPrefix(), '\0');
    ContainsChar(VendorPart(identity.vendorId), '\0');
    ContainsChar(ProductPart(identity.productId), '\0');
    ContainsChar(InterfacePart(descriptor.interfaceNumber), '\0');
    ContainsChar(CollectionPart(descriptor.profile), '\0');
    ContainsChar(ToLowerCase(identity.serial), '\0');
    ContainsChar("0", '\0');
    ContainsChar(Hex(descriptor.profile.InstanceSuffix(), 4), '\0');
    ContainsChar(InterfaceGuid(), '\0');
    LowerKeepsNul(identity.serial);
  }

  /** The virtual device of a catalog's profile, with its path. */
  lemma DeviceAt(catalog: Catalog, k: nat)
    requires k < |catalog.Descriptors()|
    ensures var descriptor := catalog.Descriptors()[k];
            var device := VirtualDevice(catalog, descriptor.profile);
            && (device.Some? <==> '\0' !in catalog.identity.serial)
            && (device.Some? ==> device.value.path == DevicePath(catalog, descriptor.profile)
                                 && device.value.path == Some(PathOf(catalog.identity, descriptor)))
  {
    hide PathOf, DescriptorsFor;
    var descriptors := catalog.Descriptors();
    CatalogInOrder(catalog);
    FindAt(descriptors, k);
    NulInPath(catalog.identity, descriptors[k]);
  }

  // ------------------------------------------------------------ what is listed

  /** Natives that stand for no virtual device keep their place and contents; the others
      are replaced in place, and unseen devices follow. */
  lemma {:induction false} NativesKept(catalog: Catalog, infos: seq<DeviceInfo>, i: nat)
    requires i < |infos|
    ensures i < |Augmented(catalog, infos)|
    ensures var replacing := Replacing(catalog, infos[i]);
            Augmented(catalog, infos)[i] == if replacing.None? then infos[i] else VirtualDevice(catalog, replacing.value).value
  {
    hide VirtualDevice, ProfileForPath;
  }

  lemma {:induction false} SeenMembers(catalog: Catalog, infos: seq<DeviceInfo>, profile: Profile)
    ensures profile in Seen(catalog, infos) <==> exists i :: 0 <= i < |infos| && Replacing(catalog, infos[i]) == Some(profile)
  {
    hide Replacing;
    if infos != [] {
      SeenMembers(catalog, infos[1..], profile);
      assert forall i :: 0 <= i < |infos[1..]| ==> infos[1..][i] == infos[i + 1];
      if i :| 0 <= i < |infos| && Replacing(catalog, infos[i]) == Some(profile) {
        assert i > 0 ==> infos[1..][i - 1] == infos[i];
      }
    }
  }

  lemma {:induction false} UnseenMembers(catalog: Catalog, descriptors: seq<Descriptor>, seen: seq<Profile>, k: nat)
    requires k < |descriptors| && descriptors[k].profile !in seen && VirtualDevice(catalog, descriptors[k].profile).Some?
    ensures VirtualDevice(catalog, descriptors[k].profile).value in Unseen(catalog, descriptors, seen)
  {
    hide VirtualDevice;
    if k > 0 {
      UnseenMembers(catalog, descriptors[1..], seen, k - 1);
    }
  }

  lemma {:induction false} UnseenAreVirtual(catalog: Catalog, descriptors: seq<Descriptor>, seen: seq<Profile>, info: DeviceInfo)
    requires info in Unseen(catalog, descriptors, seen)
    ensures exists k :: 0 <= k < |descriptors| && VirtualDevice(catalog, descriptors[k].profile) == Some(info)
  {
    hide VirtualDevice;
    if VirtualDevice(catalog, descriptors[0].profile) != Some(info) {
      UnseenAreVirtual(catalog, descriptors[1..], seen, info);
      var k :| 0 <= k < |descriptors[1..]| && VirtualDevice(catalog, descriptors[1..][k].profile) == Some(info);
      assert descriptors[k + 1] == descriptors[1..][k];
    }
  }

  lemma {:induction false} NoneUnseenIff(catalog: Catalog, descriptors: seq<Descriptor>, seen: seq<Profile>)
    requires forall k :: 0 <= k < |descriptors| ==> VirtualDevice(catalog, descriptors[k].profile).Some?
    ensures Unseen(catalog, descriptors, seen) == [] <==> forall k :: 0 <= k < |descriptors| ==> descriptors[k].profile in seen
  {
    hide VirtualDevice;
    if descriptors != [] {
      assert forall k :: 0 <= k < |descriptors[1..]| ==> descriptors[1..][k] == descriptors[k + 1];
      NoneUnseenIff(catalog, descriptors[1..], seen);
      assert forall k :: 0 < k < |descriptors| ==> descriptors[k] == descriptors[1..][k - 1];
    }
  }

  /** How many descriptors are not seen. */
  function CountUnseen(descriptors: seq<Descriptor>, seen: seq<Profile>): nat {
    if descriptors == [] then 0
    else (if descriptors[0].profile in seen then 0 else 1) + CountUnseen(descriptors[1..], seen)
  }

  lemma {:induction false} UnseenLength(catalog: Catalog, descriptors: seq<Descriptor>, seen: seq<Profile>)
    requires forall k :: 0 <= k < |descriptors| ==> VirtualDevice(catalog, descriptors[k].profile).Some?
    ensures |Unseen(catalog, descriptors, seen)| == CountUnseen(descriptors, seen)
  {
    hide VirtualDevice;
    if descriptors != [] {
      assert forall k :: 0 <= k < |descriptors[1..]| ==> descriptors[1..][k] == descriptors[k + 1];
      UnseenLength(catalog, descriptors[1..], seen);
    }
  }

  /** The catalog's devices can be listed: without a NUL in the serial number. */
  lemma AllListable(catalog: Catalog)
    requires '\0' !in catalog.identity.serial
    ensures forall k :: 0 <= k < |catalog.Descriptors()| ==> VirtualDevice(catalog, catalog.Descriptors()[k].profile).Some?
  {
    hide VirtualDevice, DescriptorsFor;
    forall k | 0 <= k < |catalog.Descriptors()|
      ensures VirtualDevice(catalog, catalog.Descriptors()[k].profile).Some?
    {
      DeviceAt(catalog, k);
    }
  }

  /** With a NUL in the serial number no path is a C string, and there is no device. */
  lemma NoDeviceListable(catalog: Catalog, profile: Profile)
    requires '\0' in catalog.identity.serial
    ensures VirtualDevice(catalog, profile).None?
  {
    hide PathOf, DescriptorsFor;
    var descriptor := catalog.Find(profile);
    if descriptor.Some? {
      NulInPath(catalog.identity, descriptor.value);
    }
  }

  lemma {:induction false} NothingUnseen(catalog: Catalog, descriptors: seq<Descriptor>, seen: seq<Profile>)
    requires '\0' in catalog.identity.serial
    ensures Unseen(catalog, descriptors, seen) == []
  {
    hide VirtualDevice;
    if descriptors != [] {
      NoDeviceListable(catalog, descriptors[0].profile);
      NothingUnseen(catalog, descriptors[1..], seen);
    }
  }

  lemma NothingAdded(catalog: Catalog, infos: seq<DeviceInfo>)
    requires '\0' in catalog.identity.serial
    ensures Augmented(catalog, infos) == infos
  {
    hide VirtualDevice, DescriptorsFor, Unseen, Seen, ProfileOf;
    forall i | 0 <= i < |infos| ensures Replaced(catalog, infos[i]) == infos[i] {
      var profile := ProfileOf(catalog, infos[i]);
      if profile.Some? {
        NoDeviceListable(catalog, profile.value);
      }
    }
    NothingUnseen(catalog, catalog.Descriptors(), Seen(catalog, infos));
    SameWhenNothingUnseen(catalog, infos);
  }

  /** The list's length: the natives, and one node for every profile not seen, unless a
      NUL in the serial number keeps all virtual devices out. */
  lemma {:induction false} AugmentedLength(catalog: Catalog, infos: seq<DeviceInfo>)
    ensures |Augmented(catalog, infos)|
         == |infos| + if '\0' in catalog.identity.serial then 0 else CountUnseen(catalog.Descriptors(), Seen(catalog, infos))
  {
    hide VirtualDevice, DescriptorsFor, Seen;
    if '\0' in catalog.identity.serial {
      NothingAdded(catalog, infos);
    } else {
      AllListable(catalog);
      UnseenLength(catalog, catalog.Descriptors(), Seen(catalog, infos));
    }
  }

  /** A profile of the catalog has a virtual device unless the serial number has a NUL,
      and the device is then listed. */
  lemma {:induction false} EveryProfileListed(catalog: Catalog, infos: seq<DeviceInfo>, k: nat)
    requires k < |catalog.Descriptors()|
    ensures var device := VirtualDevice(catalog, catalog.Descriptors()[k].profile);
            && (device.Some? <==> '\0' !in catalog.identity.serial)
            && (device.Some? ==> device.value in Augmented(catalog, infos))
  {
    hide VirtualDevice, DescriptorsFor, Seen, Unseen;
    DeviceAt(catalog, k);
    var descriptors := catalog.Descriptors();
    var profile := descriptors[k].profile;
    var seen := Seen(catalog, infos);
    if VirtualDevice(catalog, profile).None? {
    } else if profile in seen {
      SeenMembers(catalog, infos, profile);
      var i :| 0 <= i < |infos| && Replacing(catalog, infos[i]) == Some(profile);
      NativesKept(catalog, infos, i);
      assert Augmented(catalog, infos)[i] == VirtualDevice(catalog, profile).value;
    } else {
      UnseenMembers(catalog, descriptors, seen, k);
    }
  }

  // ------------------------------------------------------------ augmenting twice

  /** A path tells its profile: the instance suffix is in it. */
  lemma PathTellsProfile(identity: IdentityPayload, a: Descriptor, b: Descriptor)
    requires PathOf(identity, a) == PathOf(identity, b)
    ensures a.profile == b.profile
  {
    hide Hex, InterfaceGuid, HexLimit;
    SuffixInPath(identity, a);
    SuffixInPath(identity, b);
    Limits();
    HexInjective(a.profile.InstanceSuffix(), b.profile.InstanceSuffix(), 4);
  }

  lemma SuffixInPath(identity: IdentityPayload, descriptor: Descriptor)
    ensures var path := PathOf(identity, descriptor);
            var end := |path| - 1 - |InterfaceGuid()|;
            && end >= 4 && path[end - 4..end] == Hex(descriptor.profile.InstanceSuffix(), 4)
  {
    hide Hex, InterfaceGuid, ToLowerCase, VendorPart, ProductPart, InterfacePart, CollectionPart;
    var suffix := Hex(descriptor.profile.InstanceSuffix(), 4);
    var front := InterfacePart(descriptor.interfaceNumber) + ['&'] + (CollectionPart(descriptor.profile)
      + ['#'] + (ToLowerCase(identity.serial) + ['&'] + ("0" + ['&'])));
    assert PathInstance(identity, descriptor) == front + suffix;
    var head := PathPrefix() + ['#'] + (VendorPart(identity.vendorId) + ['&'] + (ProductPart(identity.productId) + ['&']));
    var path := PathOf(identity, descriptor);
    assert path == (head + front) + suffix + (['#'] + InterfaceGuid());
    var end := |head + front| + 4;
    assert path[end - 4..end] == suffix;
  }

  lemma {:induction false} MatchedAt(identity: IdentityPayload, descriptors: seq<Descriptor>, path: string)
    requires FirstMatch(identity, descriptors, path).Some?
    ensures exists k :: 0 <= k < |descriptors| && descriptors[k].profile == FirstMatch(identity, descriptors, path).value
  {
    hide Matches;
    if !Matches(identity, descriptors[0], path) {
      MatchedAt(identity, descriptors[1..], path);
      var k :| 0 <= k < |descriptors[1..]| && descriptors[1..][k].profile == FirstMatch(identity, descriptors[1..], path).value;
      assert descriptors[k + 1] == descriptors[1..][k];
    }
  }

  lemma ClassifiedInCatalog(catalog: Catalog, path: string)
    requires ProfileForPath(catalog, path).Some?
    ensures exists k :: 0 <= k < |catalog.Descriptors()| && catalog.Descriptors()[k].profile == ProfileForPath(catalog, path).value
  {
    hide Matches, DescriptorsFor, ToLowerCase, FirstMatch;
    var descriptors, lower := catalog.Descriptors(), ToLowerCase(path);
    if FirstMatch(catalog.identity, descriptors, lower).Some? {
      MatchedAt(catalog.identity, descriptors, lower);
    } else {
      var d := catalog.Find(ProfileForPath(catalog, path).value).value;
      var k :| 0 <= k < |descriptors| && descriptors[k] == d;
    }
  }

  /** A virtual device stays as it is exactly if its path is classified back. */
  lemma VirtualStaysIff(catalog: Catalog, k: nat)
    requires k < |catalog.Descriptors()| && '\0' !in catalog.identity.serial
    ensures var profile := catalog.Descriptors()[k].profile;
            var device := VirtualDevice(catalog, profile);
            && device.Some? && Replacing(catalog, device.value).Some?
            && (Replaced(catalog, device.value) == device.value
                <==> ProfileForPath(catalog, device.value.path.value) == Some(profile))
            && (Replaced(catalog, device.value) == device.value ==> Replacing(catalog, device.value) == Some(profile))
  {
    hide VirtualDevice, ProfileForPath, DevicePath, PathOf, DescriptorsFor, Shadows;
    var descriptors := catalog.Descriptors();
    DeviceAt(catalog, k);
    RoundTripIff(catalog, k);
    var device := VirtualDevice(catalog, descriptors[k].profile).value;
    ClassifiedInCatalog(catalog, device.path.value);
    var j :| 0 <= j < |descriptors| && descriptors[j].profile == ProfileForPath(catalog, device.path.value).value;
    DeviceAt(catalog, j);
    if Replaced(catalog, device) == device {
      PathTellsProfile(catalog.identity, descriptors[j], descriptors[k]);
    }
  }

  /** Every node of an augmented list: an unmatched native or a virtual device. */
  lemma AugmentedNode(catalog: Catalog, infos: seq<DeviceInfo>, info: DeviceInfo)
    requires info in Augmented(catalog, infos)
    ensures Replacing(catalog, info).None?
            || (exists k :: 0 <= k < |catalog.Descriptors()| && VirtualDevice(catalog, catalog.Descriptors()[k].profile) == Some(info))
  {
    hide VirtualDevice, DescriptorsFor, Seen, Unseen, ProfileForPath;
    if info in ReplacedAll(catalog, infos) {
      var i :| 0 <= i < |infos| && ReplacedAll(catalog, infos)[i] == info;
      if Replacing(catalog, infos[i]).Some? {
        ClassifiedInCatalog(catalog, infos[i].path.value);
      }
    } else {
      UnseenAreVirtual(catalog, catalog.Descriptors(), Seen(catalog, infos), info);
    }
  }

  lemma TwiceIfRoundTrips(catalog: Catalog, infos: seq<DeviceInfo>)
    requires '\0' !in catalog.identity.serial && RoundTrips(catalog)
    ensures Augmented(catalog, Augmented(catalog, infos)) == Augmented(catalog, infos)
  {
    hide VirtualDevice, DescriptorsFor, Seen, Unseen, ProfileForPath, DevicePath, Augmented, Replacing, Replaced;
    var descriptors, once := catalog.Descriptors(), Augmented(catalog, infos);
    forall k | 0 <= k < |descriptors|
      ensures var device := VirtualDevice(catalog, descriptors[k].profile);
              device.Some? && Replaced(catalog, device.value) == device.value && descriptors[k].profile in Seen(catalog, once)
    {
      StaysAndSeen(catalog, infos, k);
    }
    forall i | 0 <= i < |once| ensures Replaced(catalog, once[i]) == once[i] {
      AugmentedNode(catalog, infos, once[i]);
      UnmatchedStays(catalog, once[i]);
    }
    AllListable(catalog);
    NoneUnseenIff(catalog, descriptors, Seen(catalog, once));
    SameWhenNothingUnseen(catalog, once);
  }

  lemma UnmatchedStays(catalog: Catalog, info: DeviceInfo)
    ensures Replacing(catalog, info).None? ==> Replaced(catalog, info) == info
  {}

  lemma SameWhenNothingUnseen(catalog: Catalog, infos: seq<DeviceInfo>)
    requires Unseen(catalog, catalog.Descriptors(), Seen(catalog, infos)) == []
    requires forall i :: 0 <= i < |infos| ==> Replaced(catalog, infos[i]) == infos[i]
    ensures Augmented(catalog, infos) == infos
  {
    hide Replaced, Seen, Unseen, DescriptorsFor;
    assert ReplacedAll(catalog, infos) == infos;
  }

  lemma StaysAndSeen(catalog: Catalog, infos: seq<DeviceInfo>, k: nat)
    requires k < |catalog.Descriptors()| && '\0' !in catalog.identity.serial && RoundTrips(catalog)
    ensures var device := VirtualDevice(catalog, catalog.Descriptors()[k].profile);
            && device.Some? && Replaced(catalog, device.value) == device.value
            && catalog.Descriptors()[k].profile in Seen(catalog, Augmented(catalog, infos))
  {
    hide VirtualDevice, DescriptorsFor, Seen, Unseen, ProfileForPath, DevicePath, Augmented, Replacing, Replaced;
    var profile := catalog.Descriptors()[k].profile;
    var once := Augmented(catalog, infos);
    DeviceAt(catalog, k);
    VirtualStaysIff(catalog, k);
    EveryProfileListed(catalog, infos, k);
    var device := VirtualDevice(catalog, profile).value;
    var i :| 0 <= i < |once| && once[i] == device;
    SeenMembers(catalog, once, profile);
  }

  lemma RoundTripsIfTwice(catalog: Catalog, infos: seq<DeviceInfo>)
    requires '\0' !in catalog.identity.serial
    requires Augmented(catalog, Augmented(catalog, infos)) == Augmented(catalog, infos)
    ensures RoundTrips(catalog)
  {
    hide VirtualDevice, DescriptorsFor, Seen, Unseen, ProfileForPath, DevicePath, Replacing, Replaced;
    var once := Augmented(catalog, infos);
    forall k | 0 <= k < |catalog.Descriptors()|
      ensures var profile := catalog.Descriptors()[k].profile;
              var path := DevicePath(catalog, profile);
              path.Some? && ProfileForPath(catalog, path.value) == Some(profile)
    {
      DeviceAt(catalog, k);
      VirtualStaysIff(catalog, k);
      EveryProfileListed(catalog, infos, k);
      var device := VirtualDevice(catalog, catalog.Descriptors()[k].profile).value;
      var i :| 0 <= i < |once| && once[i] == device;
      assert Augmented(catalog, once)[i] == Replaced(catalog, once[i]);
    }
  }

  /** Augmenting the list again gives equal contents exactly if every profile's path is
      classified back as that profile, whatever the native devices are, or if a NUL in
      the serial number keeps all virtual devices out. */
  lemma {:induction false} AugmentTwiceIff(catalog: Catalog, infos: seq<DeviceInfo>)
    ensures Augmented(catalog, Augmented(catalog, infos)) == Augmented(catalog, infos)
       <==> '\0' in catalog.identity.serial || RoundTrips(catalog)
  {
    hide Augmented, RoundTrips;
    if '\0' in catalog.identity.serial {
      NothingAdded(catalog, infos);
    } else if RoundTrips(catalog) {
      TwiceIfRoundTrips(catalog, infos);
    } else if Augmented(catalog, Augmented(catalog, infos)) == Augmented(catalog, infos) {
      RoundTripsIfTwice(catalog, infos);
    }
  }
}

/** What a virtual device tells about itself, field by field
    (crosspuck-driver/src/sdl_enumeration.rs). */
module SdlDevices {
  import opened Wrappers
  import opened Text
  import opened Identity
  import opened ProfileCollections
  import opened ProfilePaths
  import opened ProfilePathResults
  import opened SdlEnumeration
  import opened SdlEnumerationContents

  /** A device with the names and numbers of an identity and the interface and usage of a
      collection. */
  predicate Presents(info: DeviceInfo, identity: IdentityPayload, c: Collection) {
    && info.vendorId == identity.vendorId && info.productId == identity.productId && info.release == identity.versionNumber
    && info.serial == Some(identity.serial) && info.manufacturer == Some(identity.manufacturer)
    && info.product == Some(identity.product)
    && info.interfaceNumber == c.interfaceNumber && info.usagePage == c.usagePage && info.usage == c.usage
    && info.interfaceClass == 0 && info.interfaceSubclass == 0 && info.interfaceProtocol == 0 && info.busType == 1
  }

  lemma DescriptorOf(catalog: Catalog, k: nat)
    requires k < |catalog.Descriptors()|
    ensures var d := catalog.Descriptors()[k];
            var c := CollectionFor(catalog.identity, catalog.allowFallback, d.profile);
            c.Some? && d == Descriptor(d.profile, c.value.interfaceNumber, c.value.usagePage, c.value.usage)
            && catalog.Find(d.profile) == Some(d)
  {
    hide CollectionFor, DescriptorsFor;
    var d := catalog.Descriptors()[k];
    CatalogInOrder(catalog);
    FindAt(catalog.Descriptors(), k);
    assert d.profile in ALL_PROFILES;
    DescriptorsForFind(catalog.identity, catalog.allowFallback, ALL_PROFILES, d.profile);
  }

  /** Every listed virtual device presents the catalog's identity and, for its profile, the
      first of the identity's collections that stands for it, or else the built-in one. */
  lemma {:induction false} DevicePresents(catalog: Catalog, k: nat)
    requires k < |catalog.Descriptors()| && '\0' !in catalog.identity.serial
    ensures var profile := catalog.Descriptors()[k].profile;
            var collections := catalog.identity.collections;
            var device := VirtualDevice(catalog, profile);
            && device.Some? && device.value.path == DevicePath(catalog, profile)
            && if NoneBacks(collections, profile) then
                 catalog.allowFallback && Presents(device.value, catalog.identity, BuiltIn(profile))
               else
                 exists j: nat :: FirstBacking(collections, profile, j) && Presents(device.value, catalog.identity, collections[j])
  {
    hide CollectionFor, DescriptorsFor, PathOf, NoneBacks, FirstBacking, FindDescriptor;
    var profile := catalog.Descriptors()[k].profile;
    DeviceAt(catalog, k);
    DescriptorOf(catalog, k);
    CollectionIs(catalog.identity, catalog.allowFallback, profile);
  }

  // -------------------------------------------------------- the built-in devices

  function BuiltInDevice(path: string, interfaceNumber: int, usagePage: u16, usage: u16): DeviceInfo {
    DeviceInfo(Some(path), 0x28DE, 0x1304, Some("FXB9961303C9C"), 2, Some("Valve Software"), Some("Steam Controller Puck"),
               usagePage, usage, interfaceNumber, 0, 0, 0, 1)
  }

  /** The path of a built-in device, piece by piece. */
  function BuiltInPath(interfacePart: string, collection: string, last: char): string {
    "\\\\?\\hid" + "#" + "vid_28de" + "&" + "pid_1304" + "&" + interfacePart + "&" + collection
    + "#" + "fxb9961303c9c" + "&" + "0" + "&" + ("000" + [last]) + "#" + "{4d1e55b2-f16f-11cf-88cb-001111000030}"
  }

  lemma HexTexts()
    ensures Hex(0x28DE, 4) == "28de" && Hex(0x1304, 4) == "1304"
    ensures Hex(1, 2) == "01" && Hex(2, 2) == "02" && Hex(3, 2) == "03" && Hex(4, 2) == "04" && Hex(5, 2) == "05" && Hex(6, 2) == "06"
  {
    VendorText();
    KnownProductTexts();
    assert VendorPart(0x28DE)[4..] == Hex(0x28DE, 4) && ProductPart(0x1304)[4..] == Hex(0x1304, 4);
    assert "vid_28de"[4..] == "28de" && "pid_1304"[4..] == "1304";
    assert Hex(0, 1) == "0";
  }

  lemma SuffixText(n: nat)
    requires 1 <= n <= 5
    ensures Hex(n, 4) == "000" + [(48 + n) as char]
  {
    ThreeZeros();
    hide Hex;
    LastDigit(n, 3);
    assert n / 16 == 0 && n % 16 == n;
  }

  lemma LastDigit(n: nat, width: nat)
    ensures Hex(n, width + 1) == Hex(n / 16, width) + [LowerDigit(n % 16)]
  {}

  lemma ThreeZeros()
    ensures Hex(0, 3) == "000"
  {
    assert Hex(0, 1) == "0" && Hex(0, 2) == "00";
  }

  lemma SerialText()
    ensures ToLowerCase("FXB9961303C9C") == "fxb9961303c9c"
  {
    var lower := ToLowerCase("FXB9961303C9C");
    assert lower[0] == 'f' && lower[1] == 'x' && lower[2] == 'b' && lower[10] == 'c' && lower[12] == 'c';
    assert lower[3] == '9' && lower[4] == '9' && lower[5] == '6' && lower[6] == '1' && lower[7] == '3' && lower[8] == '0';
    assert lower[9] == '3' && lower[11] == '9';
  }

  lemma Flat(prefix: string, v: string, p: string, i: string, c: string, serial: string, zero: string, suffix: string, guid: string)
    ensures prefix + ['#'] + (v + ['&'] + (p + ['&']
              + ((i + ['&'] + (c + ['#'] + (serial + ['&'] + (zero + ['&'] + suffix)))) + ['#'] + guid)))
         == prefix + "#" + v + "&" + p + "&" + i + "&" + c + "#" + serial + "&" + zero + "&" + suffix + "#" + guid
  {}

  lemma VendorAndProductTexts()
    ensures VendorPart(0x28DE) == "vid_28de" && ProductPart(0x1304) == "pid_1304"
  {
    VendorText();
    KnownProductTexts();
  }

  lemma PathText(descriptor: Descriptor, i: string, c: string, last: char)
    requires i == InterfacePart(descriptor.interfaceNumber) && c == CollectionPart(descriptor.profile)
    requires last == (48 + descriptor.profile.InstanceSuffix()) as char
    ensures PathOf(DefaultFallbackIdentity(), descriptor) == BuiltInPath(i, c, last)
  {
    hide Hex, ToLowerCase, VendorPart, ProductPart, InterfacePart, CollectionPart;
    VendorAndProductTexts();
    SerialText();
    SuffixText(descriptor.profile.InstanceSuffix());
    Flat(PathPrefix(), "vid_28de", "pid_1304", i, c, "fxb9961303c9c", "0", "000" + [last], InterfaceGuid());
  }

  /** The five built-in devices, in order. */
  function BuiltInDevices(): (r: seq<DeviceInfo>)
    ensures |r| == 5
  {
    [ BuiltInDevice(BuiltInPath("mi_02", "col01", '1'), 2, 1, 1),
      BuiltInDevice(BuiltInPath("mi_03", "col01", '2'), 3, 1, 1),
      BuiltInDevice(BuiltInPath("mi_04", "col01", '3'), 4, 1, 1),
      BuiltInDevice(BuiltInPath("mi_05", "col01", '4'), 5, 1, 1),
      BuiltInDevice(BuiltInPath("mi_06", "col02", '5'), 6, 0xFF00, 2) ]
  }

  function BuiltInDescriptor(profile: Profile): Descriptor {
    Descriptor(profile, BuiltIn(profile).interfaceNumber, BuiltIn(profile).usagePage, BuiltIn(profile).usage)
  }

  lemma BuiltInPaths(profile: Profile)
    ensures var i := ["mi_02", "mi_03", "mi_04", "mi_05", "mi_06"][profile.InstanceSuffix() - 1];
            var c := if profile.VendorDongle? then "col02" else "col01";
            PathOf(DefaultFallbackIdentity(), BuiltInDescriptor(profile))
            == BuiltInPath(i, c, (48 + profile.InstanceSuffix()) as char)
  {
    hide Hex, PathOf;
    PartTexts();
    var d := BuiltInDescriptor(profile);
    PathText(d, InterfacePart(d.interfaceNumber), CollectionPart(profile), (48 + profile.InstanceSuffix()) as char);
  }

  lemma PartTexts()
    ensures InterfacePart(2) == "mi_02" && InterfacePart(3) == "mi_03" && InterfacePart(4) == "mi_04"
            && InterfacePart(5) == "mi_05" && InterfacePart(6) == "mi_06"
    ensures forall profile: Profile :: CollectionPart(profile) == if profile.VendorDongle? then "col02" else "col01"
  {
    assert Hex(0, 1) == "0" && Hex(1, 2) == "01" && Hex(2, 2) == "02" && Hex(3, 2) == "03" && Hex(4, 2) == "04";
    assert Hex(5, 2) == "05" && Hex(6, 2) == "06";
  }

  lemma BuiltInDescriptors(allowFallback: bool)
    ensures CatalogOf(DefaultFallbackIdentity(), allowFallback).Descriptors()
         == [BuiltInDescriptor(Main), BuiltInDescriptor(Interface3), BuiltInDescriptor(Interface4),
             BuiltInDescriptor(Interface5), BuiltInDescriptor(VendorDongle)]
  {
    hide DescriptorsFor, BuiltInDescriptor;
    FirstBuiltIn(allowFallback, VendorDongle, []);
    FirstBuiltIn(allowFallback, Interface5, [VendorDongle]);
    FirstBuiltIn(allowFallback, Interface4, [Interface5, VendorDongle]);
    FirstBuiltIn(allowFallback, Interface3, [Interface4, Interface5, VendorDongle]);
    FirstBuiltIn(allowFallback, Main, [Interface3, Interface4, Interface5, VendorDongle]);
    NoDescriptors(allowFallback);
    assert [VendorDongle] + [] == [VendorDongle] && [Interface5] + [VendorDongle] == [Interface5, VendorDongle];
    assert [Interface4] + [Interface5, VendorDongle] == [Interface4, Interface5, VendorDongle];
    assert [Interface3] + [Interface4, Interface5, VendorDongle] == [Interface3, Interface4, Interface5, VendorDongle];
    assert [Main] + [Interface3, Interface4, Interface5, VendorDongle] == ALL_PROFILES;
  }

  lemma NoDescriptors(allowFallback: bool)
    ensures DescriptorsFor(DefaultFallbackIdentity(), allowFallback, []) == []
  {}

  lemma FirstBuiltIn(allowFallback: bool, first: Profile, rest: seq<Profile>)
    ensures DescriptorsFor(DefaultFallbackIdentity(), allowFallback, [first] + rest)
         == [BuiltInDescriptor(first)] + DescriptorsFor(DefaultFallbackIdentity(), allowFallback, rest)
  {
    hide FindCollection, DefaultFallbackIdentity;
    BuiltInFound(first);
    assert ([first] + rest)[1..] == rest;
  }

  lemma BuiltInPresents(allowFallback: bool, profile: Profile)
    ensures VirtualDevice(CatalogOf(DefaultFallbackIdentity(), allowFallback), profile)
         == Some(BuiltInDevices()[profile.InstanceSuffix() - 1])
  {
    hide DescriptorsFor, PathOf, BuiltInPath, FindDescriptor, ToLowerCase;
    var catalog := CatalogOf(DefaultFallbackIdentity(), allowFallback);
    BuiltInDescriptors(allowFallback);
    var k := profile.InstanceSuffix() - 1;
    assert catalog.Descriptors()[k] == BuiltInDescriptor(profile);
    BuiltInPaths(profile);
    DescriptorOf(catalog, k);
    DeviceAt(catalog, k);
    NoNulInSerial();
  }

  lemma NoNulInSerial()
    ensures '\0' !in DefaultFallbackIdentity().serial
  {}

  /** With no native device, enumeration in fallback mode lists exactly the five built-in
      devices, with these texts and numbers. */
  lemma {:induction false} FallbackDevices(allowFallback: bool)
    ensures Augmented(CatalogOf(DefaultFallbackIdentity(), allowFallback), []) == BuiltInDevices()
  {
    hide VirtualDevice, BuiltInDevices, DescriptorsFor;
    var catalog := CatalogOf(DefaultFallbackIdentity(), allowFallback);
    BuiltInDescriptors(allowFallback);
    forall profile: Profile ensures VirtualDevice(catalog, profile) == Some(BuiltInDevices()[profile.InstanceSuffix() - 1]) {
      BuiltInPresents(allowFallback, profile);
    }
    ListedInOrder(catalog);
  }

  lemma ListedInOrder(catalog: Catalog)
    requires catalog.Descriptors()
          == [BuiltInDescriptor(Main), BuiltInDescriptor(Interface3), BuiltInDescriptor(Interface4),
              BuiltInDescriptor(Interface5), BuiltInDescriptor(VendorDongle)]
    requires |BuiltInDevices()| == 5
    requires forall profile: Profile :: VirtualDevice(catalog, profile) == Some(BuiltInDevices()[profile.InstanceSuffix() - 1])
    ensures Augmented(catalog, []) == BuiltInDevices()
  {
    hide VirtualDevice, BuiltInDevices, DescriptorsFor;
    var ds, all := catalog.Descriptors(), BuiltInDevices();
    forall k | 0 <= k < 5 ensures VirtualDevice(catalog, ds[k].profile) == Some(all[k]) {
      assert ds[k].profile.InstanceSuffix() - 1 == k;
    }
    AllUnseen(catalog, ds, all);
    NoNatives(catalog);
    assert [] + all == all;
  }

  lemma {:induction false} AllUnseen(catalog: Catalog, descriptors: seq<Descriptor>, devices: seq<DeviceInfo>)
    requires |descriptors| == |devices|
    requires forall k :: 0 <= k < |devices| ==> VirtualDevice(catalog, descriptors[k].profile) == Some(devices[k])
    ensures Unseen(catalog, descriptors, []) == devices
  {
    hide VirtualDevice;
    if devices != [] {
      AllUnseen(catalog, descriptors[1..], devices[1..]);
    }
  }
}

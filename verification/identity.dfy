/** Identity payloads, the virtual HID profiles and the catalog built from them
    (guest_driver/profile.rs, guest_driver/identity.rs). */
module Identity {
  import opened Wrappers

  type u8 = x: nat | x < 0x100
  type u16 = x: nat | x < 0x1_0000

  datatype Role = PuckMain | PuckInterface3 | PuckInterface4 | PuckInterface5 | PuckVendorDongle

  datatype Collection = Collection(role: Role, interfaceNumber: u8, usagePage: u16, usage: u16)

  datatype IdentityPayload = IdentityPayload(
    vendorId: u16,
    productId: u16,
    versionNumber: u16,
    manufacturer: string,
    product: string,
    serial: string,
    collections: seq<Collection>)

  function DefaultFallbackIdentity(): IdentityPayload {
    IdentityPayload(
      0x28DE, 0x1304, 0x0002, "Valve Software", "Steam Controller Puck", "FXB9961303C9C",
      [ Collection(PuckMain, 2, 0x0001, 0x0001),
        Collection(PuckInterface3, 3, 0x0001, 0x0001),
        Collection(PuckInterface4, 4, 0x0001, 0x0001),
        Collection(PuckInterface5, 5, 0x0001, 0x0001),
        Collection(PuckVendorDongle, 6, 0xFF00, 0x0002) ])
  }

  datatype Profile = Main | Interface3 | Interface4 | Interface5 | VendorDongle {
    function Role(): Role {
      match this
      case Main => PuckMain
      case Interface3 => PuckInterface3
      case Interface4 => PuckInterface4
      case Interface5 => PuckInterface5
      case VendorDongle => PuckVendorDongle
    }

    function CollectionNumber(): u8 {
      if VendorDongle? then 2 else 1
    }

    function InstanceSuffix(): u16 {
      match this
      case Main => 1
      case Interface3 => 2
      case Interface4 => 3
      case Interface5 => 4
      case VendorDongle => 5
    }
  }

  const ALL_PROFILES := [Main, Interface3, Interface4, Interface5, VendorDongle]

  datatype Descriptor = Descriptor(profile: Profile, interfaceNumber: u8, usagePage: u16, usage: u16)

  /** A profile catalog, by the identity and the fallback permission it was built
      from; `Descriptors` is the list it holds. */
  datatype Catalog = CatalogOf(identity: IdentityPayload, allowFallback: bool) {
    function Descriptors(): seq<Descriptor> {
      DescriptorsFor(identity, allowFallback, ALL_PROFILES)
    }

    function Find(profile: Profile): Option<Descriptor> {
      FindDescriptor(Descriptors(), profile)
    }
  }

  function FindDescriptor(descriptors: seq<Descriptor>, profile: Profile): (r: Option<Descriptor>)
    ensures r.Some? ==> r.value in descriptors && r.value.profile == profile
    ensures r.None? ==> forall d :: d in descriptors ==> d.profile != profile
  {
    if descriptors == [] then None
    else if descriptors[0].profile == profile then Some(descriptors[0])
    else FindDescriptor(descriptors[1..], profile)
  }

  function FindCollection(collections: seq<Collection>, role: Role): (r: Option<Collection>)
    ensures r.Some? ==> r.value in collections && r.value.role == role
    ensures r.None? ==> forall c :: c in collections ==> c.role != role
  {
    if collections == [] then None
    else if collections[0].role == role then Some(collections[0])
    else FindCollection(collections[1..], role)
  }

  /** The collection a profile is built from: the identity's own, or the built-in
      one when debugging fallbacks are allowed. */
  function CollectionFor(identity: IdentityPayload, allowFallback: bool, profile: Profile): Option<Collection> {
    var own := FindCollection(identity.collections, profile.Role());
    if own.Some? || !allowFallback then own
    else FindCollection(DefaultFallbackIdentity().collections, profile.Role())
  }

  function DescriptorsFor(identity: IdentityPayload, allowFallback: bool, profiles: seq<Profile>): (r: seq<Descriptor>)
    ensures forall d :: d in r ==> d.profile in profiles
  {
    if profiles == [] then []
    else
      var rest := DescriptorsFor(identity, allowFallback, profiles[1..]);
      match CollectionFor(identity, allowFallback, profiles[0])
      case None => rest
      case Some(c) => [Descriptor(profiles[0], c.interfaceNumber, c.usagePage, c.usage)] + rest
  }

  /** A catalog has a descriptor for a profile exactly when a collection backs the
      profile, and the descriptor then carries that collection's routing. */
  lemma {:induction false} DescriptorsForFind(identity: IdentityPayload, allowFallback: bool, profiles: seq<Profile>, p: Profile)
    requires p in profiles
    ensures var c := CollectionFor(identity, allowFallback, p);
            var d := FindDescriptor(DescriptorsFor(identity, allowFallback, profiles), p);
            && (d.Some? <==> c.Some?)
            && (c.Some? ==> d.value == Descriptor(p, c.value.interfaceNumber, c.value.usagePage, c.value.usage))
  {
    var rest := DescriptorsFor(identity, allowFallback, profiles[1..]);
    var c := CollectionFor(identity, allowFallback, profiles[0]);
    if c.Some? {
      var head := Descriptor(profiles[0], c.value.interfaceNumber, c.value.usagePage, c.value.usage);
      assert ([head] + rest)[1..] == rest;
    }
    if p in profiles[1..] {
      DescriptorsForFind(identity, allowFallback, profiles[1..], p);
    }
  }
}

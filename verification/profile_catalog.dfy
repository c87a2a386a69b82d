/** Building a catalog from an identity (guest_driver/profile.rs). */
module ProfileCatalog {
  import opened Wrappers
  import opened Identity

  /** The first collection with the role. */
  method FirstWithRole(collections: seq<Collection>, role: Role) returns (found: Option<Collection>)
    ensures found == FindCollection(collections, role)
  {
    var i := 0;
    assert collections[0..] == collections;
    while i < |collections|
      invariant 0 <= i <= |collections|
      invariant FindCollection(collections, role) == FindCollection(collections[i..], role)
    {
      assert collections[i..][1..] == collections[i + 1..];
      if collections[i].role == role {
        return Some(collections[i]);
      }
      i := i + 1;
    }
    found := None;
  }

  /** One descriptor for each profile that the identity, or the built-in fallback, backs. */
  method FromIdentity(identity: IdentityPayload, allowFallback: bool) returns (descriptors: seq<Descriptor>)
    ensures descriptors == CatalogOf(identity, allowFallback).Descriptors()
  {
    hide FindCollection;
    descriptors := [];
    var i := 0;
    assert ALL_PROFILES[0..] == ALL_PROFILES;
    while i < |ALL_PROFILES|
      invariant 0 <= i <= |ALL_PROFILES|
      invariant descriptors + DescriptorsFor(identity, allowFallback, ALL_PROFILES[i..])
             == DescriptorsFor(identity, allowFallback, ALL_PROFILES)
    {
      assert ALL_PROFILES[i..][1..] == ALL_PROFILES[i + 1..];
      var profile := ALL_PROFILES[i];
      var collection := FirstWithRole(identity.collections, profile.Role());
      if collection.None? && allowFallback {
        collection := FirstWithRole(DefaultFallbackIdentity().collections, profile.Role());
      }
      if collection.Some? {
        var c := collection.value;
        var next := Descriptor(profile, c.interfaceNumber, c.usagePage, c.usage);
        AppendThenRest(descriptors, next, DescriptorsFor(identity, allowFallback, ALL_PROFILES[i + 1..]));
        descriptors := descriptors + [next];
      }
      i := i + 1;
    }
    assert descriptors + [] == descriptors;
  }

  lemma AppendThenRest(a: seq<Descriptor>, x: Descriptor, b: seq<Descriptor>)
    ensures a + ([x] + b) == a + [x] + b
  {}
}

/** Which collection stands behind a profile, read off the identity's own list
    (guest_driver/profile.rs). */
module ProfileCollections {
  import opened Wrappers
  import opened Identity

  /** Which collection a profile stands for. */
  predicate Backs(role: Role, profile: Profile) {
    || (role.PuckMain? && profile.Main?) || (role.PuckInterface3? && profile.Interface3?)
    || (role.PuckInterface4? && profile.Interface4?) || (role.PuckInterface5? && profile.Interface5?)
    || (role.PuckVendorDongle? && profile.VendorDongle?)
  }

  /** The first collection that stands for the profile. */
  predicate FirstBacking(collections: seq<Collection>, profile: Profile, k: nat) {
    k < |collections| && Backs(collections[k].role, profile) && forall i :: 0 <= i < k ==> !Backs(collections[i].role, profile)
  }

  predicate NoneBacks(collections: seq<Collection>, profile: Profile) {
    forall i :: 0 <= i < |collections| ==> !Backs(collections[i].role, profile)
  }

  /** The collections of the built-in devices. */
  function BuiltIn(profile: Profile): Collection {
    match profile
    case Main => Collection(PuckMain, 2, 1, 1)
    case Interface3 => Collection(PuckInterface3, 3, 1, 1)
    case Interface4 => Collection(PuckInterface4, 4, 1, 1)
    case Interface5 => Collection(PuckInterface5, 5, 1, 1)
    case VendorDongle => Collection(PuckVendorDongle, 6, 0xFF00, 2)
  }

  lemma RoleBacks(role: Role, profile: Profile)
    ensures role == profile.Role() <==> Backs(role, profile)
  {}

  lemma {:induction false} FoundFirst(collections: seq<Collection>, profile: Profile)
    ensures var found := FindCollection(collections, profile.Role());
            if NoneBacks(collections, profile) then found == None
            else found.Some? && exists k: nat :: FirstBacking(collections, profile, k) && collections[k] == found.value
  {
    hide Backs;
    if collections != [] {
      RoleBacks(collections[0].role, profile);
      if Backs(collections[0].role, profile) {
        assert FirstBacking(collections, profile, 0);
      } else {
        var rest := collections[1..];
        FoundFirst(rest, profile);
        assert forall k :: 0 < k < |collections| ==> collections[k] == rest[k - 1];
        if k: nat :| FirstBacking(rest, profile, k) && Some(rest[k]) == FindCollection(rest, profile.Role()) {
          assert FirstBacking(collections, profile, k + 1) && collections[k + 1] == rest[k];
        }
      }
    }
  }

  lemma BuiltInFound(profile: Profile)
    ensures FindCollection(DefaultFallbackIdentity().collections, profile.Role()) == Some(BuiltIn(profile))
  {
    var all := DefaultFallbackIdentity().collections;
    assert all[1..][0] == all[1] && all[1..][1..] == all[2..] && all[2..][0] == all[2] && all[2..][1..] == all[3..];
    assert all[3..][0] == all[3] && all[3..][1..] == all[4..] && all[4..][0] == all[4];
  }

  /** The collection behind a profile: the session's first of that role, or the built-in
      one where that is allowed. */
  lemma {:induction false} CollectionIs(identity: IdentityPayload, allowFallback: bool, profile: Profile)
    ensures var c := CollectionFor(identity, allowFallback, profile);
            if NoneBacks(identity.collections, profile) then c == (if allowFallback then Some(BuiltIn(profile)) else None)
            else c.Some? && exists k: nat :: FirstBacking(identity.collections, profile, k) && identity.collections[k] == c.value
  {
    hide NoneBacks, FirstBacking, FindCollection;
    FoundFirst(identity.collections, profile);
    BuiltInFound(profile);
  }
}

/** Where operations go, read off the session's own collections (guest_driver/profile.rs,
    guest_driver/runtime.rs). */
module ConnectionRoutes {
  import opened Wrappers
  import opened Identity
  import opened ProfileCollections
  import opened ConnectionState
  import opened ConnectionWorld
  import opened ConnectionCoherence

  /** Debugging fallbacks are allowed for a session: never in required mode, and
      otherwise as its override says, or the configuration without one. */
  predicate Allowed(config: RuntimeConfig, overrides: Overrides) {
    !config.hostBridgeRequired && (overrides.replayEnabled == Some(true) || (overrides.replayEnabled == None && config.replayEnabled))
  }

  /** In every run an operation on a healthy bridge is addressed to the interface of the
      first collection of its session that stands for the profile; without one, to the
      built-in interface (2 to 6 for the profiles in order) where fallbacks are allowed,
      and to none where they are not. */
  lemma {:induction false} RoutedByTheSession(config: RuntimeConfig, events: seq<Event>, profile: Profile)
    ensures var w := Run(config, InitialWorld(config), events);
            var r := SelectBridge(config, w.s, w.unhealthy, profile);
            if !config.hostBridgeEnabled || w.s.bridge.None? || w.s.bridge.value.id in w.unhealthy then r == Err(DeviceNotConnected)
            else
              var info := w.s.bridge.value.info;
              var collections := info.identity.collections;
              if !NoneBacks(collections, profile) then
                && r.Ok? && r.value.0 == w.s.bridge.value
                && exists k: nat :: FirstBacking(collections, profile, k) && collections[k].interfaceNumber == r.value.1
              else if Allowed(config, info.overrides) then r == Ok((w.s.bridge.value, BuiltIn(profile).interfaceNumber))
              else r == Err(ProfileUnavailable(profile))
  {
    hide Run, SelectBridge, NoneBacks, FirstBacking, CollectionFor;
    var w := Run(config, InitialWorld(config), events);
    OperationRoutesMatch(config, events, profile);
    if config.hostBridgeEnabled && Healthy(w.s, w.unhealthy) {
      var info := w.s.bridge.value.info;
      CollectionIs(info.identity, config.AllowDebugFallbackWith(info.overrides), profile);
      Selected(config, w.s, w.unhealthy, profile);
    } else {
      NotSelected(config, w.s, w.unhealthy, profile);
    }
  }

  lemma Selected(config: RuntimeConfig, s: Shared, unhealthy: set<nat>, profile: Profile)
    requires config.hostBridgeEnabled && Healthy(s, unhealthy)
    ensures var r := SelectBridge(config, s, unhealthy, profile);
            r.Ok? || r == Err(ProfileUnavailable(profile))
  {
    hide FindDescriptor, DescriptorsFor;
  }

  lemma NotSelected(config: RuntimeConfig, s: Shared, unhealthy: set<nat>, profile: Profile)
    requires !config.hostBridgeEnabled || !Healthy(s, unhealthy)
    ensures SelectBridge(config, s, unhealthy, profile) == Err(DeviceNotConnected)
  {}
}

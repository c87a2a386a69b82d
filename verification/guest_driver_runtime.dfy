/** The guest driver runtime object: each method is one lock-held region (or one
    reference-count update) of guest_driver/runtime.rs, proved against the function
    on values that the whole-run results are about. */
module GuestDriver {
  import opened Wrappers
  import opened Identity
  import opened ConnectionState

  class GuestDriverRuntime {
    const config: RuntimeConfig
    var bridge: Option<Bridge>
    var identity: RuntimeIdentity
    var catalog: Option<Catalog>
    var retired: seq<Bridge>
    var workerRunning: bool
    var stopping: bool
    var connecting: bool
    var epoch: nat
    var retry: RetrySchedule
    var reconnectInterval: nat
    var lastError: bool
    var deviceGeneration: nat
    /** The strong count of every live bridge allocation. */
    var strongCounts: map<nat, nat>

    ghost function State(): Shared
      reads this
    {
      Shared(bridge, identity, catalog, retired, workerRunning, stopping, connecting, epoch, retry,
             reconnectInterval, lastError, deviceGeneration, strongCounts)
    }

    constructor (config: RuntimeConfig)
      ensures this.config == config && State() == Initial(config)
    {
      this.config := config;
      var identity := NewRuntimeIdentity(config.AllowDebugFallback());
      this.identity := identity;
      catalog := CatalogForIdentity(config, identity);
      bridge, retired, workerRunning, stopping, connecting := None, [], false, false, false;
      epoch, retry, reconnectInterval, lastError := 0, NO_RETRY, config.lazyReconnectInterval, false;
      deviceGeneration, strongCounts := 0, map[];
    }

    method RetireBridge()
      modifies this
      ensures State() == Retire(config, old(State()))
    {
      var removed := bridge;
      bridge := None;
      identity := identity.MarkStale();
      catalog := CatalogForIdentity(config, identity);
      if removed.Some? {
        retired := retired + [removed.value];
        deviceGeneration := (deviceGeneration + 1) % GENERATION_MODULUS;
      }
    }

    method ClearBridge()
      modifies this
      ensures State() == Clear(config, old(State()))
    {
      epoch := (epoch + 1) % EPOCH_MODULUS;
      RetireBridge();
    }

    method ClearBridgeIfCurrent(current: Bridge)
      modifies this
      ensures State() == ClearIfCurrent(config, old(State()), current)
    {
      if bridge.Some? && bridge.value.id == current.id {
        epoch := (epoch + 1) % EPOCH_MODULUS;
        RetireBridge();
      }
    }

    method RequestConnectionWorkerStop()
      modifies this
      ensures State() == RequestStop(old(State()))
    {
      stopping := true;
      epoch := (epoch + 1) % EPOCH_MODULUS;
    }

    /** Moves every retired bridge that nothing else references into `cleanup`. */
    method SweepRetired() returns (cleanup: seq<Bridge>)
      modifies this`retired
      ensures (State(), cleanup) == Swept(old(State()))
      ensures multiset(retired) + multiset(cleanup) == multiset(old(retired))
      ensures forall b :: b in retired ==> StrongCount(strongCounts, b) != 1
      ensures forall b :: b in cleanup ==> StrongCount(strongCounts, b) == 1
    {
      cleanup := [];
      var index := 0;
      while index < |retired|
        invariant index <= |retired|
        invariant Sweep(strongCounts, retired, index, cleanup) == Sweep(strongCounts, old(retired), 0, [])
        invariant State() == old(State()).(retired := retired)
        decreases |retired| - index
      {
        if StrongCount(strongCounts, retired[index]) == 1 {
          cleanup := cleanup + [retired[index]];
          retired := SwapRemove(retired, index);
        } else {
          index := index + 1;
        }
      }
      SweepContents(strongCounts, old(retired), 0, []);
      assert multiset(retired) + multiset(cleanup) == multiset(old(retired));
    }

    /** One pass of the worker loop up to the release of the lock. */
    method WorkerIteration(unhealthy: set<nat>, now: nat) returns (cleanup: seq<Bridge>, next: AfterIteration)
      modifies this
      ensures (State(), cleanup, next) == Iterate(config, old(State()), unhealthy, now)
    {
      cleanup := SweepRetired();
      if stopping {
        RetireBridge();
        if retired == [] {
          return cleanup, Exit;
        }
      }
      if bridge.Some? && bridge.value.id in unhealthy {
        RetireBridge();
      }
      if !stopping && bridge.None? && !connecting && retry.Remaining(now) == 0 {
        connecting := true;
        return cleanup, Connect(epoch);
      }
      next := Wait;
    }

    /** The locked region after a connection attempt that began in `started`. The
        slot's previous bridge, if any, is dropped by the store into it. */
    method FinishAttempt(started: nat, result: Option<Bridge>, now: nat)
      modifies this
      ensures var before := old(State());
              var published := result.Some? && !before.stopping && before.epoch == started;
              var freed := if published && before.bridge.Some? then DropReference(before, before.bridge.value).0 else before;
              State() == FinishConnect(config, freed, started, result, now)
    {
      connecting := false;
      retry := RetrySchedule(Some(now), reconnectInterval);
      match result
      case None =>
        lastError := true;
        reconnectInterval := config.lazyReconnectInterval;
      case Some(connected) =>
        if stopping || epoch != started {
          strongCounts := strongCounts[connected.id := 1];
          retired := retired + [connected];
        } else {
          if bridge.Some? {
            var _ := DropClone(bridge.value);
          }
          strongCounts := strongCounts[connected.id := 1];
          PublishBridge(connected);
        }
    }

    method PublishBridge(connected: Bridge)
      modifies this
      ensures State() == Publish(config, old(State()), connected)
    {
      var overrides := connected.info.overrides;
      var allowFallback := config.AllowDebugFallbackWith(overrides);
      reconnectInterval := config.ReconnectIntervalWith(overrides);
      identity := NewRuntimeIdentity(allowFallback).SetHostIdentity(connected.info.identity);
      catalog := Some(CatalogOf(connected.info.identity, allowFallback));
      bridge := Some(connected);
      retry := NO_RETRY;
      lastError := false;
      deviceGeneration := (deviceGeneration + 1) % GENERATION_MODULUS;
    }

    /** The start of an operation: picks the published bridge and the interface of its
        own catalog under one lock, and takes a clone. */
    method BeginOperation(profile: Profile, unhealthy: set<nat>) returns (r: Result<(Bridge, u8), DriverError>)
      modifies this`strongCounts
      ensures r == SelectBridge(config, old(State()), unhealthy, profile)
      ensures r.Ok? ==> State() == CloneBridge(old(State()))
      ensures r.Err? ==> State() == old(State())
    {
      if !config.hostBridgeEnabled || bridge.None? || bridge.value.id in unhealthy {
        return Err(DeviceNotConnected);
      }
      var descriptor := if catalog.Some? then catalog.value.Find(profile) else None;
      if descriptor.None? {
        return Err(ProfileUnavailable(profile));
      }
      strongCounts := strongCounts[bridge.value.id := StrongCount(strongCounts, bridge.value) + 1];
      r := Ok((bridge.value, descriptor.value.interfaceNumber));
    }

    /** Drops one reference; `last` when the caller must destroy the bridge. */
    method DropClone(dropped: Bridge) returns (last: bool)
      modifies this`strongCounts
      ensures (State(), last) == DropReference(old(State()), dropped)
    {
      if StrongCount(strongCounts, dropped) <= 1 {
        strongCounts := strongCounts - {dropped.id};
        last := true;
      } else {
        strongCounts := strongCounts[dropped.id := strongCounts[dropped.id] - 1];
        last := false;
      }
    }

    /** Enumeration reads one coherent snapshot and changes nothing. */
    method CatalogSnapshot(unhealthy: set<nat>) returns (r: Option<Catalog>)
      ensures r == CatalogResult(config, old(State()), unhealthy)
    {
      if config.hostBridgeRequired && !(bridge.Some? && bridge.value.id !in unhealthy) {
        return None;
      }
      if !identity.CanAdvertise(config.hostBridgeRequired) {
        return None;
      }
      r := catalog;
    }
  }
}

/** The published bridge, identity, catalog and device generation agree in every
    reachable state (guest_driver/runtime.rs, guest_driver/identity.rs). */
module ConnectionCoherence {
  import opened Wrappers
  import opened Identity
  import opened ConnectionState
  import opened ConnectionWorld
  import opened ConnectionOwnership
  import opened ConnectionFrames

  /** The catalog that belongs to a session. */
  function SessionCatalog(config: RuntimeConfig, info: SessionInfo): Catalog {
    CatalogOf(info.identity, config.AllowDebugFallbackWith(info.overrides))
  }

  ghost predicate CoherentState(config: RuntimeConfig, s: Shared) {
    && (s.identity.LiveIdentity().Some? <==> s.bridge.Some?)
    && (s.bridge.Some? ==>
          && s.identity.LiveIdentity() == Some(s.bridge.value.info.identity)
          && s.catalog == Some(SessionCatalog(config, s.bridge.value.info)))
    && (s.bridge.None? ==> s.catalog == CatalogForIdentity(config, s.identity))
    && (s.identity.fallback.None? || s.identity.fallback == Some(DefaultFallbackIdentity()))
    && (config.hostBridgeRequired ==> s.identity.fallback.None?)
  }

  /** The slot is filled once more than it was emptied while a bridge is in it. */
  ghost predicate Tallied(w: World) {
    && w.h.publishes == w.h.retirements + (if w.s.bridge.Some? then 1 else 0)
    && w.s.generation == (w.h.publishes + w.h.retirements) % GENERATION_MODULUS
  }

  /** Whether debugging fallbacks are allowed after the attempts so far: as the latest
      published session said, or as configured before the first one. */
  predicate FallbackInForce(config: RuntimeConfig, log: seq<Attempt>) {
    if log == [] then config.AllowDebugFallback()
    else
      var last := log[|log| - 1].outcome;
      if last.Published? then config.AllowDebugFallbackWith(last.info.overrides)
      else FallbackInForce(config, log[..|log| - 1])
  }

  ghost predicate FallbackAgrees(config: RuntimeConfig, w: World) {
    w.s.identity.fallback.Some? <==> FallbackInForce(config, w.h.log)
  }

  ghost predicate Coherent(config: RuntimeConfig, w: World) {
    CoherentState(config, w.s) && Tallied(w) && FallbackAgrees(config, w)
  }

  lemma RetireIfCoherent(config: RuntimeConfig, s: Shared, retire: bool)
    requires CoherentState(config, s)
    ensures var t := RetireIf(config, s, retire);
            && CoherentState(config, t)
            && (retire ==> t.bridge.None?)
            && t.identity.fallback == s.identity.fallback
            && (t.bridge == s.bridge || t.bridge.None?)
            && t.generation == (if s.bridge == t.bridge then s.generation else (s.generation + 1) % GENERATION_MODULUS)
  {}

  lemma IterateCoherent(config: RuntimeConfig, s: Shared, unhealthy: set<nat>, now: nat)
    requires CoherentState(config, s)
    ensures var t := Iterate(config, s, unhealthy, now).0;
            && CoherentState(config, t)
            && t.identity.fallback == s.identity.fallback
            && (t.bridge == s.bridge || t.bridge.None?)
            && t.generation == (if s.bridge == t.bridge then s.generation else (s.generation + 1) % GENERATION_MODULUS)
  {
    var (swept, cleanup) := Swept(s);
    RetireIfCoherent(config, swept, swept.stopping);
    var stopped := RetireIf(config, swept, swept.stopping);
    var unfit := stopped.bridge.Some? && !Healthy(stopped, unhealthy);
    RetireIfCoherent(config, stopped, unfit);
    var checked := RetireIf(config, stopped, unfit);
    var t := Iterate(config, s, unhealthy, now).0;
    assert t == stopped || t == checked || t == checked.(connecting := true);
  }

  lemma WithSharedTallied(w: World, t: Shared)
    requires Tallied(w)
    requires t.bridge == w.s.bridge || t.bridge.None? || w.s.bridge.None?
    requires t.generation == (if w.s.bridge == t.bridge then w.s.generation else (w.s.generation + 1) % GENERATION_MODULUS)
    ensures Tallied(WithShared(w, t))
  {
    var total := w.h.publishes + w.h.retirements;
    assert (total % GENERATION_MODULUS + 1) % GENERATION_MODULUS == (total + 1) % GENERATION_MODULUS;
  }

  lemma IterationCoherent(config: RuntimeConfig, w: World)
    requires Coherent(config, w)
    ensures Coherent(config, RunIteration(config, w))
  {
    IterateCoherent(config, w.s, w.unhealthy, w.clock);
    WithSharedTallied(w, Iterate(config, w.s, w.unhealthy, w.clock).0);
  }

  lemma FallbackAppend(config: RuntimeConfig, log: seq<Attempt>, a: Attempt)
    ensures FallbackInForce(config, log + [a])
         == if a.outcome.Published? then config.AllowDebugFallbackWith(a.outcome.info.overrides)
            else FallbackInForce(config, log)
  {
    assert (log + [a])[..|log|] == log;
  }

  lemma FinishFallback(config: RuntimeConfig, w: World, epoch: nat, result: Option<SessionInfo>)
    requires FallbackAgrees(config, w) && w.s.bridge.None?
    ensures FallbackAgrees(config, RunFinish(config, w, epoch, result))
  {
    var log := RunFinish(config, w, epoch, result).h.log;
    FallbackAppend(config, w.h.log, log[|w.h.log|]);
  }

  lemma FinishCoherent(config: RuntimeConfig, w: World, epoch: nat, result: Option<SessionInfo>)
    requires Coherent(config, w) && w.s.bridge.None?
    ensures Coherent(config, RunFinish(config, w, epoch, result))
  {
    var bridge := if result.Some? then Some(Bridge(w.nextId, result.value)) else None;
    var t := FinishConnect(config, w.s, epoch, bridge, w.clock);
    assert CoherentState(config, t);
    WithSharedTallied(w, t);
    FinishFallback(config, w, epoch, result);
  }

  lemma ClearCoherent(config: RuntimeConfig, w: World)
    requires Coherent(config, w)
    ensures Coherent(config, WithShared(w, Clear(config, w.s)))
  {
    RetireIfCoherent(config, BumpEpoch(w.s), true);
    WithSharedTallied(w, Clear(config, w.s));
  }

  lemma QuietCoherent(config: RuntimeConfig, w: World, w': World)
    requires Coherent(config, w) && Quiet(w, w')
    ensures Coherent(config, w')
  {}

  lemma WorkerStepCoherent(config: RuntimeConfig, w: World, result: Option<SessionInfo>)
    requires Coherent(config, w) && (w.pc.Connecting? ==> w.s.bridge.None?)
    ensures Coherent(config, StepWorker(config, w, result))
  {
    if w.pc.Connecting? {
      FinishCoherent(config, w, w.pc.epoch, result);
    } else if Iterating(w) {
      IterationCoherent(config, w);
    } else {
      QuietWorkerStep(config, w, result);
      QuietCoherent(config, w, StepWorker(config, w, result));
    }
  }

  lemma StepCoherent(config: RuntimeConfig, w: World, event: Event)
    requires w.pc.Connecting? ==> w.s.bridge.None?
    requires Coherent(config, w)
    ensures Coherent(config, Step(config, w, event))
  {
    hide Coherent, StepWorker, RunFinish, RunIteration, Retire, DropOne, SelectBridge;
    if event.WorkerStep? {
      WorkerStepCoherent(config, w, event.result);
    } else if event.EnterWorker? && MayEnter(config, w.s) {
      var entered := w.(s := w.s.(workerRunning := true), h := w.h.(entries := w.h.entries + 1));
      QuietCoherent(config, w, entered);
      IterationCoherent(config, entered);
    } else if Clears(w, event) {
      ClearCoherent(config, w);
      ClearingStep(config, w, event);
      QuietCoherent(config, WithShared(w, Clear(config, w.s)), Step(config, w, event));
    } else {
      QuietStep(config, w, event);
      QuietCoherent(config, w, Step(config, w, event));
    }
  }

  lemma {:induction false} RunCoherent(config: RuntimeConfig, events: seq<Event>)
    ensures Coherent(config, Run(config, InitialWorld(config), events))
  {
    if events != [] {
      var before := events[..|events| - 1];
      RunCoherent(config, before);
      RunOwned(config, before);
      StepCoherent(config, Run(config, InitialWorld(config), before), events[|events| - 1]);
    }
  }

  lemma WrapKeepsParity(total: nat)
    ensures total % GENERATION_MODULUS % 2 == total % 2
  {
    assert total == GENERATION_MODULUS * (total / GENERATION_MODULUS) + total % GENERATION_MODULUS;
  }

  lemma OddWhilePublished(w: World)
    requires Tallied(w)
    ensures w.s.generation % 2 == 1 <==> w.s.bridge.Some?
  {
    WrapKeepsParity(w.h.publishes + w.h.retirements);
  }

  /** The catalog shown without a bridge, given the attempts so far. */
  function FallbackCatalog(config: RuntimeConfig, log: seq<Attempt>): Option<Catalog> {
    if FallbackInForce(config, log) then Some(CatalogOf(DefaultFallbackIdentity(), config.AllowDebugFallback())) else None
  }

  /** In every reachable state: a bridge is published iff the identity is live, and
      the catalog is then the one built from that bridge's session; without a bridge
      it is the built-in fallback if the latest session's overrides allow one, and
      absent if not; and the generation is odd exactly while a bridge is published. */
  lemma {:induction false} PublishedStateAgrees(config: RuntimeConfig, events: seq<Event>)
    ensures var w := Run(config, InitialWorld(config), events);
            && (w.s.bridge.Some? <==> w.s.identity.LiveIdentity().Some?)
            && (w.s.bridge.Some? ==> w.s.catalog == Some(SessionCatalog(config, w.s.bridge.value.info)))
            && (w.s.bridge.None? ==> w.s.catalog == FallbackCatalog(config, w.h.log))
            && (config.hostBridgeRequired ==> (w.s.catalog.Some? <==> w.s.bridge.Some?))
            && (w.s.generation % 2 == 1 <==> w.s.bridge.Some?)
  {
    RunCoherent(config, events);
    OddWhilePublished(Run(config, InitialWorld(config), events));
  }

  /** Without a bridge there is a catalog iff the overrides of the latest published
      session, or before any the configuration, allow the fallback devices. */
  lemma {:induction false} CatalogWithoutBridgeIff(config: RuntimeConfig, events: seq<Event>)
    requires Run(config, InitialWorld(config), events).s.bridge.None?
    ensures var w := Run(config, InitialWorld(config), events);
            w.s.catalog.Some? <==> FallbackInForce(config, w.h.log)
  {
    RunCoherent(config, events);
  }

  lemma FourSteps(config: RuntimeConfig, w: World, a: Event, b: Event, c: Event, d: Event)
    ensures Run(config, w, [a, b, c, d]) == Step(config, Step(config, Step(config, Step(config, w, a), b), c), d)
  {
    hide Step;
    var events := [a, b, c, d];
    assert events[..3] == [a, b, c] && [a, b, c][..2] == [a, b] && [a, b][..1] == [a] && [a][..0] == [];
    assert Run(config, w, [a]) == Step(config, w, a);
    assert Run(config, w, [a, b]) == Step(config, Run(config, w, [a]), b);
    assert Run(config, w, [a, b, c]) == Step(config, Run(config, w, [a, b]), c);
  }

  /** The run in which only a session's override allows the fallback devices: their
      catalog stays behind when that session ends, although the configuration
      alone shows none. */
  lemma OverrideOutlivesSession(config: RuntimeConfig, info: SessionInfo)
    requires config.hostBridgeEnabled && !config.hostBridgeRequired && !config.replayEnabled
    requires info.overrides.replayEnabled == Some(true)
    ensures Initial(config).catalog.None?
    ensures var w := Run(config, InitialWorld(config), [EnterWorker, WorkerStep(None), WorkerStep(Some(info)), ClearBridge]);
            w.s.bridge.None? && w.s.catalog == Some(CatalogOf(DefaultFallbackIdentity(), false))
  {
    var w0 := InitialWorld(config);
    var w1 := Step(config, w0, EnterWorker);
    var w2 := Step(config, w1, WorkerStep(None));
    assert w2.pc == Connecting(0) && w2.s.epoch == 0 && !w2.s.stopping && w2.s.bridge.None?;
    var w3 := RunFinish(config, w2, 0, Some(info));
    assert w3.s.bridge == Some(Bridge(w2.nextId, info)) && w3.s.identity.fallback == Some(DefaultFallbackIdentity());
    FourSteps(config, w0, EnterWorker, WorkerStep(None), WorkerStep(Some(info)), ClearBridge);
  }

  /** The identity in use is the published session's; without one it is the built-in one,
      where fallbacks are allowed. */
  lemma {:induction false} IdentityInUse(config: RuntimeConfig, events: seq<Event>)
    ensures var w := Run(config, InitialWorld(config), events);
            && w.s.identity.Identity()
               == (if w.s.bridge.Some? then Some(w.s.bridge.value.info.identity)
                   else if FallbackInForce(config, w.h.log) then Some(DefaultFallbackIdentity())
                   else None)
            && (w.s.identity.CanAdvertise(config.hostBridgeRequired)
                <==> w.s.bridge.Some? || (!config.hostBridgeRequired && FallbackInForce(config, w.h.log)))
  {
    hide DefaultFallbackIdentity, Run;
    RunCoherent(config, events);
  }

  /** The generation counts publishes and retirements, modulo 2^32. */
  lemma {:induction false} GenerationCounts(config: RuntimeConfig, events: seq<Event>)
    ensures var w := Run(config, InitialWorld(config), events);
            && w.s.generation == (w.h.publishes + w.h.retirements) % 0x1_0000_0000
            && w.h.publishes - w.h.retirements == |SlotOf(w.s)|
  {
    hide Step;
    RunCoherent(config, events);
    TallyOf(Run(config, InitialWorld(config), events));
  }

  lemma TallyOf(w: World)
    requires Tallied(w)
    ensures w.s.generation == (w.h.publishes + w.h.retirements) % GENERATION_MODULUS
    ensures w.h.publishes - w.h.retirements == |SlotOf(w.s)|
  {}

  /** An operation addresses its bridge with an interface of that bridge's own
      session, whatever was published in between. */
  lemma {:induction false} OperationRoutesMatch(config: RuntimeConfig, events: seq<Event>, profile: Profile)
    ensures var w := Run(config, InitialWorld(config), events);
            match SelectBridge(config, w.s, w.unhealthy, profile)
            case Ok((bridge, interfaceNumber)) =>
              && w.s.bridge == Some(bridge) && bridge.id !in w.unhealthy
              && var c := CollectionFor(bridge.info.identity, config.AllowDebugFallbackWith(bridge.info.overrides), profile);
                 c.Some? && c.value.interfaceNumber == interfaceNumber
            case Err(ProfileUnavailable(p)) =>
              && p == profile && w.s.bridge.Some?
              && var info := w.s.bridge.value.info;
                 CollectionFor(info.identity, config.AllowDebugFallbackWith(info.overrides), profile).None?
            case Err(DeviceNotConnected) => !config.hostBridgeEnabled || !Healthy(w.s, w.unhealthy)
  {
    RunCoherent(config, events);
    var w := Run(config, InitialWorld(config), events);
    if w.s.bridge.Some? {
      var info := w.s.bridge.value.info;
      assert profile in ALL_PROFILES;
      DescriptorsForFind(info.identity, config.AllowDebugFallbackWith(info.overrides), ALL_PROFILES, profile);
    }
  }

  /** In required mode enumeration shows a catalog iff a healthy bridge is published,
      and then it is that bridge's own; otherwise also the fallback one, while the
      overrides of the latest session allow it. */
  lemma {:induction false} AdvertisedCatalog(config: RuntimeConfig, events: seq<Event>)
    ensures var w := Run(config, InitialWorld(config), events);
            var shown := CatalogResult(config, w.s, w.unhealthy);
            && (config.hostBridgeRequired ==> (shown.Some? <==> Healthy(w.s, w.unhealthy)))
            && (shown.Some? && w.s.bridge.Some? ==> shown.value == SessionCatalog(config, w.s.bridge.value.info))
            && (shown.Some? && w.s.bridge.None? ==>
                  shown.value == CatalogOf(DefaultFallbackIdentity(), config.AllowDebugFallback()))
            && (!config.hostBridgeRequired ==> (shown.Some? <==> w.s.bridge.Some? || FallbackInForce(config, w.h.log)))
  {
    RunCoherent(config, events);
  }
}

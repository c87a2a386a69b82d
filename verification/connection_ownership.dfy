/** Who owns each connected bridge, over every interleaving: exactly one place at a
    time, and only the worker, outside the lock, ever destroys one. */
module ConnectionOwnership {
  import opened Wrappers
  import opened Identity
  import opened ConnectionState
  import opened ConnectionWorld

  function SlotOf(s: Shared): multiset<Bridge> {
    if s.bridge.Some? then multiset{s.bridge.value} else multiset{}
  }

  function CleanupOf(pc: WorkerPc): seq<Bridge> {
    if pc.Dropping? then pc.cleanup else []
  }

  function DestroyedBy(destroyed: seq<Destruction>): multiset<Bridge> {
    if destroyed == [] then multiset{}
    else DestroyedBy(destroyed[..|destroyed| - 1]) + multiset{destroyed[|destroyed| - 1].bridge}
  }

  /** The places that keep a bridge alive apart from running operations. */
  function Held(w: World): multiset<Bridge> {
    SlotOf(w.s) + multiset(w.s.retired) + multiset(CleanupOf(w.pc))
  }

  /** Every bridge ever connected is in exactly one of the slot, the retired list,
      the worker's cleanup and the destroyed ones. */
  ghost predicate Conserved(w: World) {
    Held(w) + DestroyedBy(w.h.destroyed) == multiset(w.h.connected)
  }

  ghost predicate Identified(w: World) {
    && (forall b :: b in w.h.connected ==> b.id < w.nextId)
    && (forall a, b :: a in w.h.connected && b in w.h.connected && a.id == b.id ==> a == b)
  }

  /** A held bridge's counter is one for the place that holds it plus one for each
      operation's clone, and clones exist only of bridges the lock protects. */
  ghost predicate CountedAt(w: World, b: Bridge) {
    && (Held(w)[b] > 0 ==> b.id in w.s.refs && w.s.refs[b.id] == 1 + w.clones[b])
    && (w.clones[b] > 0 ==> SlotOf(w.s)[b] + multiset(w.s.retired)[b] > 0)
    && (multiset(CleanupOf(w.pc))[b] > 0 ==> w.clones[b] == 0)
  }

  ghost predicate Counted(w: World) {
    forall b :: CountedAt(w, b)
  }

  ghost predicate DestroyedByWorker(w: World) {
    forall d :: d in w.h.destroyed ==> d.dropper == WorkerOutsideLock
  }

  ghost predicate Attempting(pc: WorkerPc) {
    pc.Connecting? || (pc.Dropping? && pc.next.Connect?)
  }

  ghost predicate Finishing(pc: WorkerPc) {
    pc.Exited? || pc.Leaving? || (pc.Dropping? && pc.next.Exit?)
  }

  /** What the flags of the shared state say about the worker. */
  ghost predicate Phased(w: World) {
    && (w.s.connecting <==> Attempting(w.pc))
    && (w.s.connecting ==> w.s.bridge.None?)
    && (w.s.workerRunning <==> !w.pc.NotEntered? && !w.pc.Exited?)
    && (Finishing(w.pc) ==> w.s.stopping && w.s.bridge.None? && w.s.retired == [])
    && w.h.entries == (if w.pc.NotEntered? then 0 else 1)
    && (w.pc.NotEntered? ==> w.s.bridge.None? && w.s.retired == [] && w.h.log == [] && w.h.connected == {})
  }

  ghost predicate Owned(w: World) {
    Conserved(w) && Identified(w) && Counted(w) && DestroyedByWorker(w) && Phased(w)
  }

  lemma DestroyedAppend(destroyed: seq<Destruction>, d: Destruction)
    ensures DestroyedBy(destroyed + [d]) == DestroyedBy(destroyed) + multiset{d.bridge}
  {
    assert (destroyed + [d])[..|destroyed|] == destroyed;
  }

  lemma RetireMoves(config: RuntimeConfig, s: Shared)
    ensures var t := Retire(config, s);
            && t.bridge.None?
            && SlotOf(s) + multiset(s.retired) == SlotOf(t) + multiset(t.retired)
            && t == s.(bridge := None, retired := t.retired, identity := t.identity, catalog := t.catalog, generation := t.generation)
            && (s.bridge.None? ==> t.retired == s.retired && t.generation == s.generation)
  {}

  function Protected(s: Shared): multiset<Bridge> {
    SlotOf(s) + multiset(s.retired)
  }

  /** Retiring, or not, keeps what the lock protects. */
  lemma RetireIfMoves(config: RuntimeConfig, s: Shared, retire: bool)
    ensures Protected(RetireIf(config, s, retire)) == Protected(s)
  {
    RetireMoves(config, s);
  }

  lemma SweptMoves(s: Shared)
    ensures var (swept, cleanup) := Swept(s);
            && Protected(s) == Protected(swept) + multiset(cleanup)
            && (forall b :: b in cleanup ==> StrongCount(s.refs, b) == 1)
  {
    SweepContents(s.refs, s.retired, 0, []);
    var (swept, cleanup) := Swept(s);
    assert multiset(s.retired) == multiset(swept.retired) + multiset(cleanup);
  }

  lemma IterateMoves(config: RuntimeConfig, s: Shared, unhealthy: set<nat>, now: nat)
    ensures var (t, cleanup, next) := Iterate(config, s, unhealthy, now);
            && Protected(s) == Protected(t) + multiset(cleanup)
            && (forall b :: b in cleanup ==> StrongCount(s.refs, b) == 1)
  {
    SweptMoves(s);
    var (swept, cleanup) := Swept(s);
    RetireIfMoves(config, swept, swept.stopping);
    var stopped := RetireIf(config, swept, swept.stopping);
    var unfit := stopped.bridge.Some? && !Healthy(stopped, unhealthy);
    RetireIfMoves(config, stopped, unfit);
    var checked := RetireIf(config, stopped, unfit);
    var t := Iterate(config, s, unhealthy, now).0;
    if stopped.stopping && stopped.retired == [] {
      assert t == stopped;
    } else if MayConnect(checked, now) {
      assert t == checked.(connecting := true);
    } else {
      assert t == checked;
    }
    assert Protected(t) == Protected(swept);
  }

  lemma IterateFrame(config: RuntimeConfig, s: Shared, unhealthy: set<nat>, now: nat)
    ensures var (t, cleanup, next) := Iterate(config, s, unhealthy, now);
            && t == s.(bridge := t.bridge, retired := t.retired, identity := t.identity, catalog := t.catalog,
                       generation := t.generation, connecting := t.connecting)
            && (t.bridge == s.bridge || t.bridge.None?)
            && (t.connecting == (s.connecting || next.Connect?))
            && (next.Connect? ==> t.bridge.None? && !s.stopping && next.epoch == s.epoch && s.retry.Remaining(now) == 0)
            && (next.Exit? ==> s.stopping && t.bridge.None? && t.retired == [])
  {
    hide Sweep, CatalogForIdentity, Healthy;
  }

  lemma HeldOnce(w: World, b: Bridge)
    requires Conserved(w) && Held(w)[b] > 0
    ensures Held(w)[b] == 1 && DestroyedBy(w.h.destroyed)[b] == 0 && b in w.h.connected
  {
    assert (Held(w) + DestroyedBy(w.h.destroyed))[b] == multiset(w.h.connected)[b];
  }

  lemma IterationOwned(config: RuntimeConfig, w: World)
    requires Owned(w)
    requires !w.s.connecting && CleanupOf(w.pc) == [] && !Finishing(w.pc) && !w.pc.NotEntered?
    ensures Owned(RunIteration(config, w))
  {
    IterateMoves(config, w.s, w.unhealthy, w.clock);
    IterateFrame(config, w.s, w.unhealthy, w.clock);
    var w' := RunIteration(config, w);
    assert Held(w') == Held(w);
    forall b: Bridge ensures CountedAt(w', b) {
      assert CountedAt(w, b);
      assert Held(w')[b] == Held(w)[b];
      if multiset(CleanupOf(w'.pc))[b] > 0 {
        assert b in CleanupOf(w'.pc);
      }
    }
  }

  lemma EnterOwned(config: RuntimeConfig, w: World)
    requires Owned(w)
    ensures Owned(Step(config, w, EnterWorker))
  {
    if MayEnter(config, w.s) {
      var entered := w.(s := w.s.(workerRunning := true), h := w.h.(entries := w.h.entries + 1));
      IterateMoves(config, entered.s, w.unhealthy, w.clock);
      IterateFrame(config, entered.s, w.unhealthy, w.clock);
      var w' := RunIteration(config, entered);
      assert Held(w') == Held(w);
      forall b: Bridge ensures CountedAt(w', b) {
        assert CountedAt(w, b);
        assert Held(w')[b] == Held(w)[b] == 0;
      }
    }
  }

  /** The state once the worker has dropped the next bridge of its cleanup. */
  function Dropped(w: World): World
    requires w.pc.Dropping? && w.pc.cleanup != []
  {
    DropOne(w, w.pc.cleanup[0], WorkerOutsideLock).(pc := Dropping(w.pc.cleanup[1..], w.pc.next))
  }

  /** A bridge in the cleanup has one reference left, so dropping it destroys it. */
  lemma DropFrame(w: World)
    requires Conserved(w) && Counted(w) && w.pc.Dropping? && w.pc.cleanup != []
    ensures var b, w' := w.pc.cleanup[0], Dropped(w);
            && w' == w.(s := w.s.(refs := w.s.refs - {b.id}), pc := w'.pc,
                        h := w.h.(destroyed := w.h.destroyed + [Destruction(b, WorkerOutsideLock)]))
            && Held(w) == Held(w') + multiset{b} && Conserved(w') && b in w.h.connected && Held(w')[b] == 0
  {
    var b := w.pc.cleanup[0];
    assert w.pc.cleanup == [b] + w.pc.cleanup[1..];
    assert CountedAt(w, b);
    HeldOnce(w, b);
    DestroyedAppend(w.h.destroyed, Destruction(b, WorkerOutsideLock));
    assert Held(w) == Held(Dropped(w)) + multiset{b};
  }

  lemma DropCounted(w: World, w': World, b: Bridge, c: Bridge)
    requires Conserved(w) && Identified(w) && CountedAt(w, c) && b in w.h.connected
    requires Held(w) == Held(w') + multiset{b} && Held(w')[b] == 0
    requires w'.s == w.s.(refs := w.s.refs - {b.id}) && w'.clones == w.clones
    requires CleanupOf(w.pc) == [b] + CleanupOf(w'.pc)
    ensures CountedAt(w', c)
  {
    hide Conserved, SlotOf, DestroyedBy;
    assert Held(w')[c] <= Held(w)[c];
    if Held(w')[c] > 0 {
      HeldOnce(w, c);
      assert c.id != b.id;
    }
  }

  lemma DropPc(w: World)
    requires w.pc.Dropping? && w.pc.cleanup != []
    ensures Dropped(w).pc == Dropping(w.pc.cleanup[1..], w.pc.next)
    ensures CleanupOf(w.pc) == [w.pc.cleanup[0]] + CleanupOf(Dropped(w).pc)
  {
    hide DropOne;
  }

  lemma DropOwned(w: World)
    requires Owned(w)
    requires w.pc.Dropping? && w.pc.cleanup != []
    ensures Owned(Dropped(w))
  {
    hide Dropped, Held, CountedAt, Conserved, CleanupOf;
    DropFrame(w);
    DropPc(w);
    forall c: Bridge ensures CountedAt(Dropped(w), c) {
      DropCounted(w, Dropped(w), w.pc.cleanup[0], c);
    }
  }

  lemma FreshBridge(w: World, b: Bridge)
    requires Owned(w) && b.id == w.nextId
    ensures b !in w.h.connected && Held(w)[b] == 0 && w.clones[b] == 0
  {
    assert CountedAt(w, b);
    if Held(w)[b] > 0 {
      HeldOnce(w, b);
    }
  }

  lemma FailedOwned(config: RuntimeConfig, w: World)
    requires Owned(w) && w.pc.Connecting?
    ensures Owned(RunFinish(config, w, w.pc.epoch, None))
  {
    var w' := RunFinish(config, w, w.pc.epoch, None);
    assert Held(w') == Held(w);
    forall c: Bridge ensures CountedAt(w', c) {
      assert CountedAt(w, c);
    }
  }

  /** What a successful attempt adds: one protected bridge, referenced once. */
  lemma FinishProtects(config: RuntimeConfig, s: Shared, epoch: nat, bridge: Bridge, now: nat)
    requires s.bridge.None?
    ensures var t := FinishConnect(config, s, epoch, Some(bridge), now);
            && t.refs == s.refs[bridge.id := 1]
            && Protected(t) == Protected(s) + multiset{bridge}
            && !t.connecting && t.workerRunning == s.workerRunning
  {
    var owned := Allocate(RecordAttempt(s, now), bridge);
    assert owned.bridge == s.bridge && owned.retired == s.retired;
    if owned.stopping || owned.epoch != epoch {
      assert Protected(Discard(owned, bridge)) == Protected(s) + multiset{bridge};
    } else {
      assert Protected(Publish(config, owned, bridge)) == Protected(s) + multiset{bridge};
    }
  }

  lemma FinishRecords(config: RuntimeConfig, w: World, epoch: nat, info: SessionInfo)
    requires w.s.bridge.None?
    ensures var w' := RunFinish(config, w, epoch, Some(info));
            var b := Bridge(w.nextId, info);
            && w'.s == FinishConnect(config, w.s, epoch, Some(b), w.clock)
            && w'.clones == w.clones && w'.nextId == w.nextId + 1 && w'.pc == Resuming
            && w'.h.destroyed == w.h.destroyed && w'.h.connected == w.h.connected + {b} && w'.h.entries == w.h.entries
  {}

  /** The counts once bridge `b` was connected and is protected by the lock. */
  lemma ConnectedCounted(w: World, w': World, b: Bridge, c: Bridge)
    requires Owned(w) && b.id == w.nextId && CleanupOf(w.pc) == CleanupOf(w'.pc) == []
    requires w'.s.refs == w.s.refs[b.id := 1] && w'.clones == w.clones
    requires Protected(w'.s) == Protected(w.s) + multiset{b}
    ensures CountedAt(w', c)
  {
    FreshBridge(w, b);
    assert CountedAt(w, c);
    assert Protected(w'.s)[c] == Protected(w.s)[c] + multiset{b}[c];
    if c != b && Held(w)[c] > 0 {
      HeldOnce(w, c);
    }
  }

  lemma ConnectedOwned(config: RuntimeConfig, w: World, info: SessionInfo)
    requires Owned(w) && w.pc.Connecting?
    ensures Owned(RunFinish(config, w, w.pc.epoch, Some(info)))
  {
    hide RunFinish, CountedAt, FinishConnect;
    var b := Bridge(w.nextId, info);
    FinishProtects(config, w.s, w.pc.epoch, b, w.clock);
    FinishRecords(config, w, w.pc.epoch, info);
    var w' := RunFinish(config, w, w.pc.epoch, Some(info));
    FreshBridge(w, b);
    assert Held(w') == Held(w) + multiset{b};
    assert multiset(w'.h.connected) == multiset(w.h.connected) + multiset{b};
    forall c: Bridge ensures CountedAt(w', c) {
      ConnectedCounted(w, w', b, c);
    }
  }

  lemma BeginOwned(config: RuntimeConfig, w: World, profile: Profile)
    requires Owned(w)
    ensures Owned(Step(config, w, BeginOperation(profile)))
  {
    var w' := Step(config, w, BeginOperation(profile));
    if SelectBridge(config, w.s, w.unhealthy, profile).Ok? {
      var b := w.s.bridge.value;
      assert Held(w') == Held(w);
      HeldOnce(w, b);
      assert CountedAt(w, b);
      forall c: Bridge ensures CountedAt(w', c) {
        assert CountedAt(w, c);
        if c != b && Held(w)[c] > 0 {
          HeldOnce(w, c);
        }
      }
    }
  }

  /** Conservation speaks of the places of bridges only. */
  lemma SameConserved(w: World, w': World)
    requires Conserved(w) && w'.h.destroyed == w.h.destroyed && w'.h.connected == w.h.connected
    requires SlotOf(w'.s) == SlotOf(w.s) && w'.s.retired == w.s.retired && w'.pc == w.pc
    ensures Conserved(w')
  {}

  lemma CloneCounted(w: World, bridge: Bridge)
    requires Conserved(w) && CountedAt(w, bridge) && bridge in w.clones
    ensures bridge.id in w.s.refs && w.s.refs[bridge.id] >= 2 && Held(w)[bridge] == 1
  {
    hide Conserved;
    HeldOnce(w, bridge);
  }

  /** An operation's clone is never the last reference: only a count goes down. */
  lemma EndFrame(config: RuntimeConfig, w: World, bridge: Bridge)
    requires Owned(w) && bridge in w.clones
    ensures StrongCount(w.s.refs, bridge) >= 2
    ensures bridge.id in w.s.refs && w.s.refs[bridge.id] >= 2 && Held(w)[bridge] == 1
    ensures Step(config, w, EndOperation(bridge))
         == w.(s := w.s.(refs := w.s.refs[bridge.id := w.s.refs[bridge.id] - 1]), clones := w.clones - multiset{bridge})
  {
    hide Conserved, CountedAt, Held, Identified, DestroyedByWorker, Phased;
    assert CountedAt(w, bridge);
    CloneCounted(w, bridge);
  }

  lemma EndCounted(w: World, w': World, bridge: Bridge, c: Bridge)
    requires Owned(w) && bridge in w.clones && bridge.id in w.s.refs && w.s.refs[bridge.id] >= 2 && Held(w)[bridge] == 1
    requires w' == w.(s := w.s.(refs := w.s.refs[bridge.id := w.s.refs[bridge.id] - 1]), clones := w.clones - multiset{bridge})
    ensures CountedAt(w', c)
  {
    hide Conserved;
    assert CountedAt(w, c);
    assert Held(w') == Held(w);
    HeldOnce(w, bridge);
    if c != bridge && Held(w)[c] > 0 {
      HeldOnce(w, c);
    }
  }

  lemma EndedOwned(w: World, w': World, bridge: Bridge)
    requires Owned(w) && bridge in w.clones && bridge.id in w.s.refs && w.s.refs[bridge.id] >= 2 && Held(w)[bridge] == 1
    requires w' == w.(s := w.s.(refs := w.s.refs[bridge.id := w.s.refs[bridge.id] - 1]), clones := w.clones - multiset{bridge})
    ensures Owned(w')
  {
    hide Conserved, Held, CountedAt;
    SameConserved(w, w');
    forall c: Bridge ensures CountedAt(w', c) {
      EndCounted(w, w', bridge, c);
    }
  }

  lemma EndOwned(config: RuntimeConfig, w: World, bridge: Bridge)
    requires Owned(w)
    ensures Owned(Step(config, w, EndOperation(bridge)))
    ensures bridge in w.clones ==> StrongCount(w.s.refs, bridge) >= 2
    ensures Step(config, w, EndOperation(bridge)).h.destroyed == w.h.destroyed
  {
    hide Conserved, Held, DropOne, CountedAt, Identified, DestroyedByWorker, Phased;
    if bridge in w.clones {
      EndFrame(config, w, bridge);
      EndedOwned(w, Step(config, w, EndOperation(bridge)), bridge);
    }
  }

  lemma ClearOwned(config: RuntimeConfig, w: World)
    requires Owned(w)
    ensures Owned(Step(config, w, ClearBridge))
  {
    RetireMoves(config, BumpEpoch(w.s));
    var w' := Step(config, w, ClearBridge);
    assert Held(w') == Held(w);
    forall c: Bridge ensures CountedAt(w', c) {
      assert CountedAt(w, c);
    }
  }

  lemma DisconnectOwned(config: RuntimeConfig, w: World, bridge: Bridge)
    requires Owned(w)
    ensures Owned(Step(config, w, DisconnectOperation(bridge)))
  {
    var w' := Step(config, w, DisconnectOperation(bridge));
    if bridge in w.clones && w.s.bridge.Some? && w.s.bridge.value.id == bridge.id {
      assert w' == Step(config, w, ClearBridge);
      ClearOwned(config, w);
    } else {
      assert w' == w;
    }
  }

  /** Two worlds that agree on ownership are owned alike. */
  lemma SameOwned(w: World, w': World)
    requires Owned(w)
    requires w'.clones == w.clones && w'.nextId == w.nextId && w'.pc == w.pc
    requires w'.h == w.h.(bumps := w'.h.bumps, publishes := w'.h.publishes, retirements := w'.h.retirements)
    requires w.s.stopping ==> w'.s.stopping
    requires w'.s == w.s.(epoch := w'.s.epoch, stopping := w'.s.stopping)
    ensures Owned(w')
  {
    assert Held(w') == Held(w);
    forall c: Bridge ensures CountedAt(w', c) {
      assert CountedAt(w, c);
    }
  }

  lemma WorkerStepOwned(config: RuntimeConfig, w: World, result: Option<SessionInfo>)
    requires Owned(w)
    ensures Owned(StepWorker(config, w, result))
  {
    match w.pc {
      case NotEntered =>
      case Exited =>
      case Dropping(cleanup, next) =>
        if cleanup != [] { DropOwned(w); } else { MoveOwned(w, AfterCleanup(next)); }
      case Connecting(epoch) =>
        if result.None? { FailedOwned(config, w); } else { ConnectedOwned(config, w, result.value); }
      case Rechecking =>
        if w.s.stopping && w.s.retired == [] { IterationOwned(config, w); } else { MoveOwned(w, Waiting); }
      case Resuming => IterationOwned(config, w);
      case Waiting => IterationOwned(config, w);
      case Leaving => LeaveOwned(config, w);
    }
  }

  lemma LeaveOwned(config: RuntimeConfig, w: World)
    requires Owned(w) && w.pc.Leaving?
    ensures Owned(StepWorker(config, w, None))
  {
    var w' := StepWorker(config, w, None);
    assert Held(w') == Held(w);
    forall c: Bridge ensures CountedAt(w', c) {
      assert CountedAt(w, c);
    }
  }

  lemma MoveOwned(w: World, pc: WorkerPc)
    requires Owned(w)
    requires CleanupOf(w.pc) == CleanupOf(pc) == []
    requires Attempting(pc) == Attempting(w.pc) && Finishing(pc) == Finishing(w.pc)
    requires !pc.NotEntered? && !pc.Exited? && !w.pc.NotEntered? && !w.pc.Exited?
    ensures Owned(w.(pc := pc))
  {
    assert Held(w.(pc := pc)) == Held(w);
    forall c: Bridge ensures CountedAt(w.(pc := pc), c) {
      assert CountedAt(w, c);
    }
  }

  lemma StepOwned(config: RuntimeConfig, w: World, event: Event)
    requires Owned(w)
    ensures Owned(Step(config, w, event))
  {
    hide Owned, StepWorker, RunIteration, DropOne, SelectBridge, Retire, ClearIfCurrent;
    match event
    case EnterWorker => EnterOwned(config, w);
    case WorkerStep(result) => WorkerStepOwned(config, w, result);
    case Tick(elapsed) => SameHeld(w, w.(clock := w.clock + elapsed));
    case BridgeFails(id) => SameHeld(w, w.(unhealthy := w.unhealthy + {id}));
    case BeginOperation(profile) => BeginOwned(config, w, profile);
    case DisconnectOperation(bridge) => DisconnectOwned(config, w, bridge);
    case EndOperation(bridge) => EndOwned(config, w, bridge);
    case ClearBridge => ClearOwned(config, w);
    case RequestWorkerStop => SameOwned(w, Step(config, w, event));
  }

  lemma SameHeld(w: World, w': World)
    requires Owned(w) && w' == w.(clock := w'.clock, unhealthy := w'.unhealthy)
    ensures Owned(w')
  {
    assert Held(w') == Held(w);
    forall c: Bridge ensures CountedAt(w', c) {
      assert CountedAt(w, c);
    }
  }

  lemma {:induction false} RunKeepsOwned(config: RuntimeConfig, w: World, events: seq<Event>)
    requires Owned(w)
    ensures Owned(Run(config, w, events))
  {
    if events != [] {
      RunKeepsOwned(config, w, events[..|events| - 1]);
      StepOwned(config, Run(config, w, events[..|events| - 1]), events[|events| - 1]);
    }
  }

  lemma RunOwned(config: RuntimeConfig, events: seq<Event>)
    ensures Owned(Run(config, InitialWorld(config), events))
  {
    RunKeepsOwned(config, InitialWorld(config), events);
  }

  // ------------------------------------------------------------ main results

  /** Every bridge ever connected is in exactly one of slot, retired list, worker
      cleanup and destroyed; nothing else is in any of them. */
  lemma {:induction false} ExactlyOnePlace(config: RuntimeConfig, events: seq<Event>, b: Bridge)
    ensures var w := Run(config, InitialWorld(config), events);
            SlotOf(w.s)[b] + multiset(w.s.retired)[b] + multiset(CleanupOf(w.pc))[b] + DestroyedBy(w.h.destroyed)[b]
            == (if b in w.h.connected then 1 else 0)
  {
    RunOwned(config, events);
    var w := Run(config, InitialWorld(config), events);
    assert (Held(w) + DestroyedBy(w.h.destroyed))[b] == multiset(w.h.connected)[b];
  }

  /** Only the worker destroys bridges, and only outside the lock; and an operation
      that is about to drop its clone is never the last owner. */
  lemma {:induction false} OnlyWorkerDestroys(config: RuntimeConfig, events: seq<Event>)
    ensures var w := Run(config, InitialWorld(config), events);
            && (forall d :: d in w.h.destroyed ==> d.dropper == WorkerOutsideLock)
            && (forall b :: b in w.clones ==> StrongCount(w.s.refs, b) >= 2 && DestroyedBy(w.h.destroyed)[b] == 0)
            && (forall b :: b in w.clones ==> Step(config, w, EndOperation(b)).h.destroyed == w.h.destroyed)
  {
    RunOwned(config, events);
    var w := Run(config, InitialWorld(config), events);
    forall b | b in w.clones
      ensures StrongCount(w.s.refs, b) >= 2 && DestroyedBy(w.h.destroyed)[b] == 0
      ensures Step(config, w, EndOperation(b)).h.destroyed == w.h.destroyed
    {
      assert CountedAt(w, b);
      HeldOnce(w, b);
      EndOwned(config, w, b);
    }
  }

  /** However often the worker's entry point is called, one call gets past it, so at
      most one attempt is ever in flight; and its result finds the slot empty. */
  lemma {:induction false} OneWorkerOneAttempt(config: RuntimeConfig, events: seq<Event>)
    ensures var w := Run(config, InitialWorld(config), events);
            && w.h.entries <= 1
            && (w.s.connecting <==> Attempting(w.pc))
            && (Attempting(w.pc) ==> w.s.bridge.None?)
            && (MayEnter(config, w.s) ==> w.pc.NotEntered?)
  {
    RunOwned(config, events);
  }
}

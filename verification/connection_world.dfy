/** The connection worker among everything that runs beside it: each event is one
    lock-held region, or one action outside the lock, of one thread. */
module ConnectionWorld {
  import opened Wrappers
  import opened Identity
  import opened ConnectionState

  /** Where the worker thread is between its lock-held regions. */
  datatype WorkerPc =
    | NotEntered
    | Dropping(cleanup: seq<Bridge>, next: AfterIteration)
    | Connecting(epoch: nat)
    | Resuming
    | Rechecking
    | Waiting
    | Leaving
    | Exited

  /** Who dropped the last reference to a bridge. */
  datatype Destroyer = WorkerOutsideLock | WorkerHoldingLock | Operation

  datatype Destruction = Destruction(bridge: Bridge, dropper: Destroyer)

  datatype Outcome = Published(info: SessionInfo) | Discarded | Failed

  /** One finished connection attempt. `startBumps` and `endBumps` count the clears
      and stops before its start and its end; `interval` is the wait it was given. */
  datatype Attempt = Attempt(
    start: nat, end: nat, startBumps: nat, endBumps: nat, stopping: bool, outcome: Outcome, interval: nat)

  /** What happened so far; no step of the program reads it. */
  datatype History = History(
    connected: set<Bridge>,
    destroyed: seq<Destruction>,
    bumps: nat,
    publishes: nat,
    retirements: nat,
    entries: nat,
    attemptStart: nat,
    attemptBumps: nat,
    log: seq<Attempt>)

  datatype World = World(
    s: Shared,
    pc: WorkerPc,
    clones: multiset<Bridge>,
    unhealthy: set<nat>,
    clock: nat,
    nextId: nat,
    h: History)

  datatype Event =
    | EnterWorker
    | WorkerStep(result: Option<SessionInfo>)
    | Tick(elapsed: nat)
    | BridgeFails(id: nat)
    | BeginOperation(profile: Profile)
    | DisconnectOperation(bridge: Bridge)
    | EndOperation(bridge: Bridge)
    | ClearBridge
    | RequestWorkerStop

  function InitialWorld(config: RuntimeConfig): World {
    World(Initial(config), NotEntered, multiset{}, {}, 0, 0, History({}, [], 0, 0, 0, 0, 0, 0, []))
  }

  /** Replaces the shared state and counts what its slot went through. */
  function WithShared(w: World, s: Shared): World {
    var published := if w.s.bridge.None? && s.bridge.Some? then 1 else 0;
    var retired := if w.s.bridge.Some? && s.bridge.None? then 1 else 0;
    w.(s := s, h := w.h.(publishes := w.h.publishes + published, retirements := w.h.retirements + retired))
  }

  function CountBump(w: World): World {
    w.(h := w.h.(bumps := w.h.bumps + 1))
  }

  function DropOne(w: World, bridge: Bridge, dropper: Destroyer): World {
    var (s, last) := DropReference(w.s, bridge);
    var dropped := w.(s := s);
    if last then dropped.(h := w.h.(destroyed := w.h.destroyed + [Destruction(bridge, dropper)])) else dropped
  }

  /** Dropping a reference changes the counts and, for the last one, the destroyed. */
  lemma DropOneFrame(w: World, bridge: Bridge, dropper: Destroyer)
    ensures var w' := DropOne(w, bridge, dropper);
            w' == w.(s := w.s.(refs := w'.s.refs), h := w.h.(destroyed := w'.h.destroyed))
  {
    hide StrongCount;
  }

  lemma SameShared(w: World)
    ensures WithShared(w, w.s) == w
  {}

  function RunIteration(config: RuntimeConfig, w: World): World {
    var (s, cleanup, next) := Iterate(config, w.s, w.unhealthy, w.clock);
    var after := WithShared(w, s).(pc := Dropping(cleanup, next));
    if next.Connect? then after.(h := after.h.(attemptStart := w.clock, attemptBumps := w.h.bumps)) else after
  }

  function AfterCleanup(next: AfterIteration): WorkerPc {
    match next
    case Exit => Leaving
    case Connect(epoch) => Connecting(epoch)
    case Wait => Rechecking
  }

  function OutcomeOf(before: Shared, epoch: nat, result: Option<SessionInfo>): Outcome {
    match result
    case None => Failed
    case Some(info) => if before.stopping || before.epoch != epoch then Discarded else Published(info)
  }

  /** `connect` has returned and the worker has taken the lock again. Storing into
      an occupied slot would drop the old bridge while the lock is held. */
  function RunFinish(config: RuntimeConfig, w: World, epoch: nat, result: Option<SessionInfo>): World {
    var outcome := OutcomeOf(w.s, epoch, result);
    var attempt := Attempt(w.h.attemptStart, w.clock, w.h.attemptBumps, w.h.bumps, w.s.stopping, outcome, w.s.reconnectInterval);
    var freed := if outcome.Published? && w.s.bridge.Some? then DropOne(w, w.s.bridge.value, WorkerHoldingLock) else w;
    var bridge := if result.Some? then Some(Bridge(w.nextId, result.value)) else None;
    var after := WithShared(freed, FinishConnect(config, freed.s, epoch, bridge, w.clock));
    var connected := if bridge.Some? then after.h.connected + {bridge.value} else after.h.connected;
    after.(pc := Resuming,
           nextId := if bridge.Some? then w.nextId + 1 else w.nextId,
           h := after.h.(connected := connected, log := after.h.log + [attempt]))
  }

  function StepWorker(config: RuntimeConfig, w: World, result: Option<SessionInfo>): World {
    match w.pc
    case NotEntered => w
    case Exited => w
    case Dropping(cleanup, next) =>
      if cleanup == [] then w.(pc := AfterCleanup(next))
      else DropOne(w, cleanup[0], WorkerOutsideLock).(pc := Dropping(cleanup[1..], next))
    case Connecting(epoch) => RunFinish(config, w, epoch, result)
    case Rechecking => if w.s.stopping && w.s.retired == [] then RunIteration(config, w) else w.(pc := Waiting)
    case Resuming => RunIteration(config, w)
    case Waiting => RunIteration(config, w)
    case Leaving => WithShared(w, w.s.(workerRunning := false)).(pc := Exited)
  }

  predicate MayEnter(config: RuntimeConfig, s: Shared) {
    config.hostBridgeEnabled && !s.workerRunning && !s.stopping
  }

  /** One event; an event that cannot happen in `w` leaves it as it is. */
  function Step(config: RuntimeConfig, w: World, event: Event): World {
    match event
    case EnterWorker =>
      if !MayEnter(config, w.s) then w
      else
        var entered := w.(s := w.s.(workerRunning := true), h := w.h.(entries := w.h.entries + 1));
        RunIteration(config, entered)
    case WorkerStep(result) => StepWorker(config, w, result)
    case Tick(elapsed) => w.(clock := w.clock + elapsed)
    case BridgeFails(id) => w.(unhealthy := w.unhealthy + {id})
    case BeginOperation(profile) =>
      if SelectBridge(config, w.s, w.unhealthy, profile).Err? then w
      else w.(s := CloneBridge(w.s), clones := w.clones + multiset{w.s.bridge.value})
    case DisconnectOperation(bridge) =>
      if bridge !in w.clones then w
      else
        var cleared := WithShared(w, ClearIfCurrent(config, w.s, bridge));
        if w.s.bridge.Some? && w.s.bridge.value.id == bridge.id then CountBump(cleared) else cleared
    case EndOperation(bridge) =>
      if bridge !in w.clones then w
      else DropOne(w, bridge, Operation).(clones := w.clones - multiset{bridge})
    case ClearBridge => CountBump(WithShared(w, Clear(config, w.s)))
    case RequestWorkerStop => CountBump(WithShared(w, RequestStop(w.s)))
  }

  function Run(config: RuntimeConfig, w: World, events: seq<Event>): World {
    if events == [] then w
    else Step(config, Run(config, w, events[..|events| - 1]), events[|events| - 1])
  }
}

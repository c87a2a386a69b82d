/** The connection worker keeps trying: exactly when it begins an attempt, and that one
    always comes once it is due (guest_driver/runtime.rs). */
module ConnectionProgress {
  import opened Wrappers
  import opened ConnectionState
  import opened ConnectionWorld
  import opened ConnectionOwnership
  import opened ConnectionFrames
  import opened ConnectionPacing
  import opened ConnectionShutdown

  /** No attempt was made yet, the last one was published, or the wait after it is over. */
  predicate Due(log: seq<Attempt>, clock: nat) {
    log == [] || log[|log| - 1].outcome.Published? || log[|log| - 1].end + log[|log| - 1].interval <= clock
  }

  /** The slot is empty or its bridge has failed. */
  predicate NeedsBridge(w: World) {
    w.s.bridge.None? || w.s.bridge.value.id in w.unhealthy
  }

  /** The worker takes the lock for another pass through its loop. */
  predicate AtLoopTop(w: World) {
    w.pc.Resuming? || w.pc.Waiting?
  }

  lemma DueWhenNothingRemains(config: RuntimeConfig, w: World)
    requires Paced(config, w)
    ensures w.s.retry.Remaining(w.clock) == 0 <==> Due(w.h.log, w.clock)
  {
    hide GoodLog, InFlight, IntervalInForce;
  }

  lemma RetireIfFrame(config: RuntimeConfig, s: Shared, retire: bool)
    ensures var t := RetireIf(config, s, retire);
            && t.bridge == (if retire then None else s.bridge)
            && t.stopping == s.stopping && t.connecting == s.connecting && t.retry == s.retry
  {
    hide CatalogForIdentity;
  }

  lemma IterationConnects(config: RuntimeConfig, s: Shared, unhealthy: set<nat>, now: nat)
    requires !s.stopping && !s.connecting
    ensures var (t, cleanup, next) := Iterate(config, s, unhealthy, now);
            && (next.Connect? <==> (s.bridge.None? || s.bridge.value.id in unhealthy) && s.retry.Remaining(now) == 0)
            && t.bridge == (if s.bridge.Some? && s.bridge.value.id !in unhealthy then s.bridge else None)
            && !next.Exit?
  {
    hide Sweep, RetireIf;
    var (swept, cleanup) := Swept(s);
    RetireIfFrame(config, swept, swept.stopping);
    var stopped := RetireIf(config, swept, swept.stopping);
    RetireIfFrame(config, stopped, stopped.bridge.Some? && !Healthy(stopped, unhealthy));
  }

  /** What one pass of a worker that is not stopping comes to. */
  lemma PassConnects(config: RuntimeConfig, w: World)
    requires Paced(config, w) && !w.s.stopping && !w.s.connecting
    ensures var w' := RunIteration(config, w);
            && (Attempting(w'.pc) <==> NeedsBridge(w) && Due(w.h.log, w.clock))
            && w'.s.bridge == (if NeedsBridge(w) then None else w.s.bridge)
            && (Attempting(w'.pc) ==> w'.h.attemptStart == w.clock) && w'.pc.Dropping? && !w'.pc.next.Exit?
            && w'.h.log == w.h.log
  {
    hide Iterate, Paced;
    IterationConnects(config, w.s, w.unhealthy, w.clock);
    DueWhenNothingRemains(config, w);
  }

  lemma Reached(config: RuntimeConfig, events: seq<Event>)
    ensures Paced(config, Run(config, InitialWorld(config), events)) && Owned(Run(config, InitialWorld(config), events))
  {
    RunPaced(config, events);
    RunOwned(config, events);
  }

  /** In every run, a worker at the top of its loop that is not stopping begins an
      attempt with its next step iff there is no healthy bridge and none is too early:
      the first one, one after a published one, or one whose wait is over. A healthy
      bridge stays published and a failed one does not. */
  lemma {:induction false} AttemptBeginsIff(config: RuntimeConfig, events: seq<Event>, result: Option<SessionInfo>)
    requires var w := Run(config, InitialWorld(config), events);
             AtLoopTop(w) && !w.s.stopping
    ensures var w := Run(config, InitialWorld(config), events);
            var w' := Step(config, w, WorkerStep(result));
            && (Attempting(w'.pc) <==> NeedsBridge(w) && Due(w.h.log, w.clock))
            && (Attempting(w'.pc) ==> w'.h.attemptStart == w.clock)
            && w'.s.bridge == (if NeedsBridge(w) then None else w.s.bridge)
  {
    hide Paced, RunIteration, Run;
    Reached(config, events);
    PassConnects(config, Run(config, InitialWorld(config), events));
  }

  /** The worker's entry begins the first attempt at once, if bridges are enabled and
      nothing has stopped the worker before. */
  lemma {:induction false} EntryConnects(config: RuntimeConfig, events: seq<Event>)
    requires Run(config, InitialWorld(config), events).pc.NotEntered?
    ensures var w := Run(config, InitialWorld(config), events);
            Attempting(Step(config, w, EnterWorker).pc) <==> config.hostBridgeEnabled && !w.s.stopping
  {
    hide Paced, RunIteration, Run;
    Reached(config, events);
    var w := Run(config, InitialWorld(config), events);
    if MayEnter(config, w.s) {
      var entered := w.(s := w.s.(workerRunning := true), h := w.h.(entries := w.h.entries + 1));
      QuietPaced(config, w, entered);
      PassConnects(config, entered);
    }
  }

  // ------------------------------------------------------------ an attempt comes

  /** An attempt is due and wanted, and the worker is there to make it. */
  predicate Ripe(w: World) {
    && !w.s.stopping && NeedsBridge(w) && Due(w.h.log, w.clock)
    && !w.pc.NotEntered? && !w.pc.Exited? && !w.pc.Leaving?
  }

  /** Worker steps until a ripe attempt begins. */
  function StepsToAttempt(pc: WorkerPc): nat {
    match pc
    case Dropping(cleanup, Connect(_)) => 0
    case Connecting(_) => 0
    case Dropping(cleanup, _) => |cleanup| + 3
    case Rechecking => 2
    case _ => 1
  }

  /** The attempts begun so far. */
  ghost function Begun(w: World): nat {
    |w.h.log| + (if Attempting(w.pc) then 1 else 0)
  }

  lemma BegunIteration(config: RuntimeConfig, w: World)
    requires !Attempting(w.pc)
    ensures Begun(RunIteration(config, w)) >= Begun(w)
  {
    hide Iterate;
  }

  lemma BegunFinish(config: RuntimeConfig, w: World, result: Option<SessionInfo>)
    requires w.pc.Connecting?
    ensures Begun(RunFinish(config, w, w.pc.epoch, result)) == Begun(w)
  {}

  lemma BegunWorker(config: RuntimeConfig, w: World, result: Option<SessionInfo>)
    ensures Begun(StepWorker(config, w, result)) >= Begun(w)
  {
    hide RunIteration, RunFinish, DropOne;
    if w.pc.Connecting? {
      BegunFinish(config, w, result);
    } else if Iterating(w) {
      BegunIteration(config, w);
    } else if w.pc.Dropping? && w.pc.cleanup != [] {
      DropOneFrame(w, w.pc.cleanup[0], WorkerOutsideLock);
    }
  }

  lemma BegunOther(config: RuntimeConfig, w: World, event: Event)
    requires Phased(w) && !event.WorkerStep?
    ensures Begun(Step(config, w, event)) >= Begun(w)
  {
    hide RunIteration, DropOne, SelectBridge, Retire;
    if event.EnterWorker? && MayEnter(config, w.s) {
      BegunIteration(config, w.(s := w.s.(workerRunning := true), h := w.h.(entries := w.h.entries + 1)));
    } else if event.EndOperation? {
      DropOneFrame(w, event.bridge, Operation);
    }
  }

  /** Attempts begun stay begun. */
  lemma BegunStep(config: RuntimeConfig, w: World, event: Event)
    requires Phased(w)
    ensures Begun(Step(config, w, event)) >= Begun(w)
  {
    hide StepWorker, Step, Begun;
    if event.WorkerStep? {
      assert Step(config, w, event) == StepWorker(config, w, event.result) by { WorkerEvent(config, w, event); }
      BegunWorker(config, w, event.result);
    } else {
      BegunOther(config, w, event);
    }
  }

  lemma WorkerEvent(config: RuntimeConfig, w: World, event: Event)
    requires event.WorkerStep?
    ensures Step(config, w, event) == StepWorker(config, w, event.result)
  {
    hide StepWorker;
  }

  /** A step of the worker brings a ripe attempt nearer, or begins it. */
  lemma WorkerNears(config: RuntimeConfig, w: World, result: Option<SessionInfo>)
    requires Paced(config, w) && Phased(w) && Ripe(w) && !Attempting(w.pc)
    ensures var w' := StepWorker(config, w, result);
            && w'.h.log == w.h.log
            && (Attempting(w'.pc) || (Ripe(w') && StepsToAttempt(w'.pc) < StepsToAttempt(w.pc)))
  {
    hide Paced, RunIteration, RunFinish, DropOne;
    if AtLoopTop(w) {
      PassConnects(config, w);
    } else if w.pc.Dropping? && w.pc.cleanup != [] {
      DropOneFrame(w, w.pc.cleanup[0], WorkerOutsideLock);
    }
  }

  /** What others do leaves a ripe attempt ripe: only the slot's bridge can go. */
  lemma OthersKeepRipe(config: RuntimeConfig, w: World, event: Event)
    requires Phased(w) && Ripe(w) && !event.WorkerStep? && !event.RequestWorkerStop?
    ensures Ripe(Step(config, w, event)) && Step(config, w, event).pc == w.pc
  {
    hide DropOne, RunIteration, SelectBridge, CatalogForIdentity;
    if event.EndOperation? {
      DropOneFrame(w, event.bridge, Operation);
    }
  }

  predicate NoStop(events: seq<Event>) {
    RequestWorkerStop !in events
  }

  lemma {:induction false} RipeRun(config: RuntimeConfig, events: seq<Event>, more: seq<Event>)
    requires var w := Run(config, InitialWorld(config), events);
             Ripe(w) && !Attempting(w.pc) && NoStop(more)
    ensures var w := Run(config, InitialWorld(config), events);
            var w' := Run(config, w, more);
            && Begun(w') >= Begun(w)
            && (|| Begun(w') > Begun(w)
                || (Ripe(w') && !Attempting(w'.pc) && StepsToAttempt(w'.pc) + WorkerSteps(more) <= StepsToAttempt(w.pc)))
    decreases more
  {
    hide Ripe, StepsToAttempt, Step, Begun;
    var w := Run(config, InitialWorld(config), events);
    if more != [] {
      var before, event := more[..|more| - 1], more[|more| - 1];
      RipeRun(config, events, before);
      RunAppend(config, InitialWorld(config), events, before);
      Reached(config, events + before);
      RipeStep(config, Run(config, w, before), event);
    }
  }

  lemma RipeStep(config: RuntimeConfig, middle: World, event: Event)
    requires Paced(config, middle) && Phased(middle) && !event.RequestWorkerStop?
    ensures Begun(Step(config, middle, event)) >= Begun(middle)
    ensures var w' := Step(config, middle, event);
            Ripe(middle) && !Attempting(middle.pc) ==>
              || Begun(w') > Begun(middle)
              || (Ripe(w') && !Attempting(w'.pc)
                  && StepsToAttempt(w'.pc) + (if event.WorkerStep? then 1 else 0) <= StepsToAttempt(middle.pc))
  {
    hide Ripe, StepsToAttempt, Step, StepWorker, Paced, Phased;
    BegunStep(config, middle, event);
    if Ripe(middle) && !Attempting(middle.pc) {
      if event.WorkerStep? {
        WorkerEvent(config, middle, event);
        WorkerNears(config, middle, event.result);
      } else {
        OthersKeepRipe(config, middle, event);
      }
    }
  }

  lemma NoStepLeft(pc: WorkerPc)
    ensures StepsToAttempt(pc) == 0 <==> Attempting(pc)
  {}

  /** In every run, once a due attempt is wanted, enough worker steps put one in flight,
      whatever operations, disconnects and clears come in between, short of a stop. */
  lemma {:induction false} AttemptComes(config: RuntimeConfig, events: seq<Event>, more: seq<Event>)
    requires var w := Run(config, InitialWorld(config), events);
             Ripe(w) && !Attempting(w.pc) && NoStop(more) && WorkerSteps(more) >= StepsToAttempt(w.pc)
    ensures var w := Run(config, InitialWorld(config), events);
            Begun(Run(config, w, more)) > Begun(w)
  {
    hide Ripe, Begun, Step, Run;
    RipeRun(config, events, more);
    NoStepLeft(Run(config, Run(config, InitialWorld(config), events), more).pc);
  }
}

/** Stopping the connection worker: nothing new starts, and the worker reaches its
    exit with nothing left to destroy (guest_driver/runtime.rs). */
module ConnectionShutdown {
  import opened Wrappers
  import opened ConnectionState
  import opened ConnectionWorld
  import opened ConnectionOwnership

  /** No bridge is published and none can be: what remains is to be destroyed. */
  ghost predicate Drained(w: World) {
    w.s.stopping && w.s.bridge.None? && !Attempting(w.pc)
  }

  /** Worker steps until a stopping runtime is drained. */
  function StepsToDrain(w: World): nat {
    if w.pc.Dropping? && w.pc.next.Connect? then |w.pc.cleanup| + 2
    else if w.pc.Connecting? then 1
    else if w.s.bridge.None? then 0
    else
      match w.pc
      case Dropping(cleanup, _) => |cleanup| + 3
      case Rechecking => 2
      case _ => 1
  }

  /** Worker steps until a drained runtime without running operations has no worker. */
  function StepsToExit(w: World): nat {
    match w.pc
    case NotEntered => 0
    case Exited => 0
    case Leaving => 1
    case Dropping(cleanup, next) => |cleanup| + (if next.Exit? then 2 else 5 + |w.s.retired|)
    case Rechecking => 4 + |w.s.retired|
    case _ => 3 + |w.s.retired|
  }

  function WorkerSteps(events: seq<Event>): nat {
    if events == [] then 0
    else WorkerSteps(events[..|events| - 1]) + (if events[|events| - 1].WorkerStep? then 1 else 0)
  }

  lemma StoppedIteration(config: RuntimeConfig, w: World)
    requires w.s.stopping
    ensures var w' := RunIteration(config, w);
            w'.s.stopping && !Attempting(w'.pc) && w'.h.log == w.h.log && w'.clones == w.clones && w'.s.bridge.None?
  {
    IterateFrame(config, w.s, w.unhealthy, w.clock);
    StoppingIterationDrains(config, w.s, w.unhealthy, w.clock);
  }

  lemma StoppedWorker(config: RuntimeConfig, w: World, result: Option<SessionInfo>)
    requires w.s.stopping && !Attempting(w.pc)
    ensures var w' := StepWorker(config, w, result);
            && w'.s.stopping && !Attempting(w'.pc) && w'.h.log == w.h.log && w'.clones == w.clones
            && (w.s.bridge.None? ==> w'.s.bridge.None?)
  {
    hide RunIteration, RunFinish, DropOne;
    if w.pc.Resuming? || w.pc.Waiting? || w.pc.Rechecking? {
      StoppedIteration(config, w);
    } else if w.pc.Dropping? && w.pc.cleanup != [] {
      DropOneFrame(w, w.pc.cleanup[0], WorkerOutsideLock);
    }
  }

  lemma StoppedClear(config: RuntimeConfig, w: World, event: Event)
    requires w.s.stopping && (event.ClearBridge? || event.DisconnectOperation?)
    ensures var w' := Step(config, w, event);
            && w'.s.stopping && w'.pc == w.pc && w'.h.log == w.h.log
            && (w.s.bridge.None? ==> w'.s.bridge.None?)
  {
    var cleared := Clear(config, w.s);
    assert cleared.stopping && cleared.bridge.None?;
  }

  lemma StoppedOthers(config: RuntimeConfig, w: World, event: Event)
    requires w.s.stopping && !event.WorkerStep?
    ensures var w' := Step(config, w, event);
            && w'.s.stopping && w'.pc == w.pc && w'.h.log == w.h.log
            && (w.s.bridge.None? ==> w'.s.bridge.None?)
  {
    if event.ClearBridge? || event.DisconnectOperation? {
      StoppedClear(config, w, event);
    }
  }

  lemma NoNewClone(config: RuntimeConfig, w: World, event: Event)
    requires w.s.stopping && !event.WorkerStep? && w.s.bridge.None?
    ensures Step(config, w, event).clones <= w.clones
  {
    if event.EndOperation? {
      assert w.clones - multiset{event.bridge} <= w.clones;
    }
  }

  /** Once the worker has been told to stop it starts no attempt. */
  lemma StopStartsNothing(config: RuntimeConfig, w: World, event: Event)
    requires w.s.stopping
    ensures var w' := Step(config, w, event);
            && w'.s.stopping
            && (!Attempting(w.pc) ==> !Attempting(w'.pc) && w'.h.log == w.h.log)
            && (Attempting(w.pc) ==> |w'.h.log| + (if Attempting(w'.pc) then 1 else 0) <= |w.h.log| + 1)
  {
    if !event.WorkerStep? {
      StoppedOthers(config, w, event);
    } else if !Attempting(w.pc) {
      StoppedWorker(config, w, event.result);
    } else if w.pc.Connecting? {
      StoppedFinish(config, w, event.result);
    }
  }

  lemma StoppedFinish(config: RuntimeConfig, w: World, result: Option<SessionInfo>)
    requires w.s.stopping && w.pc.Connecting?
    ensures var w' := RunFinish(config, w, w.pc.epoch, result);
            w'.s.stopping && !Attempting(w'.pc) && |w'.h.log| == |w.h.log| + 1
  {}

  lemma StoppingIterationDrains(config: RuntimeConfig, s: Shared, unhealthy: set<nat>, now: nat)
    requires s.stopping
    ensures Iterate(config, s, unhealthy, now).0.bridge.None?
  {}

  lemma WorkerDrains(config: RuntimeConfig, w: World, result: Option<SessionInfo>)
    requires Owned(w) && w.s.stopping && StepsToDrain(w) > 0
    ensures StepsToDrain(StepWorker(config, w, result)) < StepsToDrain(w)
  {
    IterateFrame(config, w.s, w.unhealthy, w.clock);
    StoppingIterationDrains(config, w.s, w.unhealthy, w.clock);
  }

  lemma OthersKeepDraining(config: RuntimeConfig, w: World, event: Event)
    requires w.s.stopping && !event.WorkerStep?
    ensures StepsToDrain(Step(config, w, event)) <= StepsToDrain(w)
  {
    hide DropOne, RunIteration, RunFinish, StepWorker;
    if event.EndOperation? {
      DropOneFrame(w, event.bridge, Operation);
    }
  }

  lemma DrainedStep(config: RuntimeConfig, w: World, event: Event)
    requires Owned(w) && Drained(w)
    ensures var w' := Step(config, w, event);
            && Drained(w')
            && w'.clones <= w.clones
  {
    if event.WorkerStep? {
      StoppedWorker(config, w, event.result);
    } else {
      StoppedOthers(config, w, event);
      NoNewClone(config, w, event);
    }
  }

  lemma RetiredUnshared(w: World, b: Bridge)
    requires Owned(w) && w.clones == multiset{} && b in w.s.retired
    ensures StrongCount(w.s.refs, b) == 1
  {
    assert b in multiset(w.s.retired);
    assert CountedAt(w, b);
  }

  /** With no operation running, the sweep empties the retired list. */
  lemma SweepTakesAll(w: World)
    requires Owned(w) && w.clones == multiset{}
    ensures var (kept, cleanup) := Sweep(w.s.refs, w.s.retired, 0, []);
            kept == [] && |cleanup| == |w.s.retired|
  {
    SweepContents(w.s.refs, w.s.retired, 0, []);
    var (kept, cleanup) := Sweep(w.s.refs, w.s.retired, 0, []);
    AllTaken(w, kept, cleanup);
  }

  lemma AllTaken(w: World, kept: seq<Bridge>, cleanup: seq<Bridge>)
    requires Owned(w) && w.clones == multiset{}
    requires multiset(kept) + multiset(cleanup) == multiset(w.s.retired)
    requires forall b :: b in kept ==> StrongCount(w.s.refs, b) != 1
    ensures kept == [] && |cleanup| == |w.s.retired|
  {
    if kept != [] {
      assert kept[0] in multiset(kept);
      assert kept[0] in multiset(w.s.retired);
      RetiredUnshared(w, kept[0]);
    }
    assert multiset(kept) == multiset{};
    assert |multiset(cleanup)| == |multiset(w.s.retired)|;
  }

  lemma ExitIteration(config: RuntimeConfig, w: World)
    requires Owned(w) && Drained(w) && w.clones == multiset{}
    ensures var (t, cleanup, next) := Iterate(config, w.s, w.unhealthy, w.clock);
            next == Exit && |cleanup| == |w.s.retired|
  {
    SweepTakesAll(w);
  }

  lemma WorkerExits(config: RuntimeConfig, w: World, result: Option<SessionInfo>)
    requires Owned(w) && Drained(w) && w.clones == multiset{} && StepsToExit(w) > 0
    ensures StepsToExit(StepWorker(config, w, result)) < StepsToExit(w)
  {
    ExitIteration(config, w);
  }

  lemma OthersKeepExiting(config: RuntimeConfig, w: World, event: Event)
    requires Owned(w) && Drained(w) && w.clones == multiset{} && !event.WorkerStep?
    ensures StepsToExit(Step(config, w, event)) <= StepsToExit(w)
  {
    hide Step;
    StoppedOthers(config, w, event);
    OthersKeepRetired(config, w, event);
  }

  lemma OthersKeepRetired(config: RuntimeConfig, w: World, event: Event)
    requires w.s.stopping && w.s.bridge.None? && !event.WorkerStep?
    ensures Step(config, w, event).s.retired == w.s.retired
  {
    hide DropOne, RunIteration, SelectBridge, CatalogForIdentity;
    if event.EndOperation? {
      DropOneFrame(w, event.bridge, Operation);
    }
  }

  lemma {:induction false} RunDrains(config: RuntimeConfig, w: World, events: seq<Event>)
    requires Owned(w) && w.s.stopping
    ensures var w' := Run(config, w, events);
            && w'.s.stopping
            && StepsToDrain(w') <= StepsToDrain(w)
            && (StepsToDrain(w') > 0 ==> StepsToDrain(w') + WorkerSteps(events) <= StepsToDrain(w))
  {
    if events != [] {
      var before := events[..|events| - 1];
      var event := events[|events| - 1];
      RunDrains(config, w, before);
      RunKeepsOwned(config, w, before);
      var middle := Run(config, w, before);
      StopStartsNothing(config, middle, event);
      if !event.WorkerStep? {
        OthersKeepDraining(config, middle, event);
      } else if StepsToDrain(middle) > 0 {
        WorkerDrains(config, middle, event.result);
      } else {
        StaysDrained(config, middle, event);
      }
    }
  }

  lemma StaysDrained(config: RuntimeConfig, w: World, event: Event)
    requires Owned(w) && w.s.stopping && StepsToDrain(w) == 0
    ensures StepsToDrain(Step(config, w, event)) == 0
  {
    DrainedStep(config, w, event);
  }

  lemma {:induction false} RunStaysDrained(config: RuntimeConfig, w: World, events: seq<Event>)
    requires Owned(w) && Drained(w)
    ensures var w' := Run(config, w, events);
            Drained(w') && w'.clones <= w.clones
  {
    if events != [] {
      RunStaysDrained(config, w, events[..|events| - 1]);
      RunKeepsOwned(config, w, events[..|events| - 1]);
      DrainedStep(config, Run(config, w, events[..|events| - 1]), events[|events| - 1]);
    }
  }

  lemma {:induction false} RunExits(config: RuntimeConfig, w: World, events: seq<Event>)
    requires Owned(w) && Drained(w) && w.clones == multiset{}
    ensures var w' := Run(config, w, events);
            && StepsToExit(w') <= StepsToExit(w)
            && (StepsToExit(w') > 0 ==> StepsToExit(w') + WorkerSteps(events) <= StepsToExit(w))
  {
    if events != [] {
      var before := events[..|events| - 1];
      var event := events[|events| - 1];
      RunExits(config, w, before);
      RunKeepsOwned(config, w, before);
      RunStaysDrained(config, w, before);
      var middle := Run(config, w, before);
      if !event.WorkerStep? {
        OthersKeepExiting(config, middle, event);
      } else if StepsToExit(middle) > 0 {
        WorkerExits(config, middle, event.result);
      }
    }
  }

  // ------------------------------------------------------------ main results

  /** From the moment stopping is set no attempt starts: at most the one in flight is
      still logged. */
  lemma {:induction false} NoAttemptAfterStop(config: RuntimeConfig, w: World, events: seq<Event>)
    requires w.s.stopping
    ensures var w' := Run(config, w, events);
            && w'.s.stopping
            && |w'.h.log| + (if Attempting(w'.pc) then 1 else 0) <= |w.h.log| + (if Attempting(w.pc) then 1 else 0)
  {
    if events != [] {
      NoAttemptAfterStop(config, w, events[..|events| - 1]);
      var middle := Run(config, w, events[..|events| - 1]);
      StopStartsNothing(config, middle, events[|events| - 1]);
    }
  }

  /** Shutdown completes under every interleaving. In a reachable stopping state, once
      the worker has taken enough steps (a pending connect returning among them) the
      slot stays empty and no operation can clone a bridge any more; and when the
      operations have released theirs, enough further steps bring the worker to its
      exit, with an empty slot, an empty retired list and every bridge destroyed. */
  lemma {:induction false} ShutdownCompletes(config: RuntimeConfig, events: seq<Event>,
      draining: seq<Event>, releasing: seq<Event>, exiting: seq<Event>)
    requires var w := Run(config, InitialWorld(config), events);
             && w.s.stopping
             && WorkerSteps(draining) >= StepsToDrain(w)
    ensures var drained := Run(config, Run(config, InitialWorld(config), events), draining);
            var released := Run(config, drained, releasing);
            var final := Run(config, released, exiting);
            && Drained(drained)
            && Drained(released) && released.clones <= drained.clones
            && (released.clones == multiset{} && WorkerSteps(exiting) >= StepsToExit(released) ==>
                  && (final.pc.Exited? || final.pc.NotEntered?) && !final.s.workerRunning
                  && final.s.bridge.None? && final.s.retired == []
                  && DestroyedBy(final.h.destroyed) == multiset(final.h.connected))
  {
    RunOwned(config, events);
    var w := Run(config, InitialWorld(config), events);
    RunDrains(config, w, draining);
    RunKeepsOwned(config, w, draining);
    var drained := Run(config, w, draining);
    assert StepsToDrain(drained) == 0;
    NothingPublished(drained);
    RunStaysDrained(config, drained, releasing);
    RunKeepsOwned(config, drained, releasing);
    var released := Run(config, drained, releasing);
    RunKeepsOwned(config, released, exiting);
    if released.clones == multiset{} && WorkerSteps(exiting) >= StepsToExit(released) {
      RunExits(config, released, exiting);
      RunStaysDrained(config, released, exiting);
      NothingHeld(Run(config, released, exiting));
    }
  }

  /** A worker that was told to stop while it dropped its last bridges does not wait
      again: it goes straight on to its exit. */
  lemma {:induction false} StopSkipsTheWait(config: RuntimeConfig, events: seq<Event>, a: Option<SessionInfo>, b: Option<SessionInfo>)
    requires var w := Run(config, InitialWorld(config), events);
             w.pc == Dropping([], Wait) && w.s.stopping && w.s.retired == [] && w.s.bridge.None?
    ensures var w' := Step(config, Run(config, InitialWorld(config), events), WorkerStep(a));
            var w'' := Step(config, w', WorkerStep(b));
            !w'.pc.Waiting? && w''.pc == Dropping([], Exit)
  {
    hide Run;
  }

  lemma NothingPublished(w: World)
    requires Owned(w) && w.s.stopping && StepsToDrain(w) == 0
    ensures Drained(w)
  {}

  lemma NothingHeld(w: World)
    requires Owned(w) && Drained(w) && StepsToExit(w) == 0
    ensures w.pc.Exited? || w.pc.NotEntered?
    ensures !w.s.workerRunning && w.s.retired == []
    ensures DestroyedBy(w.h.destroyed) == multiset(w.h.connected)
  {
    assert Held(w) == multiset{};
  }
}

/** What the quiet steps of a run leave as it was: those that neither take the worker
    through its loop nor clear the slot. */
module ConnectionFrames {
  import opened Wrappers
  import opened ConnectionState
  import opened ConnectionWorld
  import opened ConnectionOwnership

  /** The worker is about to pass through the top of its loop. */
  ghost predicate Iterating(w: World) {
    w.pc.Resuming? || w.pc.Waiting? || (w.pc.Rechecking? && w.s.stopping && w.s.retired == [])
  }

  ghost predicate Clears(w: World, event: Event) {
    || event.ClearBridge?
    || (event.DisconnectOperation? && event.bridge in w.clones && w.s.bridge.Some? && w.s.bridge.value.id == event.bridge.id)
  }

  function AttemptEpoch(pc: WorkerPc): nat
    requires Attempting(pc)
  {
    if pc.Connecting? then pc.epoch else pc.next.epoch
  }

  /** Nothing was published, retired, logged or scheduled. */
  ghost predicate Quiet(w: World, w': World) {
    && w'.s.bridge == w.s.bridge && w'.s.identity == w.s.identity && w'.s.catalog == w.s.catalog
    && w'.s.generation == w.s.generation && w'.s.retry == w.s.retry && w'.s.reconnectInterval == w.s.reconnectInterval
    && w.clock <= w'.clock
    && w'.h.publishes == w.h.publishes && w'.h.retirements == w.h.retirements && w'.h.log == w.h.log
    && w'.h.attemptStart == w.h.attemptStart && w'.h.attemptBumps == w.h.attemptBumps
    && (Attempting(w'.pc) ==> Attempting(w.pc) && AttemptEpoch(w'.pc) == AttemptEpoch(w.pc))
  }

  ghost predicate SameEpoch(w: World, w': World) {
    w'.s.epoch == w.s.epoch && w'.s.stopping == w.s.stopping && w'.h.bumps == w.h.bumps
  }

  lemma QuietWorkerStep(config: RuntimeConfig, w: World, result: Option<SessionInfo>)
    requires !w.pc.Connecting? && !Iterating(w)
    ensures Quiet(w, StepWorker(config, w, result)) && SameEpoch(w, StepWorker(config, w, result))
  {
    hide DropOne, RunIteration, RunFinish;
    if w.pc.Dropping? && w.pc.cleanup != [] {
      DropOneFrame(w, w.pc.cleanup[0], WorkerOutsideLock);
    }
  }

  lemma QuietStep(config: RuntimeConfig, w: World, event: Event)
    requires !event.WorkerStep? && !Clears(w, event)
    requires event.EnterWorker? ==> !MayEnter(config, w.s)
    ensures Quiet(w, Step(config, w, event))
    ensures !event.RequestWorkerStop? ==> SameEpoch(w, Step(config, w, event))
  {
    hide DropOne, RunIteration, RunFinish, StepWorker, SelectBridge;
    if event.EndOperation? {
      DropOneFrame(w, event.bridge, Operation);
    } else if event.DisconnectOperation? {
      SameShared(w);
    }
  }

  lemma ClearingStep(config: RuntimeConfig, w: World, event: Event)
    requires Clears(w, event)
    ensures Step(config, w, event) == CountBump(WithShared(w, Clear(config, w.s)))
  {}
}

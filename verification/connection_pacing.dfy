/** When connection attempts start, which results are published and how long the
    worker waits in between, over every run (guest_driver/runtime.rs). */
module ConnectionPacing {
  import opened Wrappers
  import opened ConnectionState
  import opened ConnectionWorld
  import opened ConnectionOwnership
  import opened ConnectionFrames

  /** The wait that follows the next attempt, given the attempts so far: a session's
      override lasts until an attempt fails, and a discarded result does not use it up. */
  function IntervalInForce(config: RuntimeConfig, log: seq<Attempt>): nat {
    if log == [] then config.lazyReconnectInterval
    else
      match log[|log| - 1].outcome
      case Published(info) => config.ReconnectIntervalWith(info.overrides)
      case Failed => config.lazyReconnectInterval
      case Discarded => IntervalInForce(config, log[..|log| - 1])
  }

  /** The earliest time another attempt may start after `a`. */
  function NextStart(a: Attempt): nat {
    if a.outcome.Published? then a.end else a.end + a.interval
  }

  ghost predicate Timely(a: Attempt) {
    && a.start <= a.end
    && a.startBumps <= a.endBumps
    && (a.stopping ==> a.startBumps < a.endBumps)
  }

  /** A successful result is published iff nothing stopped the worker and the wrapped
      epoch came back to the value it had at the start. */
  ghost predicate RightlyPublished(a: Attempt) {
    !a.outcome.Failed? ==>
      (a.outcome.Published? <==> !a.stopping && a.startBumps % EPOCH_MODULUS == a.endBumps % EPOCH_MODULUS)
  }

  ghost predicate GoodLog(config: RuntimeConfig, log: seq<Attempt>) {
    && (forall i :: 0 <= i < |log| ==> Timely(log[i]) && RightlyPublished(log[i]))
    && (forall i :: 0 <= i < |log| ==> log[i].interval == IntervalInForce(config, log[..i]))
    && Spaced(log)
  }

  /** No attempt starts before the earliest time that the one before it allows. */
  ghost predicate Spaced(log: seq<Attempt>) {
    forall i, j :: 0 <= i < |log| && j == i + 1 && j < |log| ==> NextStart(log[i]) <= log[j].start
  }

  ghost predicate Scheduled(w: World) {
    if w.h.log == [] || w.h.log[|w.h.log| - 1].outcome.Published? then w.s.retry == NO_RETRY
    else
      var last := w.h.log[|w.h.log| - 1];
      w.s.retry == RetrySchedule(Some(last.end), last.interval)
  }

  ghost predicate InFlight(w: World) {
    Attempting(w.pc) ==>
      && w.h.attemptStart <= w.clock
      && w.h.attemptBumps <= w.h.bumps
      && AttemptEpoch(w.pc) == w.h.attemptBumps % EPOCH_MODULUS
      && (w.s.stopping ==> w.h.attemptBumps < w.h.bumps)
      && (w.h.log != [] ==> NextStart(w.h.log[|w.h.log| - 1]) <= w.h.attemptStart)
  }

  ghost predicate Paced(config: RuntimeConfig, w: World) {
    && GoodLog(config, w.h.log)
    && Scheduled(w)
    && InFlight(w)
    && w.s.epoch == w.h.bumps % EPOCH_MODULUS
    && w.s.reconnectInterval == IntervalInForce(config, w.h.log)
    && (w.h.log != [] ==> w.h.log[|w.h.log| - 1].end <= w.clock)
  }

  lemma IterationPaced(config: RuntimeConfig, w: World)
    requires Paced(config, w) && !Attempting(w.pc)
    ensures Paced(config, RunIteration(config, w))
  {
    IterateFrame(config, w.s, w.unhealthy, w.clock);
  }

  lemma AppendSpaced(log: seq<Attempt>, a: Attempt)
    requires Spaced(log) && (log != [] ==> NextStart(log[|log| - 1]) <= a.start)
    ensures Spaced(log + [a])
  {
    hide NextStart;
  }

  lemma AppendGoodLog(config: RuntimeConfig, log: seq<Attempt>, a: Attempt)
    requires GoodLog(config, log)
    requires Timely(a) && RightlyPublished(a) && a.interval == IntervalInForce(config, log)
    requires log != [] ==> NextStart(log[|log| - 1]) <= a.start
    ensures GoodLog(config, log + [a])
  {
    hide IntervalInForce, Timely, RightlyPublished, NextStart;
    var longer := log + [a];
    forall i | 0 <= i < |longer|
      ensures Timely(longer[i]) && RightlyPublished(longer[i]) && longer[i].interval == IntervalInForce(config, longer[..i])
    {
      if i < |log| {
        assert longer[..i] == log[..i] && longer[i] == log[i];
      } else {
        assert longer[..i] == log;
      }
    }
    AppendSpaced(log, a);
  }

  function AttemptOf(w: World, epoch: nat, result: Option<SessionInfo>): Attempt {
    Attempt(w.h.attemptStart, w.clock, w.h.attemptBumps, w.h.bumps, w.s.stopping, OutcomeOf(w.s, epoch, result), w.s.reconnectInterval)
  }

  lemma FinishLogs(config: RuntimeConfig, w: World, epoch: nat, result: Option<SessionInfo>)
    requires w.s.bridge.None?
    ensures var w' := RunFinish(config, w, epoch, result);
            var a := AttemptOf(w, epoch, result);
            && w'.h.log == w.h.log + [a]
            && w'.s.epoch == w.s.epoch && w'.h.bumps == w.h.bumps && w'.clock == w.clock && w'.pc == Resuming
            && w'.s.retry == (if a.outcome.Published? then NO_RETRY else RetrySchedule(Some(a.end), a.interval))
            && w'.s.reconnectInterval == (match a.outcome
                                          case Published(info) => config.ReconnectIntervalWith(info.overrides)
                                          case Failed => config.lazyReconnectInterval
                                          case Discarded => w.s.reconnectInterval)
  {}

  lemma AttemptIsGood(w: World, epoch: nat, result: Option<SessionInfo>)
    requires w.h.attemptStart <= w.clock && w.h.attemptBumps <= w.h.bumps
    requires w.s.stopping ==> w.h.attemptBumps < w.h.bumps
    requires epoch == w.h.attemptBumps % EPOCH_MODULUS && w.s.epoch == w.h.bumps % EPOCH_MODULUS
    ensures Timely(AttemptOf(w, epoch, result)) && RightlyPublished(AttemptOf(w, epoch, result))
  {}

  lemma AppendInForce(config: RuntimeConfig, log: seq<Attempt>, a: Attempt)
    ensures IntervalInForce(config, log + [a])
         == match a.outcome
            case Published(info) => config.ReconnectIntervalWith(info.overrides)
            case Failed => config.lazyReconnectInterval
            case Discarded => IntervalInForce(config, log)
  {
    assert (log + [a])[..|log|] == log;
  }

  lemma FinishPaced(config: RuntimeConfig, w: World, result: Option<SessionInfo>)
    requires Paced(config, w) && w.pc.Connecting? && w.s.bridge.None?
    ensures Paced(config, RunFinish(config, w, w.pc.epoch, result))
  {
    hide RunFinish, GoodLog, IntervalInForce, Timely, RightlyPublished, NextStart, OutcomeOf;
    var a := AttemptOf(w, w.pc.epoch, result);
    AttemptIsGood(w, w.pc.epoch, result);
    AppendGoodLog(config, w.h.log, a);
    AppendInForce(config, w.h.log, a);
    FinishLogs(config, w, w.pc.epoch, result);
  }

  lemma BumpPaced(config: RuntimeConfig, w: World, w': World)
    requires Paced(config, w)
    requires w'.pc == w.pc && w'.clock == w.clock
    requires w'.h == w.h.(bumps := w.h.bumps + 1, publishes := w'.h.publishes, retirements := w'.h.retirements)
    requires w'.s.epoch == (w.s.epoch + 1) % EPOCH_MODULUS
    requires w'.s.retry == w.s.retry && w'.s.reconnectInterval == w.s.reconnectInterval
    ensures Paced(config, w')
  {
    assert (w.h.bumps % EPOCH_MODULUS + 1) % EPOCH_MODULUS == (w.h.bumps + 1) % EPOCH_MODULUS;
  }

  lemma QuietPaced(config: RuntimeConfig, w: World, w': World)
    requires Paced(config, w) && Quiet(w, w') && SameEpoch(w, w')
    ensures Paced(config, w')
  {}

  ghost predicate Bumps(w: World, event: Event) {
    Clears(w, event) || event.RequestWorkerStop?
  }

  lemma BumpingStep(config: RuntimeConfig, w: World, event: Event)
    requires Bumps(w, event)
    ensures var w' := Step(config, w, event);
            && w'.pc == w.pc && w'.clock == w.clock
            && w'.h == w.h.(bumps := w.h.bumps + 1, publishes := w'.h.publishes, retirements := w'.h.retirements)
            && w'.s.epoch == (w.s.epoch + 1) % EPOCH_MODULUS
            && w'.s.retry == w.s.retry && w'.s.reconnectInterval == w.s.reconnectInterval
  {}

  lemma WorkerStepPaced(config: RuntimeConfig, w: World, result: Option<SessionInfo>)
    requires Phased(w) && Paced(config, w)
    ensures Paced(config, StepWorker(config, w, result))
  {
    hide Paced, RunFinish, RunIteration, DropOne;
    if w.pc.Connecting? {
      FinishPaced(config, w, result);
    } else if Iterating(w) {
      IterationPaced(config, w);
    } else {
      QuietWorkerStep(config, w, result);
      QuietPaced(config, w, StepWorker(config, w, result));
    }
  }

  lemma StepPaced(config: RuntimeConfig, w: World, event: Event)
    requires Phased(w) && Paced(config, w)
    ensures Paced(config, Step(config, w, event))
  {
    hide Paced, StepWorker, RunFinish, RunIteration, Retire, DropOne, SelectBridge;
    if event.WorkerStep? {
      WorkerStepPaced(config, w, event.result);
    } else if event.EnterWorker? && MayEnter(config, w.s) {
      var entered := w.(s := w.s.(workerRunning := true), h := w.h.(entries := w.h.entries + 1));
      QuietPaced(config, w, entered);
      IterationPaced(config, entered);
    } else if Bumps(w, event) {
      BumpingStep(config, w, event);
      BumpPaced(config, w, Step(config, w, event));
    } else {
      QuietStep(config, w, event);
      QuietPaced(config, w, Step(config, w, event));
    }
  }

  lemma {:induction false} RunPaced(config: RuntimeConfig, events: seq<Event>)
    ensures Paced(config, Run(config, InitialWorld(config), events))
  {
    if events != [] {
      var before := events[..|events| - 1];
      RunPaced(config, before);
      RunOwned(config, before);
      StepPaced(config, Run(config, InitialWorld(config), before), events[|events| - 1]);
    }
  }

  // ------------------------------------------------------------ main results

  lemma SameResidue(a: nat, b: nat)
    requires a <= b
    ensures a % EPOCH_MODULUS == b % EPOCH_MODULUS <==> (b - a) % EPOCH_MODULUS == 0
  {}

  /** A successful result is published iff the worker is not stopping and the number
      of clears and stops between the attempt's start and end is a multiple of 2^64,
      where the epoch wraps; so, short of that many, iff there were none at all. */
  lemma {:induction false} PublishedIffUndisturbed(config: RuntimeConfig, events: seq<Event>, a: Attempt)
    requires a in Run(config, InitialWorld(config), events).h.log && !a.outcome.Failed?
    ensures a.startBumps <= a.endBumps
    ensures a.outcome.Published? <==> !a.stopping && (a.endBumps - a.startBumps) % 0x1_0000_0000_0000_0000 == 0
    ensures a.endBumps - a.startBumps < 0x1_0000_0000_0000_0000 ==> (a.outcome.Published? <==> a.endBumps == a.startBumps)
  {
    RunPaced(config, events);
    LoggedAttempt(config, Run(config, InitialWorld(config), events).h.log, a);
    WhenPublished(a);
  }

  lemma WhenPublished(a: Attempt)
    requires Timely(a) && RightlyPublished(a) && !a.outcome.Failed?
    ensures a.outcome.Published? <==> !a.stopping && (a.endBumps - a.startBumps) % EPOCH_MODULUS == 0
    ensures a.endBumps - a.startBumps < EPOCH_MODULUS ==> (a.outcome.Published? <==> a.endBumps == a.startBumps)
  {
    SameResidue(a.startBumps, a.endBumps);
  }

  lemma LoggedAttempt(config: RuntimeConfig, log: seq<Attempt>, a: Attempt)
    requires GoodLog(config, log) && a in log
    ensures Timely(a) && RightlyPublished(a)
  {}

  lemma LoggedPace(config: RuntimeConfig, log: seq<Attempt>, i: nat)
    requires GoodLog(config, log) && 0 < i < |log| && !log[i - 1].outcome.Published?
    ensures log[i - 1].end + IntervalInForce(config, log[..i - 1]) <= log[i].start
  {
    assert NextStart(log[i - 1]) <= log[i].start;
  }

  lemma CurrentPace(config: RuntimeConfig, w: World)
    requires Paced(config, w)
    requires Attempting(w.pc) && w.h.log != [] && !w.h.log[|w.h.log| - 1].outcome.Published?
    ensures w.h.log[|w.h.log| - 1].end + IntervalInForce(config, w.h.log[..|w.h.log| - 1]) <= w.h.attemptStart <= w.clock
  {}

  /** After an attempt that failed or was discarded, the next starts no earlier than
      its end plus the interval then in force, whatever else happened in between; the
      attempt in flight obeys the same bound. */
  lemma {:induction false} AttemptsArePaced(config: RuntimeConfig, events: seq<Event>)
    ensures var w := Run(config, InitialWorld(config), events);
            var log := w.h.log;
            && (forall i :: 0 < i < |log| && !log[i - 1].outcome.Published? ==>
                  log[i - 1].end + IntervalInForce(config, log[..i - 1]) <= log[i].start)
            && (Attempting(w.pc) && log != [] && !log[|log| - 1].outcome.Published? ==>
                  log[|log| - 1].end + IntervalInForce(config, log[..|log| - 1]) <= w.h.attemptStart <= w.clock)
  {
    RunPaced(config, events);
    var w := Run(config, InitialWorld(config), events);
    forall i | 0 < i < |w.h.log| && !w.h.log[i - 1].outcome.Published?
      ensures w.h.log[i - 1].end + IntervalInForce(config, w.h.log[..i - 1]) <= w.h.log[i].start
    {
      LoggedPace(config, w.h.log, i);
    }
    if Attempting(w.pc) && w.h.log != [] && !w.h.log[|w.h.log| - 1].outcome.Published? {
      CurrentPace(config, w);
    }
  }

  ghost predicate AllDiscarded(log: seq<Attempt>, from: nat, to: nat)
    requires to <= |log|
  {
    forall k :: from <= k < to ==> log[k].outcome.Discarded?
  }

  ghost predicate NonePublished(log: seq<Attempt>, from: nat, to: nat)
    requires to <= |log|
  {
    forall k :: from <= k < to ==> !log[k].outcome.Published?
  }

  lemma {:induction false} UntilFailure(config: RuntimeConfig, log: seq<Attempt>, session: nat, i: nat)
    requires session < i <= |log| && log[session].outcome.Published? && AllDiscarded(log, session + 1, i)
    ensures IntervalInForce(config, log[..i]) == config.ReconnectIntervalWith(log[session].outcome.info.overrides)
    decreases i
  {
    if session < i - 1 {
      UntilFailure(config, log, session, i - 1);
      assert log[..i][..i - 1] == log[..i - 1];
    }
  }

  lemma {:induction false} SinceFailure(config: RuntimeConfig, log: seq<Attempt>, i: nat, j: nat)
    requires i < j <= |log| && log[i].outcome.Failed? && NonePublished(log, i + 1, j)
    ensures IntervalInForce(config, log[..j]) == config.lazyReconnectInterval
    decreases j
  {
    if i < j - 1 {
      SinceFailure(config, log, i, j - 1);
      assert log[..j][..j - 1] == log[..j - 1];
    }
  }

  /** The wait given to attempt `i`, or the one the attempt to come will be given. */
  function IntervalAt(w: World, i: nat): nat
    requires i <= |w.h.log|
  {
    if i < |w.h.log| then w.h.log[i].interval else w.s.reconnectInterval
  }

  /** In every run a published session's interval override governs each attempt that
      follows while results are discarded, up to and including the first failed one;
      from then on the configured interval governs every attempt until another session
      is published, the attempt to come included. */
  lemma {:induction false} OverrideLastsOneFailure(config: RuntimeConfig, events: seq<Event>, session: nat, i: nat)
    requires var log := Run(config, InitialWorld(config), events).h.log;
             session < i <= |log| && log[session].outcome.Published? && AllDiscarded(log, session + 1, i)
    ensures var w := Run(config, InitialWorld(config), events);
            var log := w.h.log;
            var interval := log[session].outcome.info.overrides.reconnectInterval;
            var override := if interval == None then config.lazyReconnectInterval else interval.value;
            && IntervalInForce(config, log[..i]) == IntervalAt(w, i) == override
            && (i < |log| && log[i].outcome.Failed? ==>
                  forall j :: i < j <= |log| && NonePublished(log, i + 1, j) ==>
                    IntervalInForce(config, log[..j]) == IntervalAt(w, j) == config.lazyReconnectInterval)
  {
    RunPaced(config, events);
    var w := Run(config, InitialWorld(config), events);
    var log := w.h.log;
    UntilFailure(config, log, session, i);
    InForceAt(config, w, i);
    if i < |log| && log[i].outcome.Failed? {
      forall j | i < j <= |log| && NonePublished(log, i + 1, j)
        ensures IntervalInForce(config, log[..j]) == IntervalAt(w, j) == config.lazyReconnectInterval
      {
        SinceFailure(config, log, i, j);
        InForceAt(config, w, j);
      }
    }
  }

  lemma InForceAt(config: RuntimeConfig, w: World, i: nat)
    requires Paced(config, w) && i <= |w.h.log|
    ensures IntervalAt(w, i) == IntervalInForce(config, w.h.log[..i])
  {
    assert w.h.log[..|w.h.log|] == w.h.log;
  }

  // ------------------------------------------------------------ the last error

  /** The latest attempt that was not discarded failed. */
  predicate LastFailed(log: seq<Attempt>) {
    log != [] && (log[|log| - 1].outcome.Failed? || (log[|log| - 1].outcome.Discarded? && LastFailed(log[..|log| - 1])))
  }

  lemma ErrorFinish(config: RuntimeConfig, w: World, epoch: nat, result: Option<SessionInfo>)
    requires w.s.bridge.None? && (w.s.lastError <==> LastFailed(w.h.log))
    ensures var w' := RunFinish(config, w, epoch, result);
            w'.s.lastError <==> LastFailed(w'.h.log)
  {
    var log := RunFinish(config, w, epoch, result).h.log;
    assert log[..|w.h.log|] == w.h.log;
  }

  lemma ErrorKept(config: RuntimeConfig, w: World, event: Event)
    requires !(event.WorkerStep? && w.pc.Connecting?)
    ensures var w' := Step(config, w, event);
            w'.s.lastError == w.s.lastError && w'.h.log == w.h.log
  {
    hide StepWorker, RunIteration, SelectBridge, CatalogForIdentity, DropOne;
    if event.WorkerStep? {
      ErrorKeptByWorker(config, w, event.result);
    } else if event.EnterWorker? {
      ErrorKeptByIteration(config, w.(s := w.s.(workerRunning := true), h := w.h.(entries := w.h.entries + 1)));
    } else if event.EndOperation? {
      DropOneFrame(w, event.bridge, Operation);
    }
  }

  lemma ErrorKeptByIteration(config: RuntimeConfig, w: World)
    ensures var w' := RunIteration(config, w);
            w'.s.lastError == w.s.lastError && w'.h.log == w.h.log
  {
    hide Iterate;
    IterateFrame(config, w.s, w.unhealthy, w.clock);
  }

  lemma ErrorKeptByWorker(config: RuntimeConfig, w: World, result: Option<SessionInfo>)
    requires !w.pc.Connecting?
    ensures var w' := StepWorker(config, w, result);
            w'.s.lastError == w.s.lastError && w'.h.log == w.h.log
  {
    hide RunFinish, RunIteration, DropOne;
    if Iterating(w) {
      ErrorKeptByIteration(config, w);
    } else if w.pc.Dropping? && w.pc.cleanup != [] {
      DropOneFrame(w, w.pc.cleanup[0], WorkerOutsideLock);
    }
  }

  /** In every run an error is shown iff the latest attempt that was not discarded failed:
      a discarded success neither clears it nor sets it. */
  lemma {:induction false} ErrorShownIff(config: RuntimeConfig, events: seq<Event>)
    ensures var w := Run(config, InitialWorld(config), events);
            w.s.lastError <==> LastFailed(w.h.log)
  {
    if events != [] {
      hide Step;
      var before, event := events[..|events| - 1], events[|events| - 1];
      ErrorShownIff(config, before);
      RunOwned(config, before);
      var w := Run(config, InitialWorld(config), before);
      if event.WorkerStep? && w.pc.Connecting? {
        ErrorFinish(config, w, w.pc.epoch, event.result);
        ConnectingStep(config, w, event.result);
      } else {
        ErrorKept(config, w, event);
      }
    }
  }

  lemma ConnectingStep(config: RuntimeConfig, w: World, result: Option<SessionInfo>)
    requires w.pc.Connecting?
    ensures Step(config, w, WorkerStep(result)) == RunFinish(config, w, w.pc.epoch, result)
  {
    hide RunFinish;
  }

  // -------------------------------------------- the epoch wraps: a concrete run

  function Repeated(n: nat): seq<Event> {
    if n == 0 then [] else Repeated(n - 1) + [ClearBridge]
  }

  lemma ClearStep(config: RuntimeConfig, w: World)
    ensures var w' := Step(config, w, ClearBridge);
            && w'.pc == w.pc && w'.s.stopping == w.s.stopping && w'.clock == w.clock && w'.nextId == w.nextId
            && w'.h.log == w.h.log && w'.h.bumps == w.h.bumps + 1 && w'.h.attemptBumps == w.h.attemptBumps
  {}

  lemma {:induction false} ClearsOnly(config: RuntimeConfig, w: World, n: nat)
    requires w.pc.Connecting? && !w.s.stopping
    ensures var w' := Run(config, w, Repeated(n));
            && w'.pc == w.pc && !w'.s.stopping && w'.clock == w.clock && w'.nextId == w.nextId
            && w'.h.log == w.h.log && w'.h.bumps == w.h.bumps + n && w'.h.attemptBumps == w.h.attemptBumps
  {
    if n > 0 {
      ClearsOnly(config, w, n - 1);
      assert Repeated(n)[..|Repeated(n)| - 1] == Repeated(n - 1);
      ClearStep(config, Run(config, w, Repeated(n - 1)));
    }
  }

  lemma {:induction false} RunAppend(config: RuntimeConfig, w: World, first: seq<Event>, second: seq<Event>)
    ensures Run(config, w, first + second) == Run(config, Run(config, w, first), second)
    decreases second
  {
    if second == [] {
      assert first + second == first;
    } else {
      RunAppend(config, w, first, second[..|second| - 1]);
      assert (first + second)[..|first + second| - 1] == first + second[..|second| - 1];
    }
  }

  /** The run in which `n` clears, a positive multiple of 2^64, come while the first
      attempt is in flight: its result is published all the same. */
  lemma {:induction false} ClearedResultStillPublished(config: RuntimeConfig, info: SessionInfo, n: nat)
    requires config.hostBridgeEnabled && 0 < n && n % 0x1_0000_0000_0000_0000 == 0
    ensures var events := [EnterWorker, WorkerStep(None)] + Repeated(n) + [WorkerStep(Some(info))];
            var w := Run(config, InitialWorld(config), events);
            && |w.h.log| == 1 && w.h.log[0].outcome == Published(info)
            && w.h.log[0].endBumps == w.h.log[0].startBumps + n
  {
    var w0 := InitialWorld(config);
    var w1 := Step(config, w0, EnterWorker);
    var w2 := Step(config, w1, WorkerStep(None));
    assert w2.pc == Connecting(0);
    var opening := [EnterWorker, WorkerStep(None)];
    assert Run(config, w0, opening) == w2 by {
      assert opening[..1] == [EnterWorker] && opening[..1][..0] == [];
      assert Run(config, w0, [EnterWorker]) == w1;
    }
    ClearsOnly(config, w2, n);
    RunAppend(config, w0, opening, Repeated(n));
    var cleared := Run(config, w2, Repeated(n));
    var last := [WorkerStep(Some(info))];
    RunAppend(config, w0, opening + Repeated(n), last);
    assert Run(config, cleared, last) == RunFinish(config, cleared, 0, Some(info)) by {
      assert last[..0] == [];
    }
    RunPaced(config, opening + Repeated(n));
    RunOwned(config, opening + Repeated(n));
    FinishLogs(config, cleared, 0, Some(info));
  }
}

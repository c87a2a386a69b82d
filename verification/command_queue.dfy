/** Commands between the callers and the command worker: the queue shared under a lock,
    the running flag outside it, and every step of both sides (guest_driver/bridge.rs). */
module CommandQueue {
  import opened Wrappers
  import opened Lists

  function FeedbackCapacity(): nat { 64 }

  datatype CommandKind = GetFeature | SetFeature | SetOutput | Write

  /** `id` tells the calls apart: it is not part of the command. */
  datatype Command = Command(id: nat, kind: CommandKind) {
    predicate IsFeedback() {
      kind.SetOutput? || kind.Write?
    }
  }

  predicate IsFeedback(command: Command) {
    command.IsFeedback()
  }

  predicate IsSynchronous(command: Command) {
    !command.IsFeedback()
  }

  /** What processing a command comes to: the host's answer, its refusal, or an error
      that ends the connection. */
  datatype Outcome = Completed | Refused | Lost

  /** What a synchronous caller is told. */
  datatype Answer = Processed(outcome: Outcome) | WorkerStopped

  datatype Reply = Reply(id: nat, answer: Answer)

  // ------------------------------------------------------- the locked regions

  datatype FeedbackStats = FeedbackStats(enqueued: nat, sent: nat, dropped: nat, errors: nat)

  /** The queue with room made for one more feedback command: at capacity the oldest
      one goes. */
  function MakeRoom(queue: seq<Command>): (r: (seq<Command>, nat)) {
    if |Without(queue, IsSynchronous)| < FeedbackCapacity() then (queue, 0)
    else
      match FirstIndex(queue, IsFeedback)
      case None => (queue, 0)
      case Some(index) => (queue[..index] + queue[index + 1..], 1)
  }

  /** What the worker answers when it stops: every queued synchronous command. */
  function StopReplies(queue: seq<Command>): seq<Reply> {
    if queue == [] then []
    else (if queue[0].IsFeedback() then [] else [Reply(queue[0].id, WorkerStopped)]) + StopReplies(queue[1..])
  }

  // -------------------------------------------------------------------- steps

  /** Where a call is: before its first look at the running flag, waiting for the lock,
      holding it, about to push, turned away, or accepted (and answered, for a
      synchronous command). */
  datatype CallPc = Entering | Locking | Checking | Pushing | TurnedAway | Accepted | Returned(answer: Answer)

  datatype Call = Call(kind: CommandKind, pc: CallPc)

  datatype WorkerPc =
    | Looping
    | Waiting
    | Processing(command: Command)
    | Storing
    | Draining
    | Exited

  /** `accepted`, `taken` and `sent` are history: the commands pushed, those popped or
      drained, and the replies sent, in order. */
  datatype World = World(
    running: bool,
    lock: Option<nat>,
    queue: seq<Command>,
    stats: FeedbackStats,
    calls: seq<Call>,
    worker: WorkerPc,
    dropped: bool,
    accepted: seq<Command>,
    taken: seq<Command>,
    sent: seq<Reply>)

  function Start(): World {
    World(true, None, [], FeedbackStats(0, 0, 0, 0), [], Looping, false, [], [], [])
  }

  datatype Event =
    | Enter(kind: CommandKind)
    | Advance(call: nat)
    | Receive(call: nat)
    | Work(outcome: Outcome)
    | DropBridge

  function SetPc(w: World, call: nat, pc: CallPc): World
    requires call < |w.calls|
  {
    w.(calls := w.calls[call := w.calls[call].(pc := pc)])
  }

  /** The push, at the end of the call's locked region. */
  function PushCommand(w: World, call: nat): World
    requires call < |w.calls|
  {
    var command := Command(call, w.calls[call].kind);
    var w' := SetPc(w, call, Accepted).(lock := None, accepted := w.accepted + [command]);
    if command.IsFeedback() then
      var (room, dropped) := MakeRoom(w.queue);
      w'.(queue := room + [command],
          stats := w.stats.(dropped := w.stats.dropped + dropped, enqueued := w.stats.enqueued + 1))
    else w'.(queue := w.queue + [command])
  }

  /** One step of an enqueueing call: look at the flag, lock, look again, push. */
  function AdvanceCall(w: World, call: nat): World
    requires call < |w.calls|
  {
    match w.calls[call].pc
    case Entering => SetPc(w, call, if w.running then Locking else TurnedAway)
    case Locking => if w.lock.None? then SetPc(w, call, Checking).(lock := Some(call)) else w
    case Checking => if w.running then SetPc(w, call, Pushing) else SetPc(w, call, TurnedAway).(lock := None)
    case Pushing => PushCommand(w, call)
    case TurnedAway => w
    case Accepted => w
    case Returned(_) => w
  }

  function ReplyTo(call: nat): Reply -> bool {
    (reply: Reply) => reply.id == call
  }

  /** A synchronous caller picks up its reply. */
  function ReceiveReply(w: World, call: nat): World
    requires call < |w.calls|
  {
    if w.calls[call].pc != Accepted || Command(call, w.calls[call].kind).IsFeedback() then w
    else
      match FirstIndex(w.sent, ReplyTo(call))
      case None => w
      case Some(k) => SetPc(w, call, Returned(w.sent[k].answer))
  }

  /** The end of one command: its reply, the statistics, and whether to stop. */
  function Finish(w: World, command: Command, outcome: Outcome): World {
    var w' := w.(worker := if outcome.Lost? then Storing else Looping);
    if !command.IsFeedback() then w'.(sent := w.sent + [Reply(command.id, Processed(outcome))])
    else
      match outcome
      case Completed => w'.(stats := w.stats.(sent := w.stats.sent + 1))
      case Refused => w'
      case Lost => w'.(stats := w.stats.(errors := w.stats.errors + 1))
  }

  /** One step of the worker; `outcome` is how a command ends, when one does. */
  function WorkerStep(w: World, outcome: Outcome): World {
    match w.worker
    case Looping => w.(worker := if w.running then Waiting else Exited)
    case Waiting =>
      if w.lock.Some? then w
      else if w.queue != [] then
        w.(worker := Processing(w.queue[0]), queue := w.queue[1..], taken := w.taken + [w.queue[0]])
      else if !w.running then w.(worker := Exited)
      else w
    case Processing(command) => Finish(w, command, outcome)
    case Storing => w.(running := false, worker := Draining)
    case Draining =>
      if w.lock.Some? then w
      else w.(worker := Exited, queue := [], taken := w.taken + w.queue, sent := w.sent + StopReplies(w.queue))
    case Exited => w
  }

  predicate IsFinished(call: Call) {
    match call.pc
    case TurnedAway => true
    case Returned(_) => true
    case Accepted => call.kind.SetOutput? || call.kind.Write?
    case _ => false
  }

  /** The bridge is dropped only when no call borrows it, and then none starts. */
  predicate MayDrop(w: World) {
    forall i :: 0 <= i < |w.calls| ==> IsFinished(w.calls[i])
  }

  function Step(w: World, event: Event): World {
    match event
    case Enter(kind) => if w.dropped then w else w.(calls := w.calls + [Call(kind, Entering)])
    case Advance(call) => if call < |w.calls| then AdvanceCall(w, call) else w
    case Receive(call) => if call < |w.calls| then ReceiveReply(w, call) else w
    case Work(outcome) => WorkerStep(w, outcome)
    case DropBridge => if MayDrop(w) then w.(running := false, dropped := true) else w
  }

  function Run(events: seq<Event>): World {
    if events == [] then Start()
    else Step(Run(events[..|events| - 1]), events[|events| - 1])
  }
}

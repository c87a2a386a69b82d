/** What the command queue guarantees over every interleaving of its callers' steps, the
    worker's steps and the end of the bridge. */
module CommandQueueRuns {
  import opened Wrappers
  import opened Lists
  import opened CommandQueue

  // ----------------------------------------------------------- lists of calls

  /** The calls of the synchronous commands, in order. */
  function SyncIds(commands: seq<Command>): seq<nat> {
    if commands == [] then []
    else (if commands[0].IsFeedback() then [] else [commands[0].id]) + SyncIds(commands[1..])
  }

  function ReplyIds(replies: seq<Reply>): seq<nat> {
    if replies == [] then [] else [replies[0].id] + ReplyIds(replies[1..])
  }

  lemma {:induction false} SyncIdsAppend(a: seq<Command>, b: seq<Command>)
    ensures SyncIds(a + b) == SyncIds(a) + SyncIds(b)
  {
    if a == [] {
      assert a + b == b;
    } else {
      assert (a + b)[1..] == a[1..] + b;
      SyncIdsAppend(a[1..], b);
    }
  }

  lemma SyncIdsOne(command: Command)
    ensures SyncIds([command]) == if command.IsFeedback() then [] else [command.id]
  {
    assert [command][1..] == [];
  }

  lemma {:induction false} ReplyIdsAppend(a: seq<Reply>, b: seq<Reply>)
    ensures ReplyIds(a + b) == ReplyIds(a) + ReplyIds(b)
  {
    if a == [] {
      assert a + b == b;
    } else {
      assert (a + b)[1..] == a[1..] + b;
      ReplyIdsAppend(a[1..], b);
    }
  }

  lemma ReplyIdsOne(reply: Reply)
    ensures ReplyIds([reply]) == [reply.id]
  {
    assert [reply][1..] == [];
  }

  lemma {:induction false} StopRepliesIds(queue: seq<Command>)
    ensures ReplyIds(StopReplies(queue)) == SyncIds(queue)
  {
    if queue != [] {
      StopRepliesIds(queue[1..]);
      var first := if queue[0].IsFeedback() then [] else [Reply(queue[0].id, WorkerStopped)];
      ReplyIdsAppend(first, StopReplies(queue[1..]));
      if !queue[0].IsFeedback() {
        ReplyIdsOne(first[0]);
      }
    }
  }

  lemma {:induction false} SyncIdsMembers(commands: seq<Command>, id: nat)
    ensures id in SyncIds(commands) <==> exists i :: 0 <= i < |commands| && commands[i].id == id && !commands[i].IsFeedback()
  {
    if commands != [] {
      SyncIdsMembers(commands[1..], id);
      assert forall i :: 0 <= i < |commands[1..]| ==> commands[1..][i] == commands[i + 1];
      if exists i :: 0 <= i < |commands| && commands[i].id == id && !commands[i].IsFeedback() {
        var i :| 0 <= i < |commands| && commands[i].id == id && !commands[i].IsFeedback();
        if i > 0 {
          assert commands[1..][i - 1] == commands[i];
        }
      }
    }
  }

  lemma {:induction false} ReplyIdsMembers(replies: seq<Reply>, id: nat)
    ensures id in ReplyIds(replies) <==> Any(replies, ReplyTo(id))
  {
    if replies != [] {
      ReplyIdsMembers(replies[1..], id);
      assert forall i :: 0 <= i < |replies[1..]| ==> replies[1..][i] == replies[i + 1];
      if Any(replies, ReplyTo(id)) && replies[0].id != id {
        var i :| 0 <= i < |replies| && ReplyTo(id)(replies[i]);
        assert replies[1..][i - 1] == replies[i];
      }
    }
  }

  predicate Distinct(ids: seq<nat>) {
    forall i, j :: 0 <= i < j < |ids| ==> ids[i] != ids[j]
  }

  predicate DistinctCommands(commands: seq<Command>) {
    forall i, j :: 0 <= i < j < |commands| ==> commands[i].id != commands[j].id
  }

  lemma {:induction false} SyncIdsDistinct(commands: seq<Command>)
    requires DistinctCommands(commands)
    ensures Distinct(SyncIds(commands))
  {
    if commands != [] {
      assert forall i :: 0 <= i < |commands[1..]| ==> commands[1..][i] == commands[i + 1];
      SyncIdsDistinct(commands[1..]);
      SyncIdsMembers(commands[1..], commands[0].id);
      var rest := SyncIds(commands[1..]);
      assert forall k :: 0 <= k < |rest| ==> rest[k] in rest;
    }
  }

  lemma DistinctHalves(a: seq<nat>, b: seq<nat>, id: nat)
    requires Distinct(a + b) && id in a
    ensures id !in b
  {
    var i :| 0 <= i < |a| && a[i] == id;
    assert (a + b)[i] == id;
    assert forall j :: 0 <= j < |b| ==> b[j] == (a + b)[|a| + j];
  }

  // ------------------------------------------------- first in, first answered

  /** The synchronous command the worker is busy with. */
  function InHand(w: World): seq<nat> {
    if w.worker.Processing? then SyncIds([w.worker.command]) else []
  }

  /** Accepted synchronous commands are answered in order: the answered ones, then the
      one in hand, then the queued ones. */
  predicate Fifo(w: World) {
    SyncIds(w.accepted) == ReplyIds(w.sent) + InHand(w) + SyncIds(w.queue)
  }

  /** A feedback command that makes room for another one does not touch the rest. */
  lemma MakeRoomSync(queue: seq<Command>)
    ensures SyncIds(MakeRoom(queue).0) == SyncIds(queue)
  {
    var found := FirstIndex(queue, IsFeedback);
    if found.Some? {
      var i := found.value;
      assert queue == queue[..i] + ([queue[i]] + queue[i + 1..]);
      SyncIdsAppend(queue[..i], [queue[i]] + queue[i + 1..]);
      SyncIdsAppend([queue[i]], queue[i + 1..]);
      SyncIdsOne(queue[i]);
      SyncIdsAppend(queue[..i], queue[i + 1..]);
    }
  }

  lemma PushFifo(w: World, call: nat)
    requires call < |w.calls| && Fifo(w)
    ensures Fifo(PushCommand(w, call))
  {
    hide SyncIds, ReplyIds, MakeRoom;
    var command := Command(call, w.calls[call].kind);
    SyncIdsAppend(w.accepted, [command]);
    SyncIdsOne(command);
    if command.IsFeedback() {
      MakeRoomSync(w.queue);
      SyncIdsAppend(MakeRoom(w.queue).0, [command]);
    } else {
      SyncIdsAppend(w.queue, [command]);
    }
  }

  lemma FinishFifo(w: World, outcome: Outcome)
    requires w.worker.Processing? && Fifo(w)
    ensures Fifo(Finish(w, w.worker.command, outcome))
  {
    var command := w.worker.command;
    SyncIdsOne(command);
    ReplyIdsAppend(w.sent, [Reply(command.id, Processed(outcome))]);
    ReplyIdsOne(Reply(command.id, Processed(outcome)));
  }

  lemma WorkFifo(w: World, outcome: Outcome)
    requires Fifo(w)
    ensures Fifo(WorkerStep(w, outcome))
  {
    hide SyncIds, ReplyIds;
    if w.worker.Processing? {
      FinishFifo(w, outcome);
    } else if w.worker.Waiting? && w.lock.None? && w.queue != [] {
      SyncIdsAppend([w.queue[0]], w.queue[1..]);
      assert w.queue == [w.queue[0]] + w.queue[1..];
    } else if w.worker.Draining? && w.lock.None? {
      StopRepliesIds(w.queue);
      ReplyIdsAppend(w.sent, StopReplies(w.queue));
      EmptyIds();
    }
  }

  lemma EmptyIds()
    ensures SyncIds([]) == [] && ReplyIds([]) == []
  {}

  lemma StepFifo(w: World, event: Event)
    requires Fifo(w)
    ensures Fifo(Step(w, event))
  {
    hide SyncIds, ReplyIds, PushCommand, WorkerStep, FirstIndex, MayDrop;
    match event
    case Enter(_) =>
    case Advance(call) =>
      if call < |w.calls| && w.calls[call].pc.Pushing? {
        PushFifo(w, call);
      }
    case Receive(_) =>
    case Work(outcome) => WorkFifo(w, outcome);
    case DropBridge =>
  }

  // ---------------------------------------------------- the calls and the lock

  predicate HoldsLock(pc: CallPc) {
    pc.Checking? || pc.Pushing?
  }

  predicate IsAccepted(pc: CallPc) {
    pc.Accepted? || pc.Returned?
  }

  predicate LockHeld(w: World) {
    && (forall i :: 0 <= i < |w.calls| && HoldsLock(w.calls[i].pc) ==> w.lock == Some(i))
    && (w.lock.Some? ==> w.lock.value < |w.calls| && HoldsLock(w.calls[w.lock.value].pc))
  }

  lemma AdvanceLock(w: World, call: nat)
    requires LockHeld(w) && call < |w.calls|
    ensures LockHeld(AdvanceCall(w, call))
  {
    hide MakeRoom;
  }

  lemma StepLock(w: World, event: Event)
    requires LockHeld(w)
    ensures LockHeld(Step(w, event))
  {
    hide MakeRoom, FirstIndex, MayDrop, AdvanceCall;
    if event.Advance? && event.call < |w.calls| {
      AdvanceLock(w, event.call);
    }
  }

  /** A call's command is accepted once, when the call says so. */
  predicate AcceptedCalls(w: World) {
    && DistinctCommands(w.accepted)
    && (forall i :: 0 <= i < |w.accepted| ==>
          && w.accepted[i].id < |w.calls|
          && w.calls[w.accepted[i].id].kind == w.accepted[i].kind
          && IsAccepted(w.calls[w.accepted[i].id].pc))
  }

  lemma AdvanceAccepted(w: World, call: nat)
    requires AcceptedCalls(w) && call < |w.calls|
    ensures AcceptedCalls(AdvanceCall(w, call))
  {
    hide MakeRoom, PushCommand;
    if w.calls[call].pc.Pushing? {
      PushAccepted(w, call);
    }
  }

  lemma PushAccepted(w: World, call: nat)
    requires AcceptedCalls(w) && call < |w.calls| && w.calls[call].pc.Pushing?
    ensures AcceptedCalls(PushCommand(w, call))
  {
    hide MakeRoom;
  }

  lemma StepAccepted(w: World, event: Event)
    requires AcceptedCalls(w)
    ensures AcceptedCalls(Step(w, event))
  {
    hide MakeRoom, FirstIndex, MayDrop, AdvanceCall, StopReplies;
    if event.Advance? && event.call < |w.calls| {
      AdvanceAccepted(w, event.call);
    }
  }

  /** A call that was accepted is on record. */
  predicate OnRecord(w: World) {
    forall i :: 0 <= i < |w.calls| && IsAccepted(w.calls[i].pc) ==> Command(i, w.calls[i].kind) in w.accepted
  }

  lemma AdvanceOnRecord(w: World, call: nat)
    requires OnRecord(w) && call < |w.calls|
    ensures OnRecord(AdvanceCall(w, call))
  {
    hide MakeRoom;
    var w' := AdvanceCall(w, call);
    if w.calls[call].pc.Pushing? {
      var command := Command(call, w.calls[call].kind);
      assert command in w.accepted + [command];
      assert forall c :: c in w.accepted ==> c in w.accepted + [command];
    }
  }

  lemma StepOnRecord(w: World, event: Event)
    requires OnRecord(w)
    ensures OnRecord(Step(w, event))
  {
    hide MakeRoom, FirstIndex, MayDrop, AdvanceCall, StopReplies;
    if event.Advance? && event.call < |w.calls| {
      AdvanceOnRecord(w, event.call);
    }
  }

  /** A synchronous caller returns with the reply that was sent for its call. */
  predicate ReturnsReplies(w: World) {
    forall i :: 0 <= i < |w.calls| && w.calls[i].pc.Returned? ==>
      !Command(i, w.calls[i].kind).IsFeedback() && Reply(i, w.calls[i].pc.answer) in w.sent
  }

  lemma ReceiveReturns(w: World, call: nat)
    requires ReturnsReplies(w) && call < |w.calls|
    ensures ReturnsReplies(ReceiveReply(w, call))
  {
    hide FirstIndex;
    var found := FirstIndex(w.sent, ReplyTo(call));
    if found.Some? {
      assert w.sent[found.value].id == call;
    }
  }

  lemma AdvanceReturns(w: World, call: nat)
    requires ReturnsReplies(w) && call < |w.calls|
    ensures ReturnsReplies(AdvanceCall(w, call))
  {
    hide MakeRoom;
  }

  /** Replies once sent stay sent. */
  lemma WorkReturns(w: World, outcome: Outcome)
    requires ReturnsReplies(w)
    ensures ReturnsReplies(WorkerStep(w, outcome))
  {
    hide StopReplies;
  }

  lemma StepReturns(w: World, event: Event)
    requires ReturnsReplies(w)
    ensures ReturnsReplies(Step(w, event))
  {
    hide ReceiveReply, AdvanceCall, WorkerStep, MayDrop;
    if event.Receive? && event.call < |w.calls| {
      ReceiveReturns(w, event.call);
    } else if event.Advance? && event.call < |w.calls| {
      AdvanceReturns(w, event.call);
    } else if event.Work? {
      WorkReturns(w, event.outcome);
    }
  }

  // ------------------------------------------------------------------ stopping

  predicate Stopped(w: World) {
    w.worker.Draining? || w.worker.Exited?
  }

  /** The flag falls when the worker stops itself or the bridge is dropped; a call that
      saw it raised pushes before the drain, because it still holds the lock. */
  predicate StopsRightly(w: World) {
    && (!w.running ==> w.dropped || Stopped(w))
    && (Stopped(w) ==> !w.running)
    && (w.worker.Exited? && !w.dropped ==> w.queue == [])
    && (w.dropped ==> !w.running && MayDrop(w))
    && (forall i :: 0 <= i < |w.calls| && w.calls[i].pc.Pushing? ==> w.running || w.worker.Draining?)
  }

  lemma NothingMoves(w: World, event: Event)
    requires StopsRightly(w) && w.dropped && !event.Work?
    ensures Step(w, event) == w
  {
    if (event.Advance? || event.Receive?) && event.call < |w.calls| {
      assert IsFinished(w.calls[event.call]);
    }
    if event.DropBridge? {
      assert Step(w, event) == w.(running := false, dropped := true);
    }
  }

  lemma AdvanceStops(w: World, call: nat)
    requires StopsRightly(w) && LockHeld(w) && !w.dropped && call < |w.calls|
    ensures StopsRightly(AdvanceCall(w, call))
  {
    hide MakeRoom;
  }

  lemma WorkStops(w: World, outcome: Outcome)
    requires StopsRightly(w) && LockHeld(w)
    ensures StopsRightly(WorkerStep(w, outcome))
  {
    hide StopReplies;
  }

  lemma DropStops(w: World)
    requires StopsRightly(w) && !w.dropped
    ensures StopsRightly(Step(w, DropBridge))
  {
    if MayDrop(w) {
      assert forall i :: 0 <= i < |w.calls| ==> IsFinished(w.calls[i]);
    }
  }

  lemma StepStops(w: World, event: Event)
    requires StopsRightly(w) && LockHeld(w)
    ensures StopsRightly(Step(w, event))
  {
    if event.Work? {
      WorkStops(w, event.outcome);
    } else if w.dropped {
      NothingMoves(w, event);
    } else if event.Advance? && event.call < |w.calls| {
      AdvanceStops(w, event.call);
    } else if event.DropBridge? {
      DropStops(w);
    } else {
      hide FirstIndex;
    }
  }

  // ------------------------------------------------------------ feedback limit

  function Feedback(commands: seq<Command>): seq<Command> {
    Without(commands, IsSynchronous)
  }

  predicate IsSuffix(s: seq<Command>, whole: seq<Command>) {
    |s| <= |whole| && s == whole[|whole| - |s|..]
  }

  /** At most 64 feedback commands wait, and they are the newest ones, in order. */
  predicate FeedbackBounded(w: World) {
    |Feedback(w.queue)| <= FeedbackCapacity() && IsSuffix(Feedback(w.queue), Feedback(w.accepted))
  }

  lemma FeedbackOne(command: Command)
    ensures Feedback([command]) == if command.IsFeedback() then [command] else []
  {
    assert [command][1..] == [];
  }

  lemma {:induction false} FeedbackFirst(queue: seq<Command>, index: nat)
    requires FirstIndex(queue, IsFeedback) == Some(index)
    ensures Feedback(queue[..index]) == [] && Feedback(queue) == [queue[index]] + Feedback(queue[index + 1..])
  {
    if index > 0 {
      FeedbackFirst(queue[1..], index - 1);
      assert queue[1..][..index - 1] == queue[..index][1..];
    }
  }

  lemma NoFeedback(queue: seq<Command>)
    requires !Any(queue, IsFeedback)
    ensures Feedback(queue) == []
    decreases |queue|
  {
    if queue != [] {
      assert !IsFeedback(queue[0]);
      assert forall i :: 0 <= i < |queue[1..]| ==> queue[1..][i] == queue[i + 1];
      NoFeedback(queue[1..]);
    }
  }

  /** At capacity exactly the oldest feedback command goes; below it, none. */
  lemma {:induction false} MakeRoomDropsOldest(queue: seq<Command>)
    ensures var (room, dropped) := MakeRoom(queue);
            var feedback := Feedback(queue);
            && Feedback(room) == feedback[dropped..] && dropped <= |feedback|
            && (dropped == 1 <==> |feedback| >= 64) && dropped <= 1
            && Without(room, IsFeedback) == Without(queue, IsFeedback)
  {
    var found := FirstIndex(queue, IsFeedback);
    if |Feedback(queue)| >= FeedbackCapacity() {
      if found.None? {
        NoFeedback(queue);
      } else {
        var i := found.value;
        FeedbackFirst(queue, i);
        WithoutAppend(queue[..i], queue[i + 1..], IsSynchronous);
        SynchronousKept(queue, i);
      }
    }
  }

  lemma SynchronousKept(queue: seq<Command>, i: nat)
    requires i < |queue| && IsFeedback(queue[i])
    ensures Without(queue[..i] + queue[i + 1..], IsFeedback) == Without(queue, IsFeedback)
  {
    hide Without;
    assert queue == queue[..i] + [queue[i]] + queue[i + 1..];
    WithoutSkipped(queue[..i], queue[i], queue[i + 1..], IsFeedback);
  }

  lemma FeedbackAppend(commands: seq<Command>, command: Command)
    ensures Feedback(commands + [command]) == Feedback(commands) + (if command.IsFeedback() then [command] else [])
  {
    FeedbackOne(command);
    WithoutAppend(commands, [command], IsSynchronous);
  }

  lemma SuffixAppend(s: seq<Command>, whole: seq<Command>, dropped: nat, more: seq<Command>)
    requires IsSuffix(s, whole) && dropped <= |s|
    ensures IsSuffix(s[dropped..] + more, whole + more)
  {
    assert s[dropped..] == whole[|whole| - |s| + dropped..];
  }

  lemma PushBounded(w: World, call: nat)
    requires call < |w.calls| && FeedbackBounded(w)
    ensures FeedbackBounded(PushCommand(w, call))
  {
    hide MakeRoom, Feedback, IsSuffix;
    var command := Command(call, w.calls[call].kind);
    FeedbackAppend(w.accepted, command);
    if command.IsFeedback() {
      MakeRoomDropsOldest(w.queue);
      var (room, dropped) := MakeRoom(w.queue);
      FeedbackAppend(room, command);
      SuffixAppend(Feedback(w.queue), Feedback(w.accepted), dropped, [command]);
    } else {
      FeedbackAppend(w.queue, command);
      assert Feedback(w.queue) + [] == Feedback(w.queue) && Feedback(w.accepted) + [] == Feedback(w.accepted);
    }
  }

  lemma WorkBounded(w: World, outcome: Outcome)
    requires FeedbackBounded(w)
    ensures FeedbackBounded(WorkerStep(w, outcome))
  {
    hide StopReplies, Feedback, IsSuffix, Finish;
    if w.worker.Waiting? && w.queue != [] {
      TailBounded(w.queue, w.accepted);
    } else if w.worker.Draining? {
      NoneBounded(w.accepted);
    } else if w.worker.Processing? {
      FinishKeepsQueue(w, w.worker.command, outcome);
    }
  }

  lemma FinishKeepsQueue(w: World, command: Command, outcome: Outcome)
    ensures Finish(w, command, outcome).queue == w.queue && Finish(w, command, outcome).accepted == w.accepted
  {}

  lemma TailBounded(queue: seq<Command>, accepted: seq<Command>)
    requires queue != [] && IsSuffix(Feedback(queue), Feedback(accepted))
    ensures IsSuffix(Feedback(queue[1..]), Feedback(accepted)) && |Feedback(queue[1..])| <= |Feedback(queue)|
  {}

  lemma NoneBounded(accepted: seq<Command>)
    ensures IsSuffix(Feedback([]), Feedback(accepted)) && |Feedback([])| == 0
  {}

  lemma StepBounded(w: World, event: Event)
    requires FeedbackBounded(w)
    ensures FeedbackBounded(Step(w, event))
  {
    hide Feedback, PushCommand, WorkerStep, FirstIndex, MayDrop;
    match event
    case Enter(_) =>
    case Advance(call) =>
      if call < |w.calls| && w.calls[call].pc.Pushing? {
        PushBounded(w, call);
      }
    case Receive(_) =>
    case Work(outcome) => WorkBounded(w, outcome);
    case DropBridge =>
  }

  // ------------------------------------------------------------- every run

  predicate Sound(w: World) {
    && Fifo(w) && LockHeld(w) && AcceptedCalls(w) && OnRecord(w) && ReturnsReplies(w) && StopsRightly(w)
    && FeedbackBounded(w)
  }

  lemma {:induction false} RunSound(events: seq<Event>)
    ensures Sound(Run(events))
  {
    if events != [] {
      hide Fifo, LockHeld, AcceptedCalls, OnRecord, ReturnsReplies, StopsRightly, FeedbackBounded, Step;
      var w, event := Run(events[..|events| - 1]), events[|events| - 1];
      RunSound(events[..|events| - 1]);
      StepFifo(w, event);
      StepLock(w, event);
      StepAccepted(w, event);
      StepOnRecord(w, event);
      StepReturns(w, event);
      StepStops(w, event);
      StepBounded(w, event);
    }
  }

  /** Accepted synchronous commands are distinct and answered in the order they were
      accepted: the answered ones, then the one in hand, then the queued ones. */
  lemma {:induction false} AnsweredOnceInOrder(events: seq<Event>)
    ensures var w := Run(events);
            Distinct(SyncIds(w.accepted)) && SyncIds(w.accepted) == ReplyIds(w.sent) + InHand(w) + SyncIds(w.queue)
  {
    RunSound(events);
    SyncIdsDistinct(Run(events).accepted);
  }

  /** After the bridge was dropped no synchronous command is left: all were returned. */
  lemma DroppedHasAnswered(w: World)
    requires Sound(w) && w.dropped
    ensures SyncIds(w.queue) == [] && InHand(w) == []
  {
    SyncIdsDistinct(w.accepted);
    var rest := InHand(w) + SyncIds(w.queue);
    assert SyncIds(w.accepted) == ReplyIds(w.sent) + rest;
    if rest != [] {
      var id := rest[0];
      assert id in SyncIds(w.accepted) by { assert SyncIds(w.accepted)[|ReplyIds(w.sent)|] == id; }
      ReturnedWasReplied(w, id);
      DistinctHalves(ReplyIds(w.sent), rest, id);
    }
  }

  lemma ReturnedWasReplied(w: World, id: nat)
    requires Sound(w) && w.dropped && id in SyncIds(w.accepted)
    ensures id in ReplyIds(w.sent)
  {
    SyncIdsMembers(w.accepted, id);
    var i :| 0 <= i < |w.accepted| && w.accepted[i].id == id && !w.accepted[i].IsFeedback();
    assert IsFinished(w.calls[id]);
    var reply := Reply(id, w.calls[id].pc.answer);
    assert reply in w.sent;
    var k :| 0 <= k < |w.sent| && w.sent[k] == reply;
    assert ReplyTo(id)(w.sent[k]);
    ReplyIdsMembers(w.sent, id);
  }

  /** Once the worker has exited every accepted synchronous command has been answered,
      and if it stopped by itself nothing at all is left in the queue. */
  lemma {:induction false} NothingStranded(events: seq<Event>)
    requires Run(events).worker.Exited?
    ensures var w := Run(events);
            SyncIds(w.accepted) == ReplyIds(w.sent) && (!w.dropped ==> w.queue == [])
  {
    var w := Run(events);
    RunSound(events);
    if w.dropped {
      DroppedHasAnswered(w);
    }
    EmptyIds();
  }

  /** The answer a call returns with is the one reply that was sent for it. */
  lemma {:induction false} OwnReplyOnly(events: seq<Event>, call: nat)
    requires call < |Run(events).calls| && Run(events).calls[call].pc.Returned?
    ensures var w := Run(events);
            forall k :: 0 <= k < |w.sent| && w.sent[k].id == call ==> w.sent[k].answer == w.calls[call].pc.answer
    ensures Any(Run(events).sent, ReplyTo(call))
  {
    var w := Run(events);
    AnsweredOnceInOrder(events);
    RunSound(events);
    var reply := Reply(call, w.calls[call].pc.answer);
    var n :| 0 <= n < |w.sent| && w.sent[n] == reply;
    assert ReplyTo(call)(w.sent[n]);
    forall k | 0 <= k < |w.sent| && w.sent[k].id == call ensures w.sent[k].answer == reply.answer {
      OneReply(w, k, n);
    }
  }

  lemma {:induction false} ReplyIdsAt(replies: seq<Reply>, k: nat)
    requires k < |replies|
    ensures |ReplyIds(replies)| == |replies| && ReplyIds(replies)[k] == replies[k].id
  {
    if |replies| > 1 {
      ReplyIdsAt(replies[1..], if k == 0 then 0 else k - 1);
    }
  }

  lemma OneReply(w: World, k: nat, n: nat)
    requires Fifo(w) && Distinct(SyncIds(w.accepted))
    requires k < |w.sent| && n < |w.sent| && w.sent[k].id == w.sent[n].id
    ensures k == n
  {
    ReplyIdsAt(w.sent, k);
    ReplyIdsAt(w.sent, n);
    var ids := SyncIds(w.accepted);
    assert ids[k] == ReplyIds(w.sent)[k] && ids[n] == ReplyIds(w.sent)[n];
  }

  /** A caller that waits when the worker has exited gets its reply: none waits forever. */
  lemma {:induction false} WaitingCallReturns(events: seq<Event>, call: nat)
    requires Run(events).worker.Exited? && call < |Run(events).calls| && Run(events).calls[call].pc.Accepted?
    requires !Command(call, Run(events).calls[call].kind).IsFeedback()
    ensures Step(Run(events), Receive(call)).calls[call].pc.Returned?
  {
    var w := Run(events);
    RunSound(events);
    NothingStranded(events);
    var command := Command(call, w.calls[call].kind);
    assert command in w.accepted;
    SyncIdsMembers(w.accepted, call);
    ReplyIdsMembers(w.sent, call);
  }

  /** At most 64 feedback commands wait: the newest accepted ones, in order. */
  lemma {:induction false} FeedbackAlwaysBounded(events: seq<Event>)
    ensures var w := Run(events);
            |Feedback(w.queue)| <= 64 && IsSuffix(Feedback(w.queue), Feedback(w.accepted))
  {
    RunSound(events);
  }
}

/** What becomes of the commands: what each one's processing came to is what its caller is
    told, in every interleaving (guest_driver/bridge.rs). */
module CommandAnswers {
  import opened Wrappers
  import opened Lists
  import opened CommandQueue
  import opened CommandQueueRuns

  /** A command the worker has processed and what that came to. */
  datatype Done = Done(command: Command, outcome: Outcome)

  /** What the worker does with `event` in `w`, when that is the end of a command. */
  function DoneBy(w: World, event: Event): seq<Done> {
    if event.Work? && w.worker.Processing? then [Done(w.worker.command, event.outcome)] else []
  }

  /** The commands that the worker throws out when it stops. */
  function DrainedBy(w: World, event: Event): seq<Command> {
    if event.Work? && w.worker.Draining? && w.lock.None? then w.queue else []
  }

  /** The commands a run processed, in order, each with what it came to. */
  function Processed(events: seq<Event>): seq<Done> {
    if events == [] then []
    else Processed(events[..|events| - 1]) + DoneBy(Run(events[..|events| - 1]), events[|events| - 1])
  }

  /** The commands a run threw out unprocessed. */
  function Drained(events: seq<Event>): seq<Command> {
    if events == [] then []
    else Drained(events[..|events| - 1]) + DrainedBy(Run(events[..|events| - 1]), events[|events| - 1])
  }

  function CommandsOf(done: seq<Done>): seq<Command> {
    if done == [] then [] else CommandsOf(done[..|done| - 1]) + [done[|done| - 1].command]
  }

  /** The replies due: a synchronous command's caller is told what it came to. */
  function Answers(done: seq<Done>): seq<Reply> {
    if done == [] then []
    else
      var last := done[|done| - 1];
      Answers(done[..|done| - 1])
      + if last.command.IsFeedback() then [] else [Reply(last.command.id, CommandQueue.Processed(last.outcome))]
  }

  function CountFeedback(done: seq<Done>, outcome: Outcome): nat {
    if done == [] then 0
    else
      var last := done[|done| - 1];
      CountFeedback(done[..|done| - 1], outcome) + if last.command.IsFeedback() && last.outcome == outcome then 1 else 0
  }

  function HandOf(w: World): seq<Command> {
    if w.worker.Processing? then [w.worker.command] else []
  }

  predicate IsLost(done: Done) {
    done.outcome.Lost?
  }

  // ------------------------------------------------------ replies and counters

  /** The replies, the taken commands and the counters, as the processed and thrown out
      commands determine them. */
  predicate Answered(w: World, done: seq<Done>, drained: seq<Command>) {
    && w.sent == Answers(done) + StopReplies(drained)
    && w.taken == CommandsOf(done) + HandOf(w) + drained
    && w.stats.sent == CountFeedback(done, Completed)
    && w.stats.errors == CountFeedback(done, Lost)
    && (drained != [] ==> w.worker.Exited?)
  }

  /** The worker stops itself at the first lost command, which is the last it processes. */
  predicate StoppedBy(w: World, done: seq<Done>) {
    && (forall k :: 0 <= k < |done| - 1 ==> !IsLost(done[k]))
    && (done != [] && IsLost(done[|done| - 1]) ==> w.worker.Storing? || w.worker.Draining? || w.worker.Exited?)
    && (w.worker.Storing? || w.worker.Draining? || (w.worker.Exited? && !w.dropped) ==> done != [] && IsLost(done[|done| - 1]))
  }

  lemma OneMoreDone(done: seq<Done>, d: Done)
    ensures CommandsOf(done + [d]) == CommandsOf(done) + [d.command]
    ensures Answers(done + [d])
         == Answers(done) + if d.command.IsFeedback() then [] else [Reply(d.command.id, CommandQueue.Processed(d.outcome))]
    ensures forall o :: CountFeedback(done + [d], o)
                     == CountFeedback(done, o) + if d.command.IsFeedback() && d.outcome == o then 1 else 0
  {
    assert (done + [d])[..|done|] == done;
  }

  lemma FinishAnswered(w: World, outcome: Outcome, done: seq<Done>)
    requires Answered(w, done, []) && w.worker.Processing?
    ensures Answered(WorkerStep(w, outcome), done + [Done(w.worker.command, outcome)], [])
  {
    hide Answers, CommandsOf, CountFeedback;
    OneMoreDone(done, Done(w.worker.command, outcome));
    NoStopReplies();
  }

  lemma NoStopReplies()
    ensures StopReplies([]) == []
  {}

  lemma WorkAnswered(w: World, outcome: Outcome, done: seq<Done>, drained: seq<Command>)
    requires Answered(w, done, drained)
    ensures Answered(WorkerStep(w, outcome), done + DoneBy(w, Work(outcome)), drained + DrainedBy(w, Work(outcome)))
  {
    hide Answered, WorkerStep;
    ThrownOutAtTheEnd(w, done, drained);
    assert drained + [] == drained;
    if w.worker.Processing? {
      FinishAnswered(w, outcome, done);
    } else if w.worker.Draining? && w.lock.None? {
      DrainAnswered(w, outcome, done);
      assert done + [] == done && [] + w.queue == w.queue;
    } else {
      IdleAnswered(w, outcome, done, drained);
      assert done + [] == done;
    }
  }

  lemma ThrownOutAtTheEnd(w: World, done: seq<Done>, drained: seq<Command>)
    requires Answered(w, done, drained)
    ensures !w.worker.Exited? ==> drained == []
  {}

  lemma IdleAnswered(w: World, outcome: Outcome, done: seq<Done>, drained: seq<Command>)
    requires Answered(w, done, drained) && !w.worker.Processing? && !(w.worker.Draining? && w.lock.None?)
    ensures Answered(WorkerStep(w, outcome), done, drained)
  {
    hide Answers, CommandsOf, CountFeedback, StopReplies;
  }

  lemma DrainAnswered(w: World, outcome: Outcome, done: seq<Done>)
    requires Answered(w, done, []) && w.worker.Draining? && w.lock.None?
    ensures Answered(WorkerStep(w, outcome), done, w.queue)
  {
    hide Answers, CommandsOf, CountFeedback, StopReplies;
    NoStopReplies();
  }

  lemma AdvanceKeeps(w: World, call: nat)
    requires call < |w.calls|
    ensures var w' := AdvanceCall(w, call);
            && w'.sent == w.sent && w'.taken == w.taken && w'.worker == w.worker && w'.dropped == w.dropped
            && w'.stats.sent == w.stats.sent && w'.stats.errors == w.stats.errors
  {
    hide MakeRoom;
  }

  lemma OthersKeep(w: World, event: Event)
    requires !event.Work?
    ensures var w' := Step(w, event);
            && w'.sent == w.sent && w'.taken == w.taken && w'.worker == w.worker && (w.dropped ==> w'.dropped)
            && w'.stats.sent == w.stats.sent && w'.stats.errors == w.stats.errors
  {
    hide AdvanceCall, FirstIndex, MayDrop;
    if event.Advance? && event.call < |w.calls| {
      AdvanceKeeps(w, event.call);
    }
  }

  lemma StepAnswered(w: World, event: Event, done: seq<Done>, drained: seq<Command>)
    requires Answered(w, done, drained)
    ensures Answered(Step(w, event), done + DoneBy(w, event), drained + DrainedBy(w, event))
  {
    hide Answers, CommandsOf, CountFeedback, StopReplies, WorkerStep;
    if event.Work? {
      WorkAnswered(w, event.outcome, done, drained);
    } else {
      hide Step;
      OthersKeep(w, event);
      assert done + [] == done && drained + [] == drained;
    }
  }

  lemma StepStoppedBy(w: World, event: Event, done: seq<Done>)
    requires StoppedBy(w, done) && StopsRightly(w)
    ensures StoppedBy(Step(w, event), done + DoneBy(w, event))
  {
    if event.Work? {
      WorkStoppedBy(w, event.outcome, done);
    } else {
      hide Step;
      OthersKeep(w, event);
      assert done + [] == done;
    }
  }

  lemma WorkStoppedBy(w: World, outcome: Outcome, done: seq<Done>)
    requires StoppedBy(w, done) && StopsRightly(w)
    ensures StoppedBy(WorkerStep(w, outcome), done + DoneBy(w, Work(outcome)))
  {
    hide StopReplies, MayDrop;
    if !w.worker.Processing? {
      assert done + [] == done;
    }
  }

  lemma {:induction false} RunAnswered(events: seq<Event>)
    ensures Answered(Run(events), Processed(events), Drained(events))
    ensures StoppedBy(Run(events), Processed(events))
  {
    if events != [] {
      hide Answered, StoppedBy, Step, Sound;
      var before, event := events[..|events| - 1], events[|events| - 1];
      RunAnswered(before);
      StopsRightlyNow(before);
      StepAnswered(Run(before), event, Processed(before), Drained(before));
      StepStoppedBy(Run(before), event, Processed(before));
    } else {
      NoStopReplies();
    }
  }

  lemma StopsRightlyNow(events: seq<Event>)
    ensures StopsRightly(Run(events)) && ReturnsReplies(Run(events)) && AcceptedCalls(Run(events)) && LockHeld(Run(events))
  {
    RunSound(events);
  }

  // ----------------------------------------------------------- what callers hear

  lemma {:induction false} AnswersMembers(done: seq<Done>, reply: Reply)
    ensures reply in Answers(done)
       <==> reply.answer.Processed? && exists d :: d in done && !d.command.IsFeedback()
                                                 && d.command.id == reply.id && d.outcome == reply.answer.outcome
  {
    if done != [] {
      var init, last := done[..|done| - 1], done[|done| - 1];
      assert done == init + [last];
      AnswersMembers(init, reply);
    }
  }

  lemma {:induction false} StopRepliesMembers(queue: seq<Command>, reply: Reply)
    ensures reply in StopReplies(queue)
       <==> reply.answer == WorkerStopped && exists c :: c in queue && !c.IsFeedback() && c.id == reply.id
  {
    if queue != [] {
      assert queue == [queue[0]] + queue[1..];
      StopRepliesMembers(queue[1..], reply);
    }
  }

  /** The call's command was processed and came to `outcome`. */
  predicate CameTo(done: seq<Done>, call: nat, outcome: Outcome) {
    exists d :: d in done && !d.command.IsFeedback() && d.command.id == call && d.outcome == outcome
  }

  predicate ThrownOut(drained: seq<Command>, call: nat) {
    exists c :: c in drained && !c.IsFeedback() && c.id == call
  }

  lemma SentIff(w: World, done: seq<Done>, drained: seq<Command>, reply: Reply)
    requires Answered(w, done, drained)
    ensures reply in w.sent <==> if reply.answer.Processed? then CameTo(done, reply.id, reply.answer.outcome)
                                 else ThrownOut(drained, reply.id)
  {
    hide Answers, StopReplies;
    AnswersMembers(done, reply);
    StopRepliesMembers(drained, reply);
  }

  /** A caller is told what the processing of its own command came to, and that the worker
      has stopped exactly if its command was thrown out unprocessed. */
  lemma {:induction false} CallersHearTheOutcome(events: seq<Event>, call: nat)
    requires call < |Run(events).calls| && Run(events).calls[call].pc.Returned?
    ensures var answer := Run(events).calls[call].pc.answer;
            && (forall outcome :: answer == CommandQueue.Processed(outcome) <==> CameTo(Processed(events), call, outcome))
            && (answer == WorkerStopped <==> ThrownOut(Drained(events), call))
  {
    hide Answered, CameTo, ThrownOut, Run, Processed, Drained;
    RunAnswered(events);
    StopsRightlyNow(events);
    var w := Run(events);
    var own := Reply(call, w.calls[call].pc.answer);
    assert own in w.sent;
    forall answer ensures Reply(call, answer) in w.sent <==> answer == own.answer {
      OneAnswer(events, call, answer);
    }
    SentIff(w, Processed(events), Drained(events), Reply(call, WorkerStopped));
    forall outcome
      ensures own.answer == CommandQueue.Processed(outcome) <==> CameTo(Processed(events), call, outcome)
    {
      SentIff(w, Processed(events), Drained(events), Reply(call, CommandQueue.Processed(outcome)));
    }
  }

  lemma OneAnswer(events: seq<Event>, call: nat, answer: Answer)
    requires call < |Run(events).calls| && Run(events).calls[call].pc.Returned?
    ensures Reply(call, answer) in Run(events).sent <==> answer == Run(events).calls[call].pc.answer
  {
    hide Run;
    OwnReplyOnly(events, call);
    StopsRightlyNow(events);
    assert Reply(call, Run(events).calls[call].pc.answer) in Run(events).sent;
  }

  /** When the worker is done with a synchronous command its caller, which waits, returns
      with what that came to, whatever the others do in between. */
  lemma {:induction false} OutcomeDelivered(events: seq<Event>, outcome: Outcome)
    requires Run(events).worker.Processing? && !Run(events).worker.command.IsFeedback()
    ensures var call := Run(events).worker.command.id;
            var w := Step(Run(events), Work(outcome));
            && call < |w.calls| && w.calls[call].pc == Accepted
            && Step(w, Receive(call)).calls[call].pc == Returned(CommandQueue.Processed(outcome))
  {
    hide Run;
    var w, command := Run(events), Run(events).worker.command;
    InHandWaits(events);
    var w' := Step(w, Work(outcome));
    var reply := Reply(command.id, CommandQueue.Processed(outcome));
    assert w'.sent == w.sent + [reply];
    FirstReply(w.sent, reply);
  }

  lemma FirstReply(sent: seq<Reply>, reply: Reply)
    requires !Any(sent, ReplyTo(reply.id))
    ensures FirstIndex(sent + [reply], ReplyTo(reply.id)) == Some(|sent|)
  {
    var found := FirstIndex(sent + [reply], ReplyTo(reply.id));
    assert (sent + [reply])[|sent|] == reply;
    assert ReplyTo(reply.id)((sent + [reply])[|sent|]);
    assert forall k :: 0 <= k < |sent| ==> (sent + [reply])[k] == sent[k];
  }

  /** The command in hand is accepted and unanswered. */
  lemma InHandWaits(events: seq<Event>)
    requires Run(events).worker.Processing? && !Run(events).worker.command.IsFeedback()
    ensures var w := Run(events);
            var command := w.worker.command;
            && command.id < |w.calls| && w.calls[command.id].pc == Accepted && w.calls[command.id].kind == command.kind
            && !Any(w.sent, ReplyTo(command.id))
  {
    hide Run, Fifo, LockHeld, OnRecord, StopsRightly, FeedbackBounded, AcceptedCalls, ReturnsReplies;
    RunSound(events);
    AnsweredOnceInOrder(events);
    NotYetAnswered(Run(events));
    AcceptedInHand(events);
    ReturnedWithReply(Run(events), Run(events).worker.command.id);
  }

  lemma NotYetAnswered(w: World)
    requires Fifo(w) && Distinct(SyncIds(w.accepted)) && w.worker.Processing? && !w.worker.command.IsFeedback()
    ensures !Any(w.sent, ReplyTo(w.worker.command.id))
  {
    hide SyncIds, ReplyIds, Distinct;
    var id := w.worker.command.id;
    SyncIdsOne(w.worker.command);
    var rest := [id] + SyncIds(w.queue);
    assert SyncIds(w.accepted) == ReplyIds(w.sent) + rest;
    assert rest[0] == id;
    OnOneSide(ReplyIds(w.sent), rest, id);
    ReplyIdsMembers(w.sent, id);
  }

  lemma ReturnedWithReply(w: World, call: nat)
    requires ReturnsReplies(w) && call < |w.calls|
    ensures w.calls[call].pc.Returned? ==> Any(w.sent, ReplyTo(call))
  {
    if w.calls[call].pc.Returned? {
      var reply := Reply(call, w.calls[call].pc.answer);
      var k :| 0 <= k < |w.sent| && w.sent[k] == reply;
      assert ReplyTo(call)(w.sent[k]);
    }
  }

  lemma OnOneSide(a: seq<nat>, b: seq<nat>, id: nat)
    requires Distinct(a + b) && id in b
    ensures id !in a
  {
    var j :| 0 <= j < |b| && b[j] == id;
    assert (a + b)[|a| + j] == id;
    assert forall i :: 0 <= i < |a| ==> a[i] == (a + b)[i];
  }

  // ---------------------------------------------------- where commands can be

  /** `a` was accepted before `b`. */
  predicate Before(accepted: seq<Command>, a: Command, b: Command) {
    exists p, q :: 0 <= p < q < |accepted| && accepted[p] == a && accepted[q] == b
  }

  predicate InOrder(commands: seq<Command>, accepted: seq<Command>) {
    && (forall c :: c in commands ==> c in accepted)
    && (forall i, j :: 0 <= i < j < |commands| ==> Before(accepted, commands[i], commands[j]))
  }

  /** Taken and queued commands are in the order of acceptance, and only feedback that
      made room is missing. */
  predicate Flows(w: World) {
    && InOrder(w.taken + w.queue, w.accepted)
    && |w.accepted| == |w.taken| + |w.queue| + w.stats.dropped
    && w.stats.enqueued == |Feedback(w.accepted)|
  }

  lemma BeforeLonger(accepted: seq<Command>, more: seq<Command>, a: Command, b: Command)
    requires Before(accepted, a, b)
    ensures Before(accepted + more, a, b)
  {
    var p, q :| 0 <= p < q < |accepted| && accepted[p] == a && accepted[q] == b;
    var all := accepted + more;
    assert all[p] == a && all[q] == b;
  }

  lemma OneMoreInOrder(commands: seq<Command>, accepted: seq<Command>, command: Command)
    requires InOrder(commands, accepted)
    ensures InOrder(commands + [command], accepted + [command])
  {
    hide Before;
    var more, all := commands + [command], accepted + [command];
    assert all[|accepted|] == command;
    forall c | c in more ensures c in all {}
    forall i, j | 0 <= i < j < |more| ensures Before(all, more[i], more[j]) {
      if j < |commands| {
        BeforeLonger(accepted, [command], more[i], more[j]);
      } else {
        LastIsAfter(accepted, more[i], command);
      }
    }
  }

  lemma LastIsAfter(accepted: seq<Command>, a: Command, command: Command)
    requires a in accepted
    ensures Before(accepted + [command], a, command)
  {
    var all := accepted + [command];
    var p :| 0 <= p < |accepted| && accepted[p] == a;
    assert all[p] == a && all[|accepted|] == command;
  }

  lemma FewerInOrder(a: seq<Command>, gone: Command, b: seq<Command>, accepted: seq<Command>)
    requires InOrder(a + [gone] + b, accepted)
    ensures InOrder(a + b, accepted)
  {
    hide Before;
    var all, rest := a + [gone] + b, a + b;
    assert forall i :: 0 <= i < |rest| ==> rest[i] == all[if i < |a| then i else i + 1];
    forall c | c in rest ensures c in accepted {
      assert c in all;
    }
    forall i, j | 0 <= i < j < |rest| ensures Before(accepted, rest[i], rest[j]) {
      assert rest[i] == all[if i < |a| then i else i + 1] && rest[j] == all[if j < |a| then j else j + 1];
    }
  }

  lemma MakeRoomFlows(taken: seq<Command>, queue: seq<Command>, accepted: seq<Command>)
    requires InOrder(taken + queue, accepted)
    ensures var (room, dropped) := MakeRoom(queue);
            InOrder(taken + room, accepted) && |queue| == |room| + dropped
  {
    hide InOrder;
    var found := FirstIndex(queue, IsFeedback);
    if MakeRoom(queue).0 != queue {
      var i := found.value;
      assert taken + queue == (taken + queue[..i]) + [queue[i]] + queue[i + 1..];
      FewerInOrder(taken + queue[..i], queue[i], queue[i + 1..], accepted);
      assert taken + (queue[..i] + queue[i + 1..]) == (taken + queue[..i]) + queue[i + 1..];
    }
  }

  lemma PushFlows(w: World, call: nat)
    requires Flows(w) && call < |w.calls|
    ensures Flows(PushCommand(w, call))
  {
    hide InOrder, MakeRoom, Feedback;
    var command := Command(call, w.calls[call].kind);
    FeedbackAppend(w.accepted, command);
    MakeRoomFlows(w.taken, w.queue, w.accepted);
    var room := if command.IsFeedback() then MakeRoom(w.queue).0 else w.queue;
    OneMoreInOrder(w.taken + room, w.accepted, command);
    assert w.taken + (room + [command]) == w.taken + room + [command];
  }

  lemma WorkFlows(w: World, outcome: Outcome)
    requires Flows(w)
    ensures Flows(WorkerStep(w, outcome))
  {
    hide InOrder, Feedback, WorkerStep;
    WorkMoves(w, outcome);
  }

  lemma WorkMoves(w: World, outcome: Outcome)
    ensures var w' := WorkerStep(w, outcome);
            && w'.taken + w'.queue == w.taken + w.queue && |w'.taken| + |w'.queue| == |w.taken| + |w.queue|
            && w'.accepted == w.accepted && w'.stats.dropped == w.stats.dropped && w'.stats.enqueued == w.stats.enqueued
  {
    hide StopReplies;
  }

  lemma StepFlows(w: World, event: Event)
    requires Flows(w)
    ensures Flows(Step(w, event))
  {
    hide InOrder, Feedback, PushCommand, WorkerStep, FirstIndex, MayDrop;
    match event
    case Enter(_) =>
    case Advance(call) =>
      if call < |w.calls| && w.calls[call].pc.Pushing? {
        PushFlows(w, call);
      }
    case Receive(_) =>
    case Work(outcome) => WorkFlows(w, outcome);
    case DropBridge =>
  }

  lemma {:induction false} RunFlows(events: seq<Event>)
    ensures Flows(Run(events))
  {
    if events != [] {
      hide Flows, Step;
      RunFlows(events[..|events| - 1]);
      StepFlows(Run(events[..|events| - 1]), events[|events| - 1]);
    }
  }

  /** Taken commands come from the record. */
  lemma AcceptedInHand(events: seq<Event>)
    requires Run(events).worker.Processing?
    ensures var w := Run(events);
            w.worker.command in w.accepted && w.worker.command.id < |w.calls|
            && w.calls[w.worker.command.id].kind == w.worker.command.kind && IsAccepted(w.calls[w.worker.command.id].pc)
  {
    hide Run;
    RunFlows(events);
    RunAnswered(events);
    StopsRightlyNow(events);
    var w := Run(events);
    assert w.worker.command in w.taken + w.queue by {
      assert w.taken[|CommandsOf(Processed(events))|] == w.worker.command;
    }
    var i :| 0 <= i < |w.accepted| && w.accepted[i] == w.worker.command;
  }

  /** Every accepted command is processed, in hand, thrown out at the stop, or queued, in
      the order of acceptance; only feedback commands that made room are missing, and the
      counters say how many those are. */
  lemma {:induction false} EveryCommandAccounted(events: seq<Event>)
    ensures var w := Run(events);
            var all := CommandsOf(Processed(events)) + HandOf(w) + Drained(events) + w.queue;
            && InOrder(all, w.accepted) && |w.accepted| == |all| + w.stats.dropped
            && w.stats.enqueued == |Feedback(w.accepted)|
            && w.stats.sent == CountFeedback(Processed(events), Completed)
            && w.stats.errors == CountFeedback(Processed(events), Lost)
  {
    hide Run, InOrder;
    RunFlows(events);
    RunAnswered(events);
  }

  /** A worker that was not dropped stops exactly when a command was lost, which is then
      the last one it processed; a worker that was has processed no other lost one. */
  lemma {:induction false} StopsItselfIff(events: seq<Event>)
    ensures var w := Run(events);
            var done := Processed(events);
            && (forall k :: 0 <= k < |done| && done[k].outcome.Lost? ==>
                  k == |done| - 1 && (w.worker.Storing? || w.worker.Draining? || w.worker.Exited?))
            && (w.worker.Storing? || w.worker.Draining? || (w.worker.Exited? && !w.dropped) ==>
                  done != [] && done[|done| - 1].outcome.Lost?)
  {
    hide Run, Processed, Drained;
    RunAnswered(events);
  }

  // ------------------------------------------------------------ the worker's pace

  /** One round of a worker that is awake: the first command, processed to its end. */
  function Round(outcome: Outcome): seq<Event> {
    [Work(outcome), Work(outcome), Work(outcome)]
  }

  function Rounds(outcomes: seq<Outcome>): seq<Event> {
    if outcomes == [] then [] else Rounds(outcomes[..|outcomes| - 1]) + Round(outcomes[|outcomes| - 1])
  }

  function Paired(commands: seq<Command>, outcomes: seq<Outcome>): (r: seq<Done>)
    requires |commands| == |outcomes|
    ensures |r| == |commands| && forall k :: 0 <= k < |r| ==> r[k] == Done(commands[k], outcomes[k])
  {
    if commands == [] then []
    else Paired(commands[..|commands| - 1], outcomes[..|outcomes| - 1])
         + [Done(commands[|commands| - 1], outcomes[|outcomes| - 1])]
  }

  predicate Ready(w: World) {
    w.running && w.lock.None? && w.worker.Waiting?
  }

  lemma OneEvent(events: seq<Event>, event: Event)
    ensures Run(events + [event]) == Step(Run(events), event)
    ensures Processed(events + [event]) == Processed(events) + DoneBy(Run(events), event)
  {
    assert (events + [event])[..|events|] == events;
  }

  lemma RoundProcesses(events: seq<Event>, outcome: Outcome)
    requires Ready(Run(events)) && Run(events).queue != [] && !outcome.Lost?
    ensures var w := Run(events);
            var w' := Run(events + Round(outcome));
            && Ready(w') && w'.queue == w.queue[1..] && w'.calls == w.calls
            && Processed(events + Round(outcome)) == Processed(events) + [Done(w.queue[0], outcome)]
  {
    hide Run, Processed;
    var work := Work(outcome);
    OneEvent(events, work);
    OneEvent(events + [work], work);
    OneEvent(events + [work] + [work], work);
    assert events + Round(outcome) == events + [work] + [work] + [work];
  }

  /** Left to itself the worker processes the queue from front to back, each command
      once, as long as none is lost. */
  lemma {:induction false} WorkerCatchesUp(events: seq<Event>, outcomes: seq<Outcome>)
    requires Ready(Run(events)) && |outcomes| <= |Run(events).queue| && Lost !in outcomes
    ensures var w := Run(events);
            var w' := Run(events + Rounds(outcomes));
            && Ready(w') && w'.queue == w.queue[|outcomes|..] && w'.calls == w.calls
            && Processed(events + Rounds(outcomes)) == Processed(events) + Paired(w.queue[..|outcomes|], outcomes)
    decreases outcomes
  {
    hide Run, Processed, Round;
    if outcomes == [] {
      assert events + Rounds(outcomes) == events;
    } else {
      var init, last := outcomes[..|outcomes| - 1], outcomes[|outcomes| - 1];
      WorkerCatchesUp(events, init);
      RoundProcesses(events + Rounds(init), last);
      assert events + Rounds(outcomes) == events + Rounds(init) + Round(last);
      var taken := Run(events).queue[..|outcomes|];
      assert taken[..|init|] == Run(events).queue[..|init|];
    }
  }

  /** A call that nothing disturbs is accepted while the bridge runs. */
  lemma {:induction false} UndisturbedCall(events: seq<Event>, kind: CommandKind)
    requires Run(events).running && Run(events).lock.None? && !Run(events).dropped
    ensures var call := |Run(events).calls|;
            var w := Run(events + [Enter(kind), Advance(call), Advance(call), Advance(call), Advance(call)]);
            && |w.calls| == call + 1 && w.calls[call] == Call(kind, Accepted) && w.lock.None?
            && w.accepted == Run(events).accepted + [Command(call, kind)]
            && w.queue != [] && w.queue[|w.queue| - 1] == Command(call, kind)
  {
    hide Run, MakeRoom, Processed;
    var call := |Run(events).calls|;
    var step := Advance(call);
    var e1 := events + [Enter(kind)];
    OneEvent(events, Enter(kind));
    OneEvent(e1, step);
    OneEvent(e1 + [step], step);
    OneEvent(e1 + [step] + [step], step);
    OneEvent(e1 + [step] + [step] + [step], step);
    assert events + [Enter(kind), step, step, step, step] == e1 + [step] + [step] + [step] + [step];
  }

  /** A call that finds the bridge stopped, at its first look or under the lock, is turned
      away with that step: at the first look it does not even take the lock. */
  lemma {:induction false} StoppedTurnsAway(events: seq<Event>, call: nat)
    requires !Run(events).running && call < |Run(events).calls|
    requires Run(events).calls[call].pc.Entering? || Run(events).calls[call].pc.Checking?
    ensures var w := Run(events);
            var w' := Step(w, Advance(call));
            && w'.calls[call].pc == TurnedAway && w'.accepted == w.accepted && w'.queue == w.queue
            && w'.lock == (if w.calls[call].pc.Checking? then None else w.lock)
  {
    hide Run;
  }

  lemma UnlockedWhenDropped(w: World)
    requires StopsRightly(w) && LockHeld(w) && w.dropped
    ensures w.lock.None? && !w.running
  {
    forall i | 0 <= i < |w.calls| ensures !HoldsLock(w.calls[i].pc) {
      assert IsFinished(w.calls[i]);
    }
  }

  /** One step of a worker that nobody disturbs once the flag is down. */
  lemma StepWhenStopped(w: World, outcome: Outcome)
    requires w.lock.None? && !w.running
    ensures var w' := WorkerStep(w, outcome);
            && w'.lock.None? && !w'.running
            && match w.worker
               case Processing(_) => w'.worker.Looping? || w'.worker.Storing?
               case Storing => w'.worker.Draining?
               case Waiting => if w.queue != [] then w'.worker == Processing(w.queue[0]) else w'.worker.Exited?
               case _ => w'.worker.Exited?
  {
    hide StopReplies;
  }

  /** What four steps of the worker come to once nobody disturbs it and the flag is down. */
  lemma FourSteps(w: World, a: Outcome, b: Outcome, c: Outcome, d: Outcome)
    requires w.lock.None? && !w.running
    ensures var w1 := WorkerStep(w, a);
            var w2 := WorkerStep(w1, b);
            var w3 := WorkerStep(w2, c);
            && WorkerStep(w3, d).worker.Exited?
            && DoneBy(w, Work(a)) + DoneBy(w1, Work(b)) + DoneBy(w2, Work(c)) + DoneBy(w3, Work(d))
               == (if w.worker.Processing? then [Done(w.worker.command, a)]
                   else if w.worker.Waiting? && w.queue != [] then [Done(w.queue[0], b)]
                   else [])
  {
    hide WorkerStep;
    var w1 := WorkerStep(w, a);
    var w2 := WorkerStep(w1, b);
    StepWhenStopped(w, a);
    StepWhenStopped(w1, b);
    StepWhenStopped(w2, c);
    StepWhenStopped(WorkerStep(w2, c), d);
  }

  /** When the bridge was dropped the worker ends within four steps. It finishes the
      command in hand or, if it was waiting, the first one queued, and takes no other. */
  lemma {:induction false} WorkerEndsAfterDrop(events: seq<Event>, a: Outcome, b: Outcome, c: Outcome, d: Outcome)
    requires Run(events).dropped
    ensures var w := Run(events);
            var longer := events + [Work(a), Work(b), Work(c), Work(d)];
            && Run(longer).worker.Exited?
            && Processed(longer)
               == Processed(events)
                  + (if w.worker.Processing? then [Done(w.worker.command, a)]
                     else if w.worker.Waiting? && w.queue != [] then [Done(w.queue[0], b)]
                     else [])
  {
    hide Run, Processed, WorkerStep, DoneBy;
    StopsRightlyNow(events);
    UnlockedWhenDropped(Run(events));
    FourSteps(Run(events), a, b, c, d);
    FourWorkEvents(events, a, b, c, d);
  }

  lemma FourWorkEvents(events: seq<Event>, a: Outcome, b: Outcome, c: Outcome, d: Outcome)
    ensures var w := Run(events);
            var w1 := WorkerStep(w, a);
            var w2 := WorkerStep(w1, b);
            var w3 := WorkerStep(w2, c);
            var longer := events + [Work(a), Work(b), Work(c), Work(d)];
            && Run(longer) == WorkerStep(w3, d)
            && Processed(longer)
               == Processed(events) + (DoneBy(w, Work(a)) + DoneBy(w1, Work(b)) + DoneBy(w2, Work(c)) + DoneBy(w3, Work(d)))
  {
    hide Run, Processed, WorkerStep, DoneBy;
    var e1 := events + [Work(a)];
    var e2 := e1 + [Work(b)];
    var e3 := e2 + [Work(c)];
    OneEvent(events, Work(a));
    OneEvent(e1, Work(b));
    OneEvent(e2, Work(c));
    OneEvent(e3, Work(d));
    assert events + [Work(a), Work(b), Work(c), Work(d)] == e3 + [Work(d)];
    Regrouped(Processed(events), DoneBy(Run(events), Work(a)), DoneBy(Run(e1), Work(b)), DoneBy(Run(e2), Work(c)), DoneBy(Run(e3), Work(d)));
  }

  lemma Regrouped(all: seq<Done>, a: seq<Done>, b: seq<Done>, c: seq<Done>, d: seq<Done>)
    ensures (((all + a) + b) + c) + d == all + (a + b + c + d)
  {}

  /** Only a bridge that no longer runs turns calls away. */
  lemma {:induction false} TurnedAwayOnlyWhenStopped(events: seq<Event>, call: nat)
    requires call < |Run(events).calls| && Run(events).calls[call].pc.TurnedAway?
    ensures !Run(events).running
  {
    RunTurnedAway(events);
  }

  predicate TurnsAwayRightly(w: World) {
    forall i :: 0 <= i < |w.calls| && w.calls[i].pc.TurnedAway? ==> !w.running
  }

  lemma {:induction false} RunTurnedAway(events: seq<Event>)
    ensures TurnsAwayRightly(Run(events))
  {
    if events != [] {
      RunTurnedAway(events[..|events| - 1]);
      StepTurnedAway(Run(events[..|events| - 1]), events[|events| - 1]);
    }
  }

  lemma StepTurnedAway(w: World, event: Event)
    requires TurnsAwayRightly(w)
    ensures TurnsAwayRightly(Step(w, event))
  {
    hide MakeRoom, FirstIndex, StopReplies, MayDrop;
  }
}

/** The bridge's command queue as an object: the locked regions of the enqueueing calls
    and of the worker, with the loops they run over the queue. */
module HostBridgeCommands {
  import opened Wrappers
  import opened Lists
  import opened CommandQueue

  datatype EnqueueError = CommandWorkerStopped | BadRequest

  /** Counts what a filter selects. */
  method CountFeedback(queue: seq<Command>) returns (count: nat)
    ensures count == |Without(queue, IsSynchronous)|
  {
    count := 0;
    for i := 0 to |queue|
      invariant count == |Without(queue[..i], IsSynchronous)|
    {
      assert queue[..i + 1] == queue[..i] + [queue[i]];
      WithoutAppend(queue[..i], [queue[i]], IsSynchronous);
      if queue[i].IsFeedback() {
        count := count + 1;
      }
    }
    assert queue[..|queue|] == queue;
  }

  method PositionOfFeedback(queue: seq<Command>) returns (index: Option<nat>)
    ensures index == FirstIndex(queue, IsFeedback)
  {
    var i := 0;
    assert queue[0..] == queue;
    while i < |queue|
      invariant 0 <= i <= |queue|
      invariant FirstIndex(queue, IsFeedback)
             == match FirstIndex(queue[i..], IsFeedback) case None => None case Some(k) => Some(i + k)
    {
      assert queue[i..][1..] == queue[i + 1..];
      if queue[i].IsFeedback() {
        return Some(i);
      }
      i := i + 1;
    }
    index := None;
  }

  class CommandQueueState {
    var running: bool
    var queue: seq<Command>
    var stats: FeedbackStats
    /** What the callers' response channels were sent. */
    var replies: seq<Reply>

    constructor ()
      ensures running && queue == [] && stats == FeedbackStats(0, 0, 0, 0) && replies == []
    {
      running, queue, stats, replies := true, [], FeedbackStats(0, 0, 0, 0), [];
    }

    /** A synchronous call's look at the flag under the lock, and its push. */
    method EnqueueCommand(command: Command) returns (result: Result<(), EnqueueError>)
      modifies this`queue
      ensures result == if running then Ok(()) else Err(CommandWorkerStopped)
      ensures queue == if running then old(queue) + [command] else old(queue)
    {
      if !running {
        return Err(CommandWorkerStopped);
      }
      queue := queue + [command];
      result := Ok(());
    }

    /** The same for feedback: at capacity the oldest feedback command makes room. */
    method EnqueueFeedback(command: Command) returns (result: Result<(), EnqueueError>)
      modifies this`queue, this`stats
      ensures result == if !command.IsFeedback() then Err(BadRequest)
                        else if running then Ok(()) else Err(CommandWorkerStopped)
      ensures if result.Err? then queue == old(queue) && stats == old(stats)
              else
                var (room, dropped) := MakeRoom(old(queue));
                && queue == room + [command]
                && stats == old(stats).(enqueued := old(stats).enqueued + 1, dropped := old(stats).dropped + dropped)
    {
      if !command.IsFeedback() {
        return Err(BadRequest);
      }
      if !running {
        return Err(CommandWorkerStopped);
      }
      var count := CountFeedback(queue);
      if count >= FeedbackCapacity() {
        var index := PositionOfFeedback(queue);
        if index.Some? {
          queue := queue[..index.value] + queue[index.value + 1..];
          stats := stats.(dropped := stats.dropped + 1);
        }
      }
      queue := queue + [command];
      stats := stats.(enqueued := stats.enqueued + 1);
      result := Ok(());
    }

    /** One look of the waiting worker: a command, the end, or another wait. */
    method NextCommand() returns (command: Option<Command>, stopped: bool)
      modifies this`queue
      ensures old(queue) == if command.Some? then [command.value] + queue else []
      ensures command.None? ==> queue == []
      ensures stopped == (command.None? && !running)
    {
      if queue != [] {
        command, stopped := Some(queue[0]), false;
        queue := queue[1..];
      } else {
        command, stopped := None, !running;
      }
    }

    /** Lowers the flag and answers everything that still waits. */
    method StopCommandWorker()
      modifies this`running, this`queue, this`replies
      ensures !running && queue == [] && replies == old(replies) + StopReplies(old(queue))
    {
      running := false;
      while queue != []
        invariant !running
        invariant replies + StopReplies(queue) == old(replies) + StopReplies(old(queue))
        decreases |queue|
      {
        var command := queue[0];
        queue := queue[1..];
        if !command.IsFeedback() {
          replies := replies + [Reply(command.id, WorkerStopped)];
        }
      }
    }
  }
}

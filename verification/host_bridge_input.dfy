/** The bridge's input side as an object: queue, route and statistics, each method
    proved against the function on values that the whole-run results are about. */
module HostBridgeInput {
  import opened Wrappers
  import opened Lists
  import opened Identity
  import opened InputQueue

  lemma {:induction false} WithoutOneMore(s: seq<InputReport>, i: nat, stale: InputReport -> bool)
    requires i < |s|
    ensures Without(s[..i + 1], stale) == Without(s[..i], stale) + (if stale(s[i]) then [] else [s[i]])
  {
    assert s[..i + 1] == s[..i] + [s[i]];
    WithoutAppend(s[..i], [s[i]], stale);
  }

  /** Searches from the back. */
  method LastPosition(s: seq<InputReport>, p: InputReport -> bool) returns (index: Option<nat>)
    ensures index == LastIndex(s, p)
  {
    var i := |s|;
    assert s[..i] == s;
    while i > 0
      invariant 0 <= i <= |s|
      invariant LastIndex(s, p) == LastIndex(s[..i], p)
    {
      assert s[..i][..i - 1] == s[..i - 1];
      i := i - 1;
      if p(s[i]) {
        return Some(i);
      }
    }
    index := None;
  }

  class HostBridge {
    const capacity: nat
    var queue: seq<InputReport>
    var preferred: Option<u8>
    var stats: InputStats
    /** Numbers the arrivals. */
    var arrivals: nat
    ghost var pending: seq<nat>
    ghost var delivered: seq<Delivery>

    ghost function State(): InputState
      reads this
    {
      InputState(capacity, queue, preferred, stats, pending, arrivals, delivered)
    }

    constructor (capacity: nat)
      ensures State() == Initial(capacity)
    {
      this.capacity := capacity;
      queue, preferred, stats := [], None, InputStats(0, 0, 0, 0);
      pending, arrivals, delivered := [], 0, [];
    }

    /** The pump's locked region. */
    method PumpReport(report: InputReport)
      modifies this
      ensures State() == Push(old(State()), report)
    {
      if |queue| >= capacity {
        if queue != [] {
          queue := queue[1..];
        }
        stats := stats.(droppedOldest := stats.droppedOldest + 1);
      }
      queue := queue + [report.(arrival := arrivals)];
      stats := stats.(pushed := stats.pushed + 1);
      arrivals := arrivals + 1;
    }

    /** First the interface's own reports, then those to be rerouted to it. */
    method FindLatestReport(requested: u8) returns (found: Option<(nat, Option<u8>)>)
      ensures found == FindLatest(queue, requested, preferred)
    {
      var exact := LastPosition(queue, ExactFor(requested, preferred));
      if exact.Some? {
        return Some((exact.value, None));
      }
      if !MayReroute(requested, preferred) {
        return None;
      }
      var main := LastPosition(queue, IsMainTriton);
      found := if main.Some? then Some((main.value, Some(requested))) else None;
    }

    /** Keeps the reports that the pop does not make stale; returns how many it drops. */
    method DropStaleReports(requested: u8, routed: Option<u8>) returns (dropped: nat)
      modifies this`queue
      ensures queue == Without(old(queue), StaleFor(requested, routed, preferred))
      ensures dropped == |old(queue)| - |queue|
    {
      var stale := StaleFor(requested, routed, preferred);
      var kept: seq<InputReport> := [];
      for i := 0 to |queue|
        invariant queue == old(queue)
        invariant kept == Without(queue[..i], stale)
      {
        WithoutOneMore(queue, i, stale);
        if !stale(queue[i]) {
          kept := kept + [queue[i]];
        }
      }
      assert queue[..|queue|] == queue;
      dropped := |queue| - |kept|;
      queue := kept;
    }

    /** The pop's locked region; `dropped` is still to be added to the statistics. */
    method TakeReport(requested: u8) returns (report: Option<InputReport>, dropped: nat)
      modifies this`queue, this`pending, this`delivered
      ensures (report, State()) == Take(old(State()), requested)
      ensures report.Some? ==> pending == old(pending) + [dropped]
    {
      var found := FindLatestReport(requested);
      if found.None? {
        return None, 0;
      }
      var (index, routed) := found.value;
      var source := queue[index];
      queue := queue[..index] + queue[index + 1..];
      dropped := DropStaleReports(requested, routed);
      var result := source;
      if routed.Some? {
        result := result.(interfaceNumber := routed.value);
        var role := WirelessRole(routed.value);
        if role.Some? {
          result := result.(role := role.value);
        }
      }
      pending := pending + [dropped];
      delivered := delivered + [Delivery(requested, preferred, routed, source, result)];
      report := Some(result);
    }

    /** The statistics of one pop, updated after the queue's lock was released. */
    method CountPop(ghost k: nat, dropped: nat)
      requires k < |pending| && pending[k] == dropped
      modifies this`stats, this`pending
      ensures State() == Count(old(State()), k)
    {
      stats := stats.(popped := stats.popped + 1, droppedStale := stats.droppedStale + dropped);
      pending := RemoveAt(pending, k);
    }

    method PopInputReport(requested: u8) returns (report: Option<InputReport>)
      modifies this`queue, this`pending, this`delivered, this`stats
      ensures report == Take(old(State()), requested).0
      ensures var taken := Take(old(State()), requested).1;
              State() == if report.Some? then Count(taken, |old(pending)|) else taken
      ensures pending == old(pending)
    {
      var dropped;
      report, dropped := TakeReport(requested);
      if report.Some? {
        CountPop(|old(pending)|, dropped);
        assert RemoveAt(old(pending) + [dropped], |old(pending)|) == old(pending);
      }
    }

    method UpdateInputRoutesFromFeature(interfaceNumber: u8, reportId: u8, data: seq<u8>)
      modifies this`preferred
      ensures State() == Step(old(State()), Feature(interfaceNumber, reportId, data))
    {
      if reportId != 0x02 || |data| < 2 || data[1] != 0xA3 || WirelessRole(interfaceNumber).None? {
        return;
      }
      var registered := false;
      var i := 3;
      while i < |data| && !registered
        invariant 3 <= i
        invariant registered ==> |data| > 3 && Any(data[3..], IsNonZero)
        invariant !registered ==> forall k :: 3 <= k < i && k < |data| ==> data[k] == 0
      {
        if data[i] != 0 {
          assert data[3..][i - 3] == data[i];
          registered := true;
        }
        i := i + 1;
      }
      if registered {
        preferred := Some(interfaceNumber);
      } else if preferred == Some(interfaceNumber) {
        preferred := None;
      }
    }

    /** Pops into a caller's buffer: what fits of the report, then zeros. */
    method CopyNextInputReport(requested: u8, output: array<u8>) returns (copied: Option<nat>)
      modifies this`queue, this`pending, this`delivered, this`stats, output
      ensures var (report, taken) := Take(old(State()), requested);
              if report.None? then copied == None && output[..] == old(output[..]) && State() == old(State())
              else
                var data := report.value.data;
                && copied == Some(if |data| < output.Length then |data| else output.Length)
                && output[..copied.value] == data[..copied.value]
                && (forall k :: copied.value <= k < output.Length ==> output[k] == 0)
                && State() == Count(taken, |old(pending)|)
    {
      var report := PopInputReport(requested);
      if report.None? {
        return None;
      }
      var data := report.value.data;
      var count := if output.Length < |data| then output.Length else |data|;
      for i := 0 to output.Length
        invariant forall k :: 0 <= k < i ==> output[k] == 0
        invariant State() == Count(Take(old(State()), requested).1, |old(pending)|)
      {
        output[i] := 0;
      }
      for i := 0 to count
        invariant output[..i] == data[..i]
        invariant forall k :: count <= k < output.Length ==> output[k] == 0
        invariant State() == Count(Take(old(State()), requested).1, |old(pending)|)
      {
        output[i] := data[i];
      }
      copied := Some(count);
    }
  }
}

/** What the input queue holds, who is registered and what is rerouted, read off the events
    and the bytes of the reports (guest_driver/bridge.rs). */
module InputQueueContents {
  import opened Wrappers
  import opened Lists
  import opened Identity
  import opened InputQueue
  import opened InputQueueRuns

  // --------------------------------------------------------------- overflow

  function Arrivals(reports: seq<InputReport>): seq<InputEvent> {
    if reports == [] then [] else Arrivals(reports[..|reports| - 1]) + [Arrive(reports[|reports| - 1])]
  }

  /** The reports with their places in the order of arrival, counted from `first`. */
  function Numbered(reports: seq<InputReport>, first: nat): (r: seq<InputReport>)
    ensures |r| == |reports| && forall k :: 0 <= k < |r| ==> r[k] == reports[k].(arrival := first + k)
  {
    seq(|reports|, k requires 0 <= k < |reports| => reports[k].(arrival := first + k))
  }

  /** The newest `capacity` reports. */
  function Newest(queue: seq<InputReport>, capacity: nat): seq<InputReport> {
    if |queue| <= capacity then queue else queue[|queue| - capacity..]
  }

  function Overflow(length: nat, capacity: nat): nat {
    if length <= capacity then 0 else length - capacity
  }

  lemma RunOneMore(capacity: nat, events: seq<InputEvent>, event: InputEvent)
    ensures Run(capacity, events + [event]) == Step(Run(capacity, events), event)
  {
    assert (events + [event])[..|events|] == events;
  }

  lemma PushNewest(st: InputState, queue: seq<InputReport>, report: InputReport)
    requires st.capacity > 0 && st.queue == Newest(queue, st.capacity)
    ensures var st' := Push(st, report);
            && st'.queue == Newest(queue + [report.(arrival := st.arrivals)], st.capacity)
            && st'.stats == st.stats.(pushed := st.stats.pushed + 1, droppedOldest := st'.stats.droppedOldest)
            && st'.stats.droppedOldest - st.stats.droppedOldest == Overflow(|queue| + 1, st.capacity) - Overflow(|queue|, st.capacity)
            && st' == st.(queue := st'.queue, stats := st'.stats, arrivals := st.arrivals + 1)
  {}

  /** While nothing is popped the queue holds the newest arrivals in order, as many as
      fit, and the oldest that do not are counted as such. */
  lemma {:induction false} NewestStay(capacity: nat, events: seq<InputEvent>, reports: seq<InputReport>)
    requires capacity > 0
    ensures var st := Run(capacity, events);
            var st' := Run(capacity, events + Arrivals(reports));
            && st'.queue == Newest(st.queue + Numbered(reports, st.arrivals), capacity)
            && st'.stats == st.stats.(pushed := st.stats.pushed + |reports|,
                                      droppedOldest := st.stats.droppedOldest + Overflow(|st.queue| + |reports|, capacity))
            && st'.capacity == capacity && st'.arrivals == st.arrivals + |reports|
            && st'.pending == st.pending && st'.delivered == st.delivered && st'.preferred == st.preferred
    decreases reports
  {
    hide Run, Newest, Numbered, Overflow, Push;
    var st := Run(capacity, events);
    EveryReportAccounted(capacity, events);
    NoneArrived(st);
    if reports == [] {
      assert events + Arrivals(reports) == events && st.queue + Numbered(reports, st.arrivals) == st.queue;
    } else {
      var init, last := reports[..|reports| - 1], reports[|reports| - 1];
      NewestStay(capacity, events, init);
      RunOneMore(capacity, events + Arrivals(init), Arrive(last));
      assert events + Arrivals(reports) == events + Arrivals(init) + [Arrive(last)];
      PushNewest(Run(capacity, events + Arrivals(init)), st.queue + Numbered(init, st.arrivals), last);
      OneMoreNumbered(st.queue, init, last, st.arrivals);
      assert reports == init + [last];
    }
  }

  lemma NoneArrived(st: InputState)
    ensures Numbered([], st.arrivals) == [] && (|st.queue| <= st.capacity ==> Newest(st.queue, st.capacity) == st.queue)
    ensures |st.queue| <= st.capacity ==> Overflow(|st.queue|, st.capacity) == 0
  {}

  lemma OneMoreNumbered(queue: seq<InputReport>, init: seq<InputReport>, last: InputReport, first: nat)
    ensures queue + Numbered(init + [last], first) == queue + Numbered(init, first) + [last.(arrival := first + |init|)]
  {}

  // --------------------------------------------------------------- counters

  /** The arrivals that found the queue full. */
  function Overflows(capacity: nat, events: seq<InputEvent>): nat {
    if events == [] then 0
    else
      var before, event := events[..|events| - 1], events[|events| - 1];
      Overflows(capacity, before) + if event.Arrive? && |Run(capacity, before).queue| == capacity then 1 else 0
  }

  function ArrivalCount(events: seq<InputEvent>): nat {
    if events == [] then 0
    else ArrivalCount(events[..|events| - 1]) + if events[|events| - 1].Arrive? then 1 else 0
  }

  lemma TakeCounters(st: InputState, requested: u8)
    ensures var (result, st') := Take(st, requested);
            && st'.stats == st.stats && st'.arrivals == st.arrivals && st'.capacity == st.capacity
            && |st'.pending| - |st.pending| == |st'.delivered| - |st.delivered| == (if result.Some? then 1 else 0)
  {
    hide FindLatest;
  }

  /** Each counter is the number of the things it is named after; stale reports are what
      is left of the pushed ones, and pops in flight have not yet counted theirs. */
  lemma {:induction false} CountersCount(capacity: nat, events: seq<InputEvent>)
    requires capacity > 0
    ensures var st := Run(capacity, events);
            && st.stats.pushed == st.arrivals == ArrivalCount(events)
            && st.stats.droppedOldest == Overflows(capacity, events)
            && st.stats.popped + |st.pending| == |st.delivered|
            && st.stats.droppedStale + Sum(st.pending)
               == ArrivalCount(events) - Overflows(capacity, events) - |st.delivered| - |st.queue|
  {
    EveryReportAccounted(capacity, events);
    if events != [] {
      var before, event := events[..|events| - 1], events[|events| - 1];
      CountersCount(capacity, before);
      EveryReportAccounted(capacity, before);
      if event.Pop? {
        hide Take;
        TakeCounters(Run(capacity, before), event.requested);
      }
    }
  }

  // ------------------------------------------------------------ registration

  /** The report tells of an occupied slot on wireless interface `n`. */
  predicate Registers(event: InputEvent, n: u8) {
    && event.Feature? && event.interfaceNumber == n && 3 <= n <= 5 && event.reportId == 2
    && (exists k :: 3 <= k < |event.data| && event.data[k] != 0) && event.data[1] == 163
  }

  /** The report tells that all slots of wireless interface `n` are free. */
  predicate Unregisters(event: InputEvent, n: u8) {
    && event.Feature? && event.interfaceNumber == n && 3 <= n <= 5 && event.reportId == 2
    && |event.data| >= 2 && event.data[1] == 163 && forall k :: 3 <= k < |event.data| ==> event.data[k] == 0
  }

  predicate RegistersSome(event: InputEvent) {
    event.Feature? && Registers(event, event.interfaceNumber)
  }

  lemma AnySlot(data: seq<u8>)
    requires |data| > 3
    ensures Any(data[3..], IsNonZero) <==> exists k :: 3 <= k < |data| && data[k] != 0
  {
    if k :| 3 <= k < |data| && data[k] != 0 {
      assert IsNonZero(data[3..][k - 3]);
    }
    if Any(data[3..], IsNonZero) {
      var k :| 0 <= k < |data[3..]| && IsNonZero(data[3..][k]);
      assert data[k + 3] != 0;
    }
  }

  /** One event changes the registration as its bytes say, and only then. */
  lemma RegistrationStep(st: InputState, event: InputEvent, n: u8)
    ensures Step(st, event).preferred == Some(n)
       <==> Registers(event, n)
            || (st.preferred == Some(n) && !Unregisters(event, n) && !RegistersSome(event))
  {
    hide Take;
    if event.Pop? {
      TakeKeepsRoutes(st, event.requested);
    } else if event.Feature? && |event.data| > 3 {
      AnySlot(event.data);
    }
  }

  lemma TakeKeepsRoutes(st: InputState, requested: u8)
    ensures Take(st, requested).1.preferred == st.preferred
  {}

  /** The latest registration of `n` since which it was neither removed nor replaced. */
  predicate StandsSince(events: seq<InputEvent>, n: u8, k: nat) {
    && k < |events| && Registers(events[k], n)
    && forall j :: k < j < |events| ==> !Unregisters(events[j], n) && !RegistersSome(events[j])
  }

  /** In every run interface `n` is registered iff some feature report registered it and
      none since has removed it or registered another. */
  lemma {:induction false} RegisteredIff(capacity: nat, events: seq<InputEvent>, n: u8)
    ensures Run(capacity, events).preferred == Some(n) <==> exists k :: StandsSince(events, n, k)
  {
    hide Registers, Unregisters, RegistersSome;
    if events != [] {
      var before, last := events[..|events| - 1], |events| - 1;
      RegisteredIff(capacity, before, n);
      hide Run;
      assert Run(capacity, events) == Step(Run(capacity, before), events[last]) by {
        assert events == before + [events[last]];
        RunOneMore(capacity, before, events[last]);
      }
      RegistrationStep(Run(capacity, before), events[last], n);
      if Registers(events[last], n) {
        assert StandsSince(events, n, last);
      } else {
        StandsOn(before, events, n);
      }
    }
  }

  lemma StandsOn(before: seq<InputEvent>, events: seq<InputEvent>, n: u8)
    requires events != [] && before == events[..|events| - 1] && !Registers(events[|events| - 1], n)
    ensures (exists k :: StandsSince(events, n, k))
       <==> (exists k :: StandsSince(before, n, k))
            && !Unregisters(events[|events| - 1], n) && !RegistersSome(events[|events| - 1])
  {
    hide Registers, Unregisters, RegistersSome;
    forall k ensures StandsSince(events, n, k)
                <==> StandsSince(before, n, k) && !Unregisters(events[|events| - 1], n) && !RegistersSome(events[|events| - 1])
    {
      assert forall j :: 0 <= j < |before| ==> before[j] == events[j];
    }
  }

  // --------------------------------------------------------------- rerouting

  /** A report of the controller itself, by its first byte, on the main interface. */
  predicate ControllerReport(report: InputReport) {
    && report.interfaceNumber == 2 && report.data != []
    && (report.data[0] == 66 || report.data[0] == 67 || report.data[0] == 69 || report.data[0] == 70 || report.data[0] == 121)
  }

  /** The role of each wireless interface. */
  predicate WirelessAs(n: u8, role: Role) {
    || (n == 3 && role == PuckInterface3) || (n == 4 && role == PuckInterface4) || (n == 5 && role == PuckInterface5)
  }

  predicate ByTheBytes(d: Delivery) {
    if d.source.interfaceNumber != d.requested then
      && ControllerReport(d.source) && WirelessAs(d.requested, d.returned.role) && d.preferred in {None, Some(d.requested)}
      && d.returned == d.source.(interfaceNumber := d.requested, role := d.returned.role)
    else
      d.returned == d.source && (ControllerReport(d.source) ==> d.preferred == None)
  }

  lemma RightByTheBytes(d: Delivery)
    requires DeliveredRightly(d)
    ensures ByTheBytes(d)
  {}

  /** Every delivery, read off the bytes: a controller report of the main interface goes
      to a wireless one with its number and role, none or that one being registered;
      anything else goes unchanged to its own interface. */
  lemma {:induction false} DeliveredByTheBytes(capacity: nat, events: seq<InputEvent>)
    ensures forall d :: d in Run(capacity, events).delivered ==> ByTheBytes(d)
  {
    if events != [] {
      DeliveredByTheBytes(capacity, events[..|events| - 1]);
      var st, event := Run(capacity, events[..|events| - 1]), events[|events| - 1];
      if event.Pop? {
        hide Take, ByTheBytes;
        PopDelivers(st, event.requested);
        var (result, st') := Take(st, event.requested);
        if result.Some? {
          var d := st'.delivered[|st.delivered|];
          RightByTheBytes(d);
          assert st'.delivered == st.delivered + [d];
        }
      }
    }
  }

  /** A wireless interface gets a controller report when it has none of its own to get
      and is registered, or nobody is: the newest one. */
  lemma {:induction false} ReroutedWhenDue(capacity: nat, events: seq<InputEvent>, n: u8, k: nat)
    requires 3 <= n <= 5 && k < |Run(capacity, events).queue| && ControllerReport(Run(capacity, events).queue[k])
    requires Run(capacity, events).preferred in {None, Some(n)}
    requires forall i :: 0 <= i < |Run(capacity, events).queue| ==> Run(capacity, events).queue[i].interfaceNumber != n
    requires forall i :: k < i < |Run(capacity, events).queue| ==> !ControllerReport(Run(capacity, events).queue[i])
    ensures var source := Run(capacity, events).queue[k];
            var (result, st') := Take(Run(capacity, events), n);
            && result.Some? && WirelessAs(n, result.value.role)
            && result.value == source.(interfaceNumber := n, role := result.value.role)
            && forall report :: report in st'.queue ==> !ControllerReport(report)
  {
    hide Run;
    var st := Run(capacity, events);
    NewestControllerReport(st.queue, k);
    NoneExact(st.queue, n, st.preferred);
    var (result, st') := Take(st, n);
    PopDelivers(st, n);
    WithoutMembers(st.queue, IsMainTriton);
  }

  lemma NewestControllerReport(queue: seq<InputReport>, k: nat)
    requires k < |queue| && ControllerReport(queue[k])
    requires forall i :: k < i < |queue| ==> !ControllerReport(queue[i])
    ensures LastIndex(queue, IsMainTriton) == Some(k)
  {
    assert forall report :: IsMainTriton(report) <==> ControllerReport(report);
    var found := LastIndex(queue, IsMainTriton);
    assert IsMainTriton(queue[k]);
  }

  lemma NoneExact(queue: seq<InputReport>, n: u8, preferred: Option<u8>)
    requires forall i :: 0 <= i < |queue| ==> queue[i].interfaceNumber != n
    ensures LastIndex(queue, ExactFor(n, preferred)) == None
  {}
}

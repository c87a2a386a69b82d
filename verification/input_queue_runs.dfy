/** What the input queue guarantees over every run of arrivals, pops on any interface,
    late statistics updates and route changes. */
module InputQueueRuns {
  import opened Wrappers
  import opened Lists
  import opened Identity
  import opened InputQueue

  // -------------------------------------------------------------- accounting

  function Sum(numbers: seq<nat>): nat {
    if numbers == [] then 0 else numbers[0] + Sum(numbers[1..])
  }

  lemma {:induction false} SumAppend(a: seq<nat>, b: seq<nat>)
    ensures Sum(a + b) == Sum(a) + Sum(b)
  {
    if a == [] {
      assert a + b == b;
    } else {
      assert (a + b)[1..] == a[1..] + b;
      SumAppend(a[1..], b);
    }
  }

  lemma SumRemoved(numbers: seq<nat>, k: nat)
    requires k < |numbers|
    ensures Sum(RemoveAt(numbers, k)) + numbers[k] == Sum(numbers)
  {
    assert numbers == numbers[..k] + numbers[k..] && numbers[k..][1..] == numbers[k + 1..];
    SumAppend(numbers[..k], numbers[k..]);
    SumAppend(numbers[..k], numbers[k + 1..]);
  }

  /** Every pushed report is queued, popped or dropped, pops that still owe their
      statistics included. */
  predicate Accounted(st: InputState) {
    && st.stats.pushed
       == st.stats.popped + |st.pending| + st.stats.droppedOldest + st.stats.droppedStale + Sum(st.pending) + |st.queue|
    && |st.queue| <= st.capacity
  }

  lemma TakeAccounted(st: InputState, requested: u8)
    requires Accounted(st)
    ensures Accounted(Take(st, requested).1)
  {
    var found := FindLatest(st.queue, requested, st.preferred);
    if found.Some? {
      var rest := RemoveAt(st.queue, found.value.0);
      var kept := Without(rest, StaleFor(requested, found.value.1, st.preferred));
      var dropped: nat := |rest| - |kept|;
      SumAppend(st.pending, [dropped]);
    }
  }

  lemma StepAccounted(st: InputState, event: InputEvent)
    requires Accounted(st) && st.capacity > 0
    ensures Accounted(Step(st, event)) && Step(st, event).capacity == st.capacity
  {
    match event
    case Arrive(report) =>
    case Pop(requested) => TakeAccounted(st, requested);
    case Counted(k) =>
      if k < |st.pending| {
        SumRemoved(st.pending, k);
      }
    case Feature(_, _, _) =>
  }

  /** At every moment of every run; with no pop in flight the counters balance alone. */
  lemma {:induction false} EveryReportAccounted(capacity: nat, events: seq<InputEvent>)
    requires capacity > 0
    ensures var st := Run(capacity, events);
            && st.capacity == capacity && Accounted(st)
            && (st.pending == [] ==>
                  st.stats.pushed == st.stats.popped + st.stats.droppedOldest + st.stats.droppedStale + |st.queue|)
  {
    if events != [] {
      EveryReportAccounted(capacity, events[..|events| - 1]);
      StepAccounted(Run(capacity, events[..|events| - 1]), events[|events| - 1]);
    }
  }

  // ------------------------------------------------------------- one delivery

  /** Reports that are always delivered in the order they arrived. */
  predicate SameClass(a: InputReport, b: InputReport) {
    a.interfaceNumber == b.interfaceNumber && IsMainTriton(a) == IsMainTriton(b)
  }

  /** Whom a report may go to: its own interface, or the registered wireless one (any
      wireless one when none is registered) for the controller's reports. */
  predicate DeliveredRightly(d: Delivery) {
    match d.routed
    case None =>
      && d.returned == d.source && d.source.interfaceNumber == d.requested
      && (IsMainTriton(d.source) ==> d.preferred.None?)
    case Some(target) =>
      && target == d.requested && IsMainTriton(d.source)
      && WirelessRole(target).Some? && (d.preferred == None || d.preferred == Some(target))
      && d.returned == d.source.(interfaceNumber := target, role := WirelessRole(target).value)
  }

  /** The reports that a pop takes or drops. */
  function Taken(d: Delivery): InputReport -> bool {
    StaleFor(d.requested, d.routed, d.preferred)
  }

  lemma RemovedThenFiltered(queue: seq<InputReport>, index: nat, stale: InputReport -> bool)
    requires index < |queue| && stale(queue[index])
    ensures Without(RemoveAt(queue, index), stale) == Without(queue, stale)
  {
    assert queue == queue[..index] + ([queue[index]] + queue[index + 1..]);
    WithoutAppend(queue[..index], [queue[index]] + queue[index + 1..], stale);
    WithoutAppend([queue[index]], queue[index + 1..], stale);
    WithoutAppend(queue[..index], queue[index + 1..], stale);
  }

  /** A pop delivers one of the reports it may deliver and leaves exactly the others, in
      order; it delivers nothing only if there is none to deliver. */
  lemma {:induction false} PopDelivers(st: InputState, requested: u8)
    ensures var (result, st') := Take(st, requested);
            if result.None? then
              && st' == st && !Any(st.queue, ExactFor(requested, st.preferred))
              && (MayReroute(requested, st.preferred) ==> !Any(st.queue, IsMainTriton))
            else
              && |st'.delivered| == |st.delivered| + 1 && st'.delivered[..|st.delivered|] == st.delivered
              && var d := st'.delivered[|st.delivered|];
                 && d.returned == result.value && d.requested == requested && d.preferred == st.preferred
                 && DeliveredRightly(d) && d.source in st.queue && Taken(d)(d.source)
                 && st'.queue == Without(st.queue, Taken(d))
                 && (d.routed.Some? ==> !Any(st.queue, ExactFor(requested, st.preferred)))
  {
    var found := FindLatest(st.queue, requested, st.preferred);
    if found.Some? {
      RemovedThenFiltered(st.queue, found.value.0, StaleFor(requested, found.value.1, st.preferred));
    }
  }

  /** What a pop takes and drops are whole classes of reports. */
  lemma TakenByClass(d: Delivery, a: InputReport, b: InputReport)
    requires SameClass(a, b)
    ensures Taken(d)(a) == Taken(d)(b)
  {}

  // ------------------------------------------------------------------ in order

  predicate Ordered(queue: seq<InputReport>) {
    forall i, j :: 0 <= i < j < |queue| ==> queue[i].arrival < queue[j].arrival
  }

  /** Classes are ordered, and a queue with room for one report orders everything. */
  predicate Related(capacity: nat, a: InputReport, b: InputReport) {
    capacity == 1 || SameClass(a, b)
  }

  predicate Before(capacity: nat, d: Delivery, report: InputReport) {
    Related(capacity, d.source, report) ==> d.source.arrival < report.arrival
  }

  predicate DeliveredInOrder(capacity: nat, delivered: seq<Delivery>) {
    forall i, j :: 0 <= i < j < |delivered| ==> Before(capacity, delivered[i], delivered[j].source)
  }

  /** Delivered reports are older than the queued ones of their class. */
  predicate DeliveredBefore(capacity: nat, delivered: seq<Delivery>, queue: seq<InputReport>) {
    forall d, q :: d in delivered && q in queue ==> Before(capacity, d, q)
  }

  predicate InOrder(st: InputState) {
    && |st.queue| <= st.capacity
    && (forall d :: d in st.delivered ==> DeliveredRightly(d) && d.source.arrival < st.arrivals)
    && (forall q :: q in st.queue ==> q.arrival < st.arrivals)
    && DeliveredBefore(st.capacity, st.delivered, st.queue)
    && DeliveredInOrder(st.capacity, st.delivered)
  }

  lemma PushInOrder(st: InputState, report: InputReport)
    requires InOrder(st) && st.capacity > 0
    ensures InOrder(Push(st, report))
  {
    var st' := Push(st, report);
    var newest := report.(arrival := st.arrivals);
    assert forall q :: q in PopFront(st.queue) ==> q in st.queue;
    assert forall q :: q in st'.queue ==> q in st.queue || q == newest;
  }

  lemma TakeInOrder(st: InputState, requested: u8)
    requires InOrder(st)
    ensures InOrder(Take(st, requested).1)
  {
    hide Before, DeliveredRightly;
    PopDelivers(st, requested);
    var (result, st') := Take(st, requested);
    if result.Some? {
      var d := st'.delivered[|st.delivered|];
      WithoutMembers(st.queue, Taken(d));
      assert st'.delivered == st.delivered + [d];
      forall q | q in st'.queue ensures Before(st.capacity, d, q) {
        QueueAfterTake(st, d, q);
      }
    }
  }

  /** Nothing that stays in the queue is ordered with the report just taken. */
  lemma QueueAfterTake(st: InputState, d: Delivery, q: InputReport)
    requires d.source in st.queue && Taken(d)(d.source) && q in st.queue && !Taken(d)(q) && |st.queue| <= st.capacity
    ensures Before(st.capacity, d, q)
  {
    if SameClass(d.source, q) {
      TakenByClass(d, d.source, q);
    }
  }

  lemma StepInOrder(st: InputState, event: InputEvent)
    requires InOrder(st) && st.capacity > 0
    ensures InOrder(Step(st, event)) && Step(st, event).capacity == st.capacity
  {
    match event
    case Arrive(report) => PushInOrder(st, report);
    case Pop(requested) => TakeInOrder(st, requested);
    case Counted(_) =>
    case Feature(_, _, _) =>
  }

  lemma {:induction false} RunInOrder(capacity: nat, events: seq<InputEvent>)
    requires capacity > 0
    ensures InOrder(Run(capacity, events)) && Run(capacity, events).capacity == capacity
  {
    if events != [] {
      RunInOrder(capacity, events[..|events| - 1]);
      StepInOrder(Run(capacity, events[..|events| - 1]), events[|events| - 1]);
    }
  }

  /** Across all consumers the controller's main-interface reports are delivered at most
      once, in the order they arrived; so are the reports of every other class. */
  lemma {:induction false} OnceInArrivalOrder(capacity: nat, events: seq<InputEvent>, i: nat, j: nat)
    requires capacity > 0 && i < j < |Run(capacity, events).delivered|
    requires var delivered := Run(capacity, events).delivered;
             SameClass(delivered[i].source, delivered[j].source)
    ensures var delivered := Run(capacity, events).delivered;
            delivered[i].source.arrival < delivered[j].source.arrival
  {
    RunInOrder(capacity, events);
    assert Before(capacity, Run(capacity, events).delivered[i], Run(capacity, events).delivered[j].source);
  }

  /** The controller's reports go to the main interface, untouched and while no wireless
      interface is registered, or to the wireless interface that may have them. */
  lemma {:induction false} OnlyToRegistered(capacity: nat, events: seq<InputEvent>, i: nat)
    requires capacity > 0 && i < |Run(capacity, events).delivered|
    ensures var d := Run(capacity, events).delivered[i];
            DeliveredRightly(d)
    ensures var d := Run(capacity, events).delivered[i];
            IsMainTriton(d.source) ==>
              || (d.requested == PUCK_MAIN_INTERFACE && d.preferred.None? && d.returned == d.source)
              || (&& WirelessRole(d.requested).Some? && (d.preferred == None || d.preferred == Some(d.requested))
                  && d.returned == d.source.(interfaceNumber := d.requested, role := WirelessRole(d.requested).value))
  {
    RunInOrder(capacity, events);
  }

  predicate NotMainTriton(report: InputReport) {
    !IsMainTriton(report)
  }

  /** While an interface is registered, no other one gets the controller's reports. */
  lemma {:induction false} OthersGetNothing(st: InputState, requested: u8)
    requires st.preferred.Some? && st.preferred != Some(requested)
    ensures var (result, st') := Take(st, requested);
            Without(st'.queue, NotMainTriton) == Without(st.queue, NotMainTriton)
            && (result.Some? ==> !IsMainTriton(result.value))
  {
    PopDelivers(st, requested);
    var (result, st') := Take(st, requested);
    if result.Some? {
      var d := st'.delivered[|st.delivered|];
      SelectionKept(st.queue, Taken(d), NotMainTriton);
    }
  }

  /** A pop never removes or reorders reports that it could not itself deliver. */
  lemma {:induction false} OtherClassesUntouched(st: InputState, requested: u8, other: InputReport -> bool)
    requires forall r :: IsExact(r, requested, st.preferred) || (MayReroute(requested, st.preferred) && IsMainTriton(r)) ==> other(r)
    ensures Without(Take(st, requested).1.queue, other) == Without(st.queue, other)
  {
    PopDelivers(st, requested);
    var (result, st') := Take(st, requested);
    if result.Some? {
      var d := st'.delivered[|st.delivered|];
      SelectionKept(st.queue, Taken(d), other);
    }
  }

  // -------------------------------------------------------------- latest wins

  lemma OrderedInFront(first: InputReport, rest: seq<InputReport>)
    requires Ordered(rest) && forall i :: 0 <= i < |rest| ==> first.arrival < rest[i].arrival
    ensures Ordered([first] + rest)
  {}

  lemma {:induction false} WithoutOrdered(queue: seq<InputReport>, stale: InputReport -> bool)
    requires Ordered(queue)
    ensures Ordered(Without(queue, stale))
  {
    if queue != [] {
      var tail := queue[1..];
      assert forall i :: 0 <= i < |tail| ==> tail[i] == queue[i + 1];
      WithoutOrdered(tail, stale);
      WithoutMembers(tail, stale);
      var rest := Without(tail, stale);
      forall i | 0 <= i < |rest| ensures queue[0].arrival < rest[i].arrival {
        assert rest[i] in tail;
        var k :| 0 <= k < |tail| && tail[k] == rest[i];
      }
      OrderedInFront(queue[0], rest);
    }
  }

  predicate QueueOrdered(st: InputState) {
    Ordered(st.queue) && forall i :: 0 <= i < |st.queue| ==> st.queue[i].arrival < st.arrivals
  }

  lemma StepOrdered(st: InputState, event: InputEvent)
    requires QueueOrdered(st)
    ensures QueueOrdered(Step(st, event))
  {
    hide Take;
    if event.Pop? {
      TakeOrdered(st, event.requested);
    }
  }

  lemma TakeArrivals(st: InputState, requested: u8)
    ensures Take(st, requested).1.arrivals == st.arrivals
  {}

  lemma TakeOrdered(st: InputState, requested: u8)
    requires QueueOrdered(st)
    ensures QueueOrdered(Take(st, requested).1)
  {
    hide Take;
    PopDelivers(st, requested);
    TakeArrivals(st, requested);
    var (result, st') := Take(st, requested);
    if result.Some? {
      var stale := Taken(st'.delivered[|st.delivered|]);
      WithoutOrdered(st.queue, stale);
      WithoutMembers(st.queue, stale);
      assert forall i :: 0 <= i < |st'.queue| ==> st'.queue[i] in Without(st.queue, stale);
    }
  }

  lemma {:induction false} RunOrdered(capacity: nat, events: seq<InputEvent>)
    ensures QueueOrdered(Run(capacity, events))
  {
    if events != [] {
      RunOrdered(capacity, events[..|events| - 1]);
      StepOrdered(Run(capacity, events[..|events| - 1]), events[|events| - 1]);
    }
  }

  /** What a pop returns is the newest of the reports it takes or drops. */
  lemma {:induction false} LatestWins(capacity: nat, events: seq<InputEvent>, requested: u8)
    ensures var st := Run(capacity, events);
            var (result, st') := Take(st, requested);
            result.Some? ==>
              && |st'.delivered| > 0
              && var d := st'.delivered[|st'.delivered| - 1];
                 d.returned == result.value && forall q :: q in st.queue && q !in st'.queue ==> q.arrival <= d.source.arrival
  {
    RunOrdered(capacity, events);
    var st := Run(capacity, events);
    PopDelivers(st, requested);
    var (result, st') := Take(st, requested);
    if result.Some? {
      var d := st'.delivered[|st.delivered|];
      WithoutMembers(st.queue, Taken(d));
      forall q | q in st.queue && q !in st'.queue ensures q.arrival <= d.source.arrival {
        TakenIsOlder(st, requested, q);
      }
    }
  }

  lemma TakenIsOlder(st: InputState, requested: u8, q: InputReport)
    requires QueueOrdered(st) && FindLatest(st.queue, requested, st.preferred).Some? && q in st.queue
    requires var (index, routed) := FindLatest(st.queue, requested, st.preferred).value;
             StaleFor(requested, routed, st.preferred)(q)
    ensures q.arrival <= st.queue[FindLatest(st.queue, requested, st.preferred).value.0].arrival
  {
    var k :| 0 <= k < |st.queue| && st.queue[k] == q;
  }

  // ------------------------------------------- order as one interface sees it

  /** The deliveries to one interface are in the order of arrival. */
  predicate InOrderFor(requested: u8, delivered: seq<Delivery>) {
    forall i, j :: 0 <= i < j < |delivered| && delivered[i].requested == requested == delivered[j].requested
      ==> delivered[i].source.arrival < delivered[j].source.arrival
  }

  ghost predicate AlwaysInOrderFor(requested: u8, capacity: nat) {
    forall events: seq<InputEvent> :: InOrderFor(requested, Run(capacity, events).delivered)
  }

  function TritonReport(): InputReport {
    InputReport(0, 0, PUCK_MAIN_INTERFACE, PuckMain, 0, [0x42])
  }

  function PlainReport(interfaceNumber: u8): InputReport {
    InputReport(0, 0, interfaceNumber, PuckMain, 0, [])
  }

  function Registers(present: bool): InputEvent {
    Feature(3, 0x02, [0, 0xA3, 0, if present then 1 else 0])
  }

  /** A wireless interface's own report overtakes an older rerouted one; a report held
      back for a wireless interface comes after newer ones once the route is gone. */
  function Overtaking(requested: u8): seq<InputEvent> {
    if requested == PUCK_MAIN_INTERFACE then
      [Registers(true), Arrive(TritonReport()), Arrive(PlainReport(requested)), Pop(requested), Registers(false), Pop(requested)]
    else [Arrive(TritonReport()), Arrive(PlainReport(requested)), Pop(requested), Pop(requested)]
  }

  lemma RunMore(capacity: nat, events: seq<InputEvent>, event: InputEvent)
    ensures Run(capacity, events + [event]) == Step(Run(capacity, events), event)
  {
    assert (events + [event])[..|events|] == events;
  }

  lemma PairLast(a: InputReport, b: InputReport, p: InputReport -> bool)
    ensures p(b) ==> LastIndex([a, b], p) == Some(1)
    ensures !p(a) && !p(b) ==> LastIndex([a, b], p) == None
    ensures p(a) && !p(b) ==> LastIndex([a, b], p) == Some(0)
  {
    assert [a, b][..1] == [a];
  }

  /** With the controller's older report first and the interface's own report second,
      the own report is popped and the other one stays. */
  lemma OwnReportFirst(st: InputState, requested: u8, a: InputReport, b: InputReport)
    requires st.queue == [a, b] && IsMainTriton(a) && IsExact(b, requested, st.preferred)
    requires !IsExact(a, requested, st.preferred)
    ensures var st' := Take(st, requested).1;
            st'.queue == [a] && st'.delivered == st.delivered + [Delivery(requested, st.preferred, None, b, b)]
            && st'.preferred == st.preferred && st'.arrivals == st.arrivals
  {
    PairLast(a, b, ExactFor(requested, st.preferred));
    assert RemoveAt([a, b], 1) == [a];
    assert Without([a], ExactFor(requested, st.preferred)) == [a];
  }

  lemma OldReportSecond(st: InputState, requested: u8, a: InputReport)
    requires st.queue == [a] && IsMainTriton(a)
    requires IsExact(a, requested, st.preferred) || MayReroute(requested, st.preferred)
    ensures var st' := Take(st, requested).1;
            |st'.delivered| == |st.delivered| + 1 && st'.delivered[..|st.delivered|] == st.delivered
            && st'.delivered[|st.delivered|].source == a && st'.delivered[|st.delivered|].requested == requested
  {
    assert ExactFor(requested, st.preferred)(a) == IsExact(a, requested, st.preferred);
    PopDelivers(st, requested);
    assert st.queue[0] == a;
  }

  /** The controller's report and then the wireless interface's own one, queued. */
  function BothQueued(requested: u8): seq<InputEvent> {
    [] + [Arrive(TritonReport())] + [Arrive(PlainReport(requested))]
  }

  lemma BothQueuedState(capacity: nat, requested: u8)
    requires capacity > 1
    ensures var st := Run(capacity, BothQueued(requested));
            st.queue == [TritonReport().(arrival := 0), PlainReport(requested).(arrival := 1)]
            && st.preferred == None && st.delivered == []
  {
    hide TritonReport, PlainReport;
    RunMore(capacity, [], Arrive(TritonReport()));
    RunMore(capacity, [] + [Arrive(TritonReport())], Arrive(PlainReport(requested)));
  }

  lemma WirelessOvertaking(requested: u8)
    requires requested != PUCK_MAIN_INTERFACE
    ensures Overtaking(requested) == BothQueued(requested) + [Pop(requested)] + [Pop(requested)]
  {}

  lemma OvertakingWireless(capacity: nat, requested: u8)
    requires capacity > 1 && WirelessRole(requested).Some?
    ensures !InOrderFor(requested, Run(capacity, Overtaking(requested)).delivered)
  {
    hide Take, Run, Overtaking, BothQueued;
    var pop := Pop(requested);
    WirelessOvertaking(requested);
    RunMore(capacity, BothQueued(requested), pop);
    RunMore(capacity, BothQueued(requested) + [pop], pop);
    BothQueuedState(capacity, requested);
    var st := Run(capacity, BothQueued(requested));
    var a, b := TritonReport().(arrival := 0), PlainReport(requested).(arrival := 1);
    OwnReportFirst(st, requested, a, b);
    var st' := Step(st, pop);
    OldReportSecond(st', requested, a);
    LastTwoOutOfOrder(requested, Step(st', pop).delivered, b, a);
  }

  /** Two deliveries to one interface, the newer report first. */
  lemma LastTwoOutOfOrder(requested: u8, delivered: seq<Delivery>, first: InputReport, second: InputReport)
    requires |delivered| == 2 && delivered[..1][0].source == first && delivered[1].source == second
    requires delivered[..1][0].requested == requested && delivered[1].requested == requested
    requires first.arrival > second.arrival
    ensures !InOrderFor(requested, delivered)
  {
    assert delivered[..1][0] == delivered[0];
  }

  lemma RegistersRoutes(preferred: Option<u8>, present: bool)
    ensures Registers(present) == Feature(3, 0x02, Registers(present).data)
    ensures UpdateRoutes(preferred, 3, 0x02, Registers(present).data)
         == if present then Some(3) else if preferred == Some(3) then None else preferred
  {
    var data := Registers(present).data;
    assert data[3..] == [if present then 1 else 0];
    assert data[3..][0] == if present then 1 else 0;
  }

  /** Both reports queued while the wireless interface is registered. */
  function HeldBack(): seq<InputEvent> {
    [] + [Registers(true)] + [Arrive(TritonReport())] + [Arrive(PlainReport(PUCK_MAIN_INTERFACE))]
  }

  lemma HeldBackState(capacity: nat)
    requires capacity > 1
    ensures var st := Run(capacity, HeldBack());
            st.queue == [TritonReport().(arrival := 0), PlainReport(PUCK_MAIN_INTERFACE).(arrival := 1)]
            && st.preferred == Some(3) && st.delivered == []
  {
    hide UpdateRoutes, Registers, TritonReport, PlainReport;
    var on, t, p := Registers(true), Arrive(TritonReport()), Arrive(PlainReport(PUCK_MAIN_INTERFACE));
    RegistersRoutes(None, true);
    RunMore(capacity, [], on);
    RunMore(capacity, [] + [on], t);
    RunMore(capacity, [] + [on] + [t], p);
  }

  lemma MainOvertaking()
    ensures Overtaking(PUCK_MAIN_INTERFACE)
         == HeldBack() + [Pop(PUCK_MAIN_INTERFACE)] + [Registers(false)] + [Pop(PUCK_MAIN_INTERFACE)]
  {}

  lemma OvertakingMain(capacity: nat)
    requires capacity > 1
    ensures !InOrderFor(PUCK_MAIN_INTERFACE, Run(capacity, Overtaking(PUCK_MAIN_INTERFACE)).delivered)
  {
    hide Take, UpdateRoutes, Registers, HeldBack, Run, Overtaking;
    var off, pop := Registers(false), Pop(PUCK_MAIN_INTERFACE);
    MainOvertaking();
    RunMore(capacity, HeldBack(), pop);
    RunMore(capacity, HeldBack() + [pop], off);
    RunMore(capacity, HeldBack() + [pop] + [off], pop);
    HeldBackState(capacity);
    var st := Run(capacity, HeldBack());
    var a, b := TritonReport().(arrival := 0), PlainReport(PUCK_MAIN_INTERFACE).(arrival := 1);
    OwnReportFirst(st, PUCK_MAIN_INTERFACE, a, b);
    RegistersRoutes(Some(3), false);
    var st' := Step(Step(st, pop), off);
    OldReportSecond(st', PUCK_MAIN_INTERFACE, a);
    LastTwoOutOfOrder(PUCK_MAIN_INTERFACE, Step(st', pop).delivered, b, a);
  }

  /** Deliveries to an interface are in arrival order in every run exactly if the queue
      holds a single report or the interface has nothing to do with rerouting. */
  lemma {:induction false} InOrderForIff(requested: u8, capacity: nat)
    requires capacity > 0
    ensures AlwaysInOrderFor(requested, capacity) <==> capacity == 1 || !(2 <= requested <= 5)
  {
    if capacity == 1 || !(2 <= requested <= 5) {
      forall events: seq<InputEvent> ensures InOrderFor(requested, Run(capacity, events).delivered) {
        RunInOrder(capacity, events);
        InOrderForOne(capacity, requested, Run(capacity, events));
      }
    } else if requested == PUCK_MAIN_INTERFACE {
      OvertakingMain(capacity);
    } else {
      OvertakingWireless(capacity, requested);
    }
  }

  lemma InOrderForOne(capacity: nat, requested: u8, st: InputState)
    requires InOrder(st) && st.capacity == capacity && (capacity == 1 || !(2 <= requested <= 5))
    ensures InOrderFor(requested, st.delivered)
  {
    var delivered := st.delivered;
    forall i, j | 0 <= i < j < |delivered| && delivered[i].requested == requested == delivered[j].requested
      ensures delivered[i].source.arrival < delivered[j].source.arrival
    {
      assert DeliveredRightly(delivered[i]) && DeliveredRightly(delivered[j]);
      assert Before(capacity, delivered[i], delivered[j].source);
    }
  }
}

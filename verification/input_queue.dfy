/** Input reports between the pump and the consumers: latest-wins delivery, wireless
    rerouting and the counters (guest_driver/bridge.rs). */
module InputQueue {
  import opened Wrappers
  import opened Lists
  import opened Identity

  const PUCK_MAIN_INTERFACE: u8 := 2

  /** `arrival` is the report's place in the order of arrival: it is not on the wire
      and nothing below reads it. */
  datatype InputReport = InputReport(
    arrival: nat,
    sequence: nat,
    interfaceNumber: u8,
    role: Role,
    hostMonotonicUs: nat,
    data: seq<u8>)

  datatype InputStats = InputStats(pushed: nat, popped: nat, droppedOldest: nat, droppedStale: nat)

  function WirelessRole(interfaceNumber: u8): Option<Role> {
    if interfaceNumber == 3 then Some(PuckInterface3)
    else if interfaceNumber == 4 then Some(PuckInterface4)
    else if interfaceNumber == 5 then Some(PuckInterface5)
    else None
  }

  predicate IsTriton(data: seq<u8>) {
    data != [] && data[0] in {0x42, 0x43, 0x45, 0x46, 0x79}
  }

  predicate IsMainTriton(report: InputReport) {
    report.interfaceNumber == PUCK_MAIN_INTERFACE && IsTriton(report.data)
  }

  /** While a wireless interface is registered the main interface does not get the
      controller's reports. */
  predicate IsHeld(report: InputReport, requested: u8, preferred: Option<u8>) {
    requested == PUCK_MAIN_INTERFACE && preferred.Some? && IsMainTriton(report)
  }

  predicate IsExact(report: InputReport, requested: u8, preferred: Option<u8>) {
    report.interfaceNumber == requested && !IsHeld(report, requested, preferred)
  }

  function ExactFor(requested: u8, preferred: Option<u8>): InputReport -> bool {
    report => IsExact(report, requested, preferred)
  }

  predicate MayReroute(requested: u8, preferred: Option<u8>) {
    WirelessRole(requested).Some? && (preferred.None? || preferred == Some(requested))
  }

  /** The newest report for an interface: one of its own, or else one of the main
      interface to be rerouted there. */
  function FindLatest(queue: seq<InputReport>, requested: u8, preferred: Option<u8>): (r: Option<(nat, Option<u8>)>)
    ensures r.Some? ==> r.value.0 < |queue|
  {
    match LastIndex(queue, ExactFor(requested, preferred))
    case Some(index) => Some((index, None))
    case None =>
      if !MayReroute(requested, preferred) then None
      else
        match LastIndex(queue, IsMainTriton)
        case Some(index) => Some((index, Some(requested)))
        case None => None
  }

  function StaleFor(requested: u8, routed: Option<u8>, preferred: Option<u8>): InputReport -> bool {
    if routed.Some? then IsMainTriton else ExactFor(requested, preferred)
  }

  function Rerouted(report: InputReport, routed: Option<u8>): InputReport {
    match routed
    case None => report
    case Some(target) =>
      var moved := report.(interfaceNumber := target);
      if WirelessRole(target).Some? then moved.(role := WirelessRole(target).value) else moved
  }

  /** A delivered report with what was asked for and known at that moment. */
  datatype Delivery = Delivery(
    requested: u8,
    preferred: Option<u8>,
    routed: Option<u8>,
    source: InputReport,
    returned: InputReport)

  /** `pending` holds, for every pop whose statistics are not yet updated, the number of
      stale reports it dropped; `arrivals` and `delivered` are history. */
  datatype InputState = InputState(
    capacity: nat,
    queue: seq<InputReport>,
    preferred: Option<u8>,
    stats: InputStats,
    pending: seq<nat>,
    arrivals: nat,
    delivered: seq<Delivery>)

  function Initial(capacity: nat): InputState {
    InputState(capacity, [], None, InputStats(0, 0, 0, 0), [], 0, [])
  }

  function PopFront<T>(s: seq<T>): seq<T> {
    if s == [] then [] else s[1..]
  }

  /** The pump, holding the queue's lock. */
  function Push(st: InputState, report: InputReport): InputState {
    var full := |st.queue| >= st.capacity;
    st.(queue := (if full then PopFront(st.queue) else st.queue) + [report.(arrival := st.arrivals)],
        stats := st.stats.(droppedOldest := st.stats.droppedOldest + (if full then 1 else 0), pushed := st.stats.pushed + 1),
        arrivals := st.arrivals + 1)
  }

  function RemoveAt<T>(s: seq<T>, index: nat): seq<T>
    requires index < |s|
  {
    s[..index] + s[index + 1..]
  }

  /** A pop's locked region: the report, if any, is taken out and older ones of its
      kind are dropped. */
  function Take(st: InputState, requested: u8): (Option<InputReport>, InputState) {
    match FindLatest(st.queue, requested, st.preferred)
    case None => (None, st)
    case Some((index, routed)) =>
      var source := st.queue[index];
      var rest := RemoveAt(st.queue, index);
      var kept := Without(rest, StaleFor(requested, routed, st.preferred));
      var returned := Rerouted(source, routed);
      (Some(returned),
       st.(queue := kept,
           pending := st.pending + [|rest| - |kept|],
           delivered := st.delivered + [Delivery(requested, st.preferred, routed, source, returned)]))
  }

  /** The statistics of one finished pop, after the queue's lock was released. */
  function Count(st: InputState, k: nat): InputState {
    if k >= |st.pending| then st
    else
      st.(stats := st.stats.(popped := st.stats.popped + 1, droppedStale := st.stats.droppedStale + st.pending[k]),
          pending := RemoveAt(st.pending, k))
  }

  predicate IsNonZero(byte: u8) {
    byte != 0
  }

  /** A feature report may register a wireless interface or remove its registration. */
  function UpdateRoutes(preferred: Option<u8>, interfaceNumber: u8, reportId: u8, data: seq<u8>): Option<u8> {
    if reportId != 0x02 || |data| < 2 || data[1] != 0xA3 || WirelessRole(interfaceNumber).None? then preferred
    else if |data| > 3 && Any(data[3..], IsNonZero) then Some(interfaceNumber)
    else if preferred == Some(interfaceNumber) then None
    else preferred
  }

  // -------------------------------------------------------------------- runs

  datatype InputEvent =
    | Arrive(report: InputReport)
    | Pop(requested: u8)
    | Counted(k: nat)
    | Feature(interfaceNumber: u8, reportId: u8, data: seq<u8>)

  function Step(st: InputState, event: InputEvent): InputState {
    match event
    case Arrive(report) => Push(st, report)
    case Pop(requested) => Take(st, requested).1
    case Counted(k) => Count(st, k)
    case Feature(interfaceNumber, reportId, data) =>
      st.(preferred := UpdateRoutes(st.preferred, interfaceNumber, reportId, data))
  }

  /** The state after the events, from an empty queue of the given capacity. */
  function Run(capacity: nat, events: seq<InputEvent>): InputState {
    if events == [] then Initial(capacity)
    else Step(Run(capacity, events[..|events| - 1]), events[|events| - 1])
  }
}

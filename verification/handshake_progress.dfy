/** The handshake gets somewhere: what a guest makes of each frame it is sent, in every
    run, and that an undisturbed one ends connected (guest.rs, crosspuck-app/src/runtime.rs). */
module HandshakeProgress {
  import opened Wrappers
  import opened WrappingIds
  import opened Handshake
  import opened HandshakeRuns

  // ------------------------------------------------------- what is on the wire

  /** The answer to the hello of a guest of this version. */
  predicate RightHelloOk(frame: Frame, version: nat) {
    && frame.HelloOk? && frame.id == HELLO_ID && frame.version == ProtocolVersion()
    && (frame.status == ProtocolFailure <==> version != ProtocolVersion())
  }

  /** What an unread control connection holds for its guest. */
  predicate ControlShape(a: Attempt) {
    var frames := a.controlToGuest;
    match a.pc
    case AwaitingHelloOk =>
      frames == []
      || (RightHelloOk(frames[0], a.version)
          && (|frames| == 1 || (|frames| == 2 && frames[0].status == StatusOk && frames[1].Identity?)))
    case AwaitingIdentity(_, _) => frames == [] || (|frames| == 1 && frames[0].Identity?)
    case _ => true
  }

  predicate InputShape(a: Attempt) {
    && (forall k :: 0 <= k < |a.inputToHost| ==> a.inputToHost[k].InputAttach? && a.inputToHost[k].id == ATTACH_ID)
    && (forall k :: 0 <= k < |a.inputToGuest| ==> a.inputToGuest[k].InputAttachOk? && a.inputToGuest[k].id == ATTACH_ID)
  }

  /** How an attempt may end: given up, spoken to in another version, or refused. */
  predicate RightFailure(error: GuestError, version: nat) {
    match error
    case GaveUp => true
    case VersionMismatch(expected, actual) => expected == version && actual == ProtocolVersion() && version != ProtocolVersion()
    case NonOkStatus(status) => status != StatusOk && version == ProtocolVersion()
    case UnexpectedMessage => false
    case UnexpectedResponseId(_, _) => false
  }

  predicate Shaped(a: Attempt) {
    && ControlShape(a) && InputShape(a)
    && match a.pc
       case AwaitingHelloOk => true
       case Failed(error) => RightFailure(error, a.version)
       case _ => a.version == ProtocolVersion()
  }

  predicate AllShaped(w: World) {
    forall g :: 0 <= g < |w.attempts| ==> Shaped(w.attempts[g])
  }

  /** Nothing was sent to the guest, which waits for its answer or has given up. */
  predicate Unanswered(a: Attempt) {
    a.controlToGuest == [] && (a.pc.AwaitingHelloOk? || a.pc.Failed?)
  }

  predicate Fresh(a: Attempt) {
    Unanswered(a) && a.controlToHost == [Hello(HELLO_ID, a.version)]
  }

  /** The guest was acknowledged and not yet told who the host is. */
  predicate Acknowledged(a: Attempt) {
    && a.version == ProtocolVersion()
    && match a.pc
       case AwaitingHelloOk =>
         |a.controlToGuest| == 1 && RightHelloOk(a.controlToGuest[0], a.version) && a.controlToGuest[0].status == StatusOk
       case AwaitingIdentity(_, _) => a.controlToGuest == []
       case Failed(_) => true
       case _ => false
  }

  predicate HostShape(w: World) {
    && InUse(w)
    && (forall i :: 0 <= i < |w.controlBacklog| ==> Fresh(w.attempts[w.controlBacklog[i]]))
    && match w.host
       case ReadingHello(g) => Fresh(w.attempts[g])
       case Selecting(g, id) => Unanswered(w.attempts[g]) && id == HELLO_ID && w.attempts[g].version == ProtocolVersion()
       case OpeningReader(g, id) => Unanswered(w.attempts[g]) && id == HELLO_ID && w.attempts[g].version == ProtocolVersion()
       case Acknowledging(g, id) => Unanswered(w.attempts[g]) && id == HELLO_ID && w.attempts[g].version == ProtocolVersion()
       case Identifying(g) => Acknowledged(w.attempts[g])
       case _ => true
  }

  lemma GuestKeepsShape(w: World, g: nat)
    requires AllShaped(w) && HostShape(w) && g < |w.attempts|
    ensures AllShaped(GuestStep(w, g)) && HostShape(GuestStep(w, g))
  {
    var w' := GuestStep(w, g);
    assert Shaped(w.attempts[g]);
    assert Shaped(w'.attempts[g]);
  }

  lemma GivingUpKeepsShape(w: World, g: nat)
    requires AllShaped(w) && HostShape(w) && g < |w.attempts|
    ensures AllShaped(Step(w, GuestGivesUp(g))) && HostShape(Step(w, GuestGivesUp(g)))
  {
    var w' := Step(w, GuestGivesUp(g));
    assert Shaped(w.attempts[g]);
    assert Shaped(w'.attempts[g]);
  }

  lemma DialKeepsShape(w: World, version: nat)
    requires AllShaped(w) && HostShape(w)
    ensures AllShaped(Dial(w, version)) && HostShape(Dial(w, version))
  {
    var w' := Dial(w, version);
    assert Shaped(w'.attempts[|w.attempts|]) && Fresh(w'.attempts[|w.attempts|]);
    assert forall g :: 0 <= g < |w.attempts| ==> w'.attempts[g] == w.attempts[g];
  }

  /** Waiting connections are not the one in use. */
  lemma OthersWait(w: World)
    requires ControlsOnce(w) && HostSound(w) && InUse(w) && !w.host.Accepting?
    ensures w.host.control !in w.controlBacklog
  {
    var all := w.controls + w.controlBacklog;
    assert all[Current(w)] == w.host.control;
    forall i | 0 <= i < |w.controlBacklog| ensures w.controlBacklog[i] != w.host.control {
      assert all[|w.controls| + i] == w.controlBacklog[i];
    }
  }

  lemma FirstWaitsOnce(w: World)
    requires ControlsOnce(w) && w.controlBacklog != []
    ensures w.controlBacklog[0] !in w.controlBacklog[1..]
  {
    var all, rest := w.controls + w.controlBacklog, w.controlBacklog[1..];
    assert all[|w.controls|] == w.controlBacklog[0];
    forall i | 0 <= i < |rest| ensures rest[i] != w.controlBacklog[0] {
      assert all[|w.controls| + i + 1] == rest[i];
    }
  }

  /** The host changes one attempt, and no waiting one. */
  lemma OneChanged(w: World, w': World, g: nat)
    requires AllShaped(w) && HostShape(w) && g < |w.attempts| && InUse(w')
    requires g !in w'.controlBacklog
    requires |w'.attempts| == |w.attempts| && forall n :: 0 <= n < |w.attempts| && n != g ==> w'.attempts[n] == w.attempts[n]
    requires w'.controlBacklog == w.controlBacklog && Shaped(w'.attempts[g])
    ensures AllShaped(w')
    ensures forall i :: 0 <= i < |w'.controlBacklog| ==> Fresh(w'.attempts[w'.controlBacklog[i]])
  {
    hide Shaped, Fresh;
  }

  lemma SameInputs(a: Attempt, a': Attempt)
    requires InputShape(a) && a'.inputToHost == a.inputToHost && a'.inputToGuest == a.inputToGuest
    ensures InputShape(a')
  {}

  lemma HostControlShape(w: World, usable: bool)
    requires AllShaped(w) && HostShape(w) && HostSound(w) && ControlsOnce(w)
    requires !w.host.ReadingAttach?
    ensures AllShaped(HostStep(w, usable)) && HostShape(HostStep(w, usable))
  {
    hide HostSound, ControlsOnce, IdAt, NextId, InputShape;
    var w' := HostStep(w, usable);
    if w.host.Accepting? {
      if w.controlBacklog != [] {
        FirstWaitsOnce(w);
      }
    } else {
      OthersWait(w);
      var g := w.host.control;
      assert Shaped(w.attempts[g]);
      SameInputs(w.attempts[g], w'.attempts[g]);
      assert Shaped(w'.attempts[g]);
      OneChanged(w, w', g);
    }
  }

  lemma HostInputShape(w: World)
    requires AllShaped(w) && HostShape(w) && w.host.ReadingAttach?
    ensures AllShaped(HostStep(w, true)) && HostShape(HostStep(w, true))
  {
    hide IdAt;
    var i := w.host.input;
    assert Shaped(w.attempts[i]);
    assert Shaped(HostStep(w, true).attempts[i]);
  }

  lemma StepShape(w: World, event: Event)
    requires AllShaped(w) && HostShape(w) && HostSound(w) && ControlsOnce(w)
    ensures AllShaped(Step(w, event)) && HostShape(Step(w, event))
  {
    hide AllShaped, HostSound, ControlsOnce, HostStep, GuestStep, Dial;
    match event
    case Begin(version) => DialKeepsShape(w, version);
    case Guest(g) =>
      if g < |w.attempts| {
        GuestKeepsShape(w, g);
      }
    case GuestGivesUp(g) =>
      if g < |w.attempts| {
        GivingUpKeepsShape(w, g);
      }
    case Host(usable) =>
      if w.host.ReadingAttach? {
        HostInputShape(w);
        assert HostStep(w, usable) == HostStep(w, true) by { UsableOnlyToSelect(w, usable); }
      } else {
        HostControlShape(w, usable);
      }
    case HostGivesUp => HostGone(w);
  }

  lemma UsableOnlyToSelect(w: World, usable: bool)
    requires InUse(w) && w.host.ReadingAttach?
    ensures HostStep(w, usable) == HostStep(w, true)
  {}

  lemma HostGone(w: World)
    requires AllShaped(w) && HostShape(w)
    ensures AllShaped(Step(w, HostGivesUp)) && HostShape(Step(w, HostGivesUp))
  {}

  lemma {:induction false} RunShape(events: seq<Event>)
    ensures AllShaped(Run(events)) && HostShape(Run(events))
  {
    if events != [] {
      hide AllShaped, HostShape, HostSound, ControlsOnce, InputsAttached, AttemptsSound, AttachesGranted, Step, InUse;
      RunShape(events[..|events| - 1]);
      RunSound(events[..|events| - 1]);
      StepShape(Run(events[..|events| - 1]), events[|events| - 1]);
    }
  }

  // ------------------------------------------------------------ main results

  /** What a guest makes of the frame in front of it, in every run: an answer to its
      hello decides by version and status, an identity takes it on, and an answer to its
      attach connects it if it is an OK. */
  lemma {:induction false} GuestProceeds(events: seq<Event>, g: nat)
    requires g < |Run(events).attempts|
    ensures var a := Run(events).attempts[g];
            var next := Step(Run(events), Guest(g)).attempts[g].pc;
            && (a.pc.AwaitingHelloOk? && a.controlToGuest != [] ==>
                  var frame := a.controlToGuest[0];
                  && frame.HelloOk?
                  && next == if a.version != 1 then Failed(VersionMismatch(a.version, 1))
                             else if frame.status == StatusOk then AwaitingIdentity(frame.sessionId, frame.session)
                             else Failed(NonOkStatus(frame.status)))
            && (a.pc.AwaitingIdentity? && a.controlToGuest != [] ==>
                  && a.controlToGuest[0].Identity?
                  && next == ConnectingInput(a.pc.sessionId, a.pc.hello, a.controlToGuest[0].session))
            && (a.pc.ConnectingInput? ==> next == AwaitingAttachOk(a.pc.sessionId, a.pc.hello, a.pc.identity))
            && (a.pc.AwaitingAttachOk? && a.inputToGuest != [] ==>
                  var frame := a.inputToGuest[0];
                  && frame.InputAttachOk?
                  && next == if frame.status == StatusOk then Connected(a.pc.sessionId, a.pc.hello, a.pc.identity, frame.session)
                             else Failed(NonOkStatus(frame.status)))
  {
    hide Run;
    RunShape(events);
    assert Shaped(Run(events).attempts[g]);
  }

  /** No guest is ever sent a frame of the wrong kind or with a foreign id: attempts fail
      only because they gave up, speak another version than the host, or were refused. */
  lemma {:induction false} OnlyExpectedFailures(events: seq<Event>, g: nat)
    requires g < |Run(events).attempts| && Run(events).attempts[g].pc.Failed?
    ensures var a := Run(events).attempts[g];
            || a.pc.error == GaveUp
            || (a.version != 1 && a.pc.error == VersionMismatch(a.version, 1))
            || (a.version == 1 && a.pc.error.NonOkStatus? && a.pc.error.status != StatusOk)
  {
    RunShape(events);
    assert Shaped(Run(events).attempts[g]);
  }

  /** Whatever frame a guest is given, only an OK answer to its own hello, in its own
      version, is accepted; of several faults it tells the first of kind, version, id and
      status. */
  lemma {:induction false} HelloAnswerIff(version: nat, frame: Frame)
    ensures AcceptHelloOk(version, frame).Ok? <==> exists s: Id, n :: frame == HelloOk(1, version, StatusOk, s, n)
    ensures forall id, v, status, s: Id, n :: frame == HelloOk(id, v, status, s, n) ==>
              AcceptHelloOk(version, frame)
              == if v != version then Err(VersionMismatch(version, v))
                 else if id != 1 then Err(UnexpectedResponseId(1, id))
                 else if status != StatusOk then Err(NonOkStatus(status))
                 else Ok(s)
  {
    if frame.HelloOk? {
      assert frame == HelloOk(frame.id, frame.version, frame.status, frame.sessionId, frame.session);
    }
  }

  lemma {:induction false} AttachAnswerIff(frame: Frame)
    ensures AcceptAttachOk(frame).Ok? <==> exists n :: frame == InputAttachOk(2, StatusOk, n)
    ensures forall id, status, n :: frame == InputAttachOk(id, status, n) && id != 2 ==>
              AcceptAttachOk(frame) == Err(UnexpectedResponseId(2, id))
    ensures forall status, n :: frame == InputAttachOk(2, status, n) && status != StatusOk ==>
              AcceptAttachOk(frame) == Err(NonOkStatus(status))
  {
    if frame.InputAttachOk? {
      assert frame == InputAttachOk(frame.id, frame.status, frame.session);
    }
  }

  /** What the host makes of the attach in front of it, in every run: it is always one, and
      is answered on its own connection with OK and served if it names the session, and
      else with BadRequest, which ends the session. */
  lemma {:induction false} HostJudgesAttach(events: seq<Event>, usable: bool)
    requires var w := Run(events); w.host.ReadingAttach? && w.attempts[w.host.input].inputToHost != []
    ensures var w := Run(events);
            var w' := Step(w, Host(usable));
            var i, frame := w.host.input, w.attempts[w.host.input].inputToHost[0];
            && frame.InputAttach? && frame.id == 2
            && var own := frame.sessionId == w.sessionId;
               && w'.attempts[i].inputToGuest
                  == w.attempts[i].inputToGuest + [InputAttachOk(2, if own then StatusOk else BadRequest, |w.controls| - 1)]
               && w'.host == (if own then Serving(w.host.control, i) else Accepting)
  {
    hide Run;
    RunShape(events);
    RunSound(events);
    assert Shaped(Run(events).attempts[Run(events).host.input]);
  }

  /** What the host makes of the hello in front of it, in every run: it is always one, and
      only a guest of another version is turned away. */
  lemma {:induction false} HostJudgesHello(events: seq<Event>, usable: bool)
    requires var w := Run(events); w.host.ReadingHello? && w.attempts[w.host.control].controlToHost != []
    ensures var w := Run(events);
            var w' := Step(w, Host(usable));
            var g := w.host.control;
            && w.attempts[g].controlToHost == [Hello(1, w.attempts[g].version)] && w'.attempts[g].controlToHost == []
            && w'.host == (if w.attempts[g].version == 1 then Selecting(g, 1) else Accepting)
            && w'.attempts[g].controlToGuest
               == if w.attempts[g].version == 1 then []
                  else [HelloOk(1, 1, ProtocolFailure, w.sessionId, |w.controls| - 1)]
  {
    hide Run;
    RunShape(events);
  }

  // --------------------------------------------------- connections in their order

  /** The attempts whose input connections were made, in order. */
  function InputsMade(events: seq<Event>): seq<nat> {
    if events == [] then []
    else
      var before, event := events[..|events| - 1], events[|events| - 1];
      InputsMade(before)
      + if event.Guest? && event.g < |Run(before).attempts| && Run(before).attempts[event.g].pc.ConnectingInput? then [event.g] else []
  }

  /** The attempts whose input connections the host accepted, in order. */
  function InputsAccepted(events: seq<Event>): seq<nat> {
    if events == [] then []
    else
      var before := events[..|events| - 1];
      InputsAccepted(before)
      + if Run(before).host.AcceptingInput? && Run(events).host.ReadingAttach? then [Run(events).host.input] else []
  }

  lemma InputsMoved(w: World, event: Event)
    requires InUse(w)
    ensures var w' := Step(w, event);
            var made := if event.Guest? && event.g < |w.attempts| && w.attempts[event.g].pc.ConnectingInput? then [event.g] else [];
            var accepted := if w.host.AcceptingInput? && w'.host.ReadingAttach? then [w'.host.input] else [];
            w.inputBacklog + made == accepted + w'.inputBacklog
  {
    hide IdAt, NextId;
  }

  lemma ControlsMoved(w: World, event: Event)
    requires InUse(w)
    ensures var w' := Step(w, event);
            && w'.controls + w'.controlBacklog == w.controls + w.controlBacklog + (if event.Begin? then [|w.attempts|] else [])
            && |w'.attempts| == |w.attempts| + (if event.Begin? then 1 else 0)
  {
    hide IdAt, NextId, HostStep;
    if event.Host? {
      HostMovesControls(w, event.usable);
    }
  }

  lemma HostMovesControls(w: World, usable: bool)
    requires InUse(w)
    ensures var w' := HostStep(w, usable);
            w'.controls + w'.controlBacklog == w.controls + w.controlBacklog && |w'.attempts| == |w.attempts|
  {
    hide IdAt, NextId;
  }

  lemma MovedAlong(done: seq<nat>, waiting: seq<nat>, made: seq<nat>, accepted: seq<nat>, waiting': seq<nat>)
    requires waiting + made == accepted + waiting'
    ensures (done + waiting) + made == (done + accepted) + waiting'
  {
    assert (done + waiting) + made == done + (waiting + made);
  }

  predicate CountsUp(s: seq<nat>, n: nat) {
    |s| == n && forall i :: 0 <= i < n ==> s[i] == i
  }

  /** In every run the host accepts control and input connections in the order in which
      they were made, each once and none out of nowhere. */
  lemma {:induction false} AcceptedInOrderMade(events: seq<Event>)
    ensures InputsMade(events) == InputsAccepted(events) + Run(events).inputBacklog
    ensures CountsUp(Run(events).controls + Run(events).controlBacklog, |Run(events).attempts|)
  {
    InputsInOrder(events);
    ControlsInOrder(events);
  }

  lemma {:induction false} InputsInOrder(events: seq<Event>)
    ensures InputsMade(events) == InputsAccepted(events) + Run(events).inputBacklog
  {
    if events != [] {
      hide Step;
      var before, event := events[..|events| - 1], events[|events| - 1];
      InputsInOrder(before);
      var w, w' := Run(before), Run(events);
      InputsMoved(w, event);
      var made := if event.Guest? && event.g < |w.attempts| && w.attempts[event.g].pc.ConnectingInput? then [event.g] else [];
      var accepted := if w.host.AcceptingInput? && w'.host.ReadingAttach? then [w'.host.input] else [];
      MovedAlong(InputsAccepted(before), w.inputBacklog, made, accepted, w'.inputBacklog);
    }
  }

  lemma {:induction false} ControlsInOrder(events: seq<Event>)
    ensures CountsUp(Run(events).controls + Run(events).controlBacklog, |Run(events).attempts|)
  {
    if events != [] {
      hide Step;
      var before, event := events[..|events| - 1], events[|events| - 1];
      ControlsInOrder(before);
      ControlsMoved(Run(before), event);
    }
  }

  // ------------------------------------------------------- undisturbed sessions

  /** The host waits for a control connection and none was made yet. */
  predicate Idle(w: World) {
    w.host.Accepting? && w.controlBacklog == []
  }

  /** Session `k` reached `host` with attempt `g`, which is as given. */
  predicate SessionWith(w: World, host: HostPc, k: nat, g: nat, a: Attempt) {
    && w.host == host && w.controlBacklog == [] && |w.controls| == k + 1 && w.controls[k] == g
    && w.sessionId == IdAt(k) && g < |w.attempts| && w.attempts[g] == a
  }

  lemma Then(events: seq<Event>, event: Event) returns (longer: seq<Event>)
    ensures longer == events + [event] && Run(longer) == Step(Run(events), event)
  {
    longer := events + [event];
    assert longer[..|longer| - 1] == events;
  }

  lemma NextSession(events: seq<Event>)
    ensures Run(events).nextSessionId == IdAt(|Run(events).controls|)
  {
    RunSound(events);
  }

  /** A guest of any version dials and the host has read its hello. */
  lemma Dialled(events: seq<Event>, version: nat, usable: bool) returns (longer: seq<Event>)
    requires Idle(Run(events))
    ensures longer == events + [Begin(version), Host(usable)]
    ensures var (k, g) := (|Run(events).controls|, |Run(events).attempts|);
            && SessionWith(Run(longer), ReadingHello(g), k, g, NewAttempt(version))
            && Run(longer).inputBacklog == Run(events).inputBacklog
  {
    hide Run, IdAt, NextId;
    NextSession(events);
    longer := Then(events, Begin(version));
    longer := Then(longer, Host(usable));
  }

  /** A guest that speaks another version than the host is told so. */
  lemma {:induction false} OtherVersionRefused(events: seq<Event>, version: nat, a: bool, b: bool)
    requires Idle(Run(events)) && version != 1
    ensures var g := |Run(events).attempts|;
            var w := Run(events + [Begin(version), Host(a)] + [Host(b), Guest(g)]);
            && g < |w.attempts| && w.attempts[g].pc == Failed(VersionMismatch(version, 1))
            && Idle(w)
  {
    hide Run, IdAt;
    var dialled := Dialled(events, version, a);
    var longer := Then(dialled, Host(b));
    longer := Then(longer, Guest(|Run(events).attempts|));
    assert longer == dialled + [Host(b), Guest(|Run(events).attempts|)];
  }

  /** A guest is told when no device can be selected or its reader cannot be opened. */
  lemma {:induction false} NoDeviceRefused(events: seq<Event>, a: bool, b: bool, selected: bool)
    requires Idle(Run(events))
    ensures var g := |Run(events).attempts|;
            var answer := if selected then [Host(true), Host(false)] else [Host(false)];
            var w := Run(events + [Begin(1), Host(a)] + ([Host(b)] + answer + [Guest(g)]));
            && g < |w.attempts| && w.attempts[g].pc == Failed(NonOkStatus(DeviceDisconnected))
            && Idle(w)
  {
    hide Run, IdAt;
    var g := |Run(events).attempts|;
    var dialled := Dialled(events, 1, a);
    var longer := Then(dialled, Host(b));
    if selected {
      longer := Then(longer, Host(true));
    }
    longer := Then(longer, Host(false));
    longer := Then(longer, Guest(g));
    var answer := if selected then [Host(true), Host(false)] else [Host(false)];
    assert longer == dialled + ([Host(b)] + answer + [Guest(g)]);
  }

  /** The host selects a device, opens its reader and sends its answer and identity. */
  lemma Greeted(events: seq<Event>, k: nat, g: nat) returns (longer: seq<Event>)
    requires SessionWith(Run(events), ReadingHello(g), k, g, NewAttempt(1))
    ensures longer == events + [Host(true), Host(true), Host(true), Host(true), Host(true)]
    ensures SessionWith(Run(longer), AcceptingInput(g), k, g,
                        Attempt(1, AwaitingHelloOk, [], [HelloOk(HELLO_ID, 1, StatusOk, IdAt(k), k), Identity(0, k)], [], []))
    ensures Run(longer).inputBacklog == Run(events).inputBacklog
  {
    hide Run, IdAt;
    longer := Then(events, Host(true));
    longer := Then(longer, Host(true));
    longer := Then(longer, Host(true));
    longer := Then(longer, Host(true));
    longer := Then(longer, Host(true));
  }

  /** The guest reads both and attaches. */
  lemma Attached(events: seq<Event>, k: nat, g: nat) returns (longer: seq<Event>)
    requires SessionWith(Run(events), AcceptingInput(g), k, g,
                         Attempt(1, AwaitingHelloOk, [], [HelloOk(HELLO_ID, 1, StatusOk, IdAt(k), k), Identity(0, k)], [], []))
    requires Run(events).inputBacklog == []
    ensures longer == events + [Guest(g), Guest(g), Guest(g)]
    ensures SessionWith(Run(longer), AcceptingInput(g), k, g,
                        Attempt(1, AwaitingAttachOk(IdAt(k), k, k), [], [], [InputAttach(ATTACH_ID, IdAt(k))], []))
    ensures Run(longer).inputBacklog == [g]
  {
    hide Run, IdAt;
    longer := Then(events, Guest(g));
    longer := Then(longer, Guest(g));
    longer := Then(longer, Guest(g));
  }

  /** The host accepts the input connection and the guest reads its answer. */
  lemma Joined(events: seq<Event>, k: nat, g: nat) returns (longer: seq<Event>)
    requires SessionWith(Run(events), AcceptingInput(g), k, g,
                         Attempt(1, AwaitingAttachOk(IdAt(k), k, k), [], [], [InputAttach(ATTACH_ID, IdAt(k))], []))
    requires Run(events).inputBacklog == [g]
    ensures longer == events + [Host(true), Host(true), Guest(g)]
    ensures var w := Run(longer);
            g < |w.attempts| && w.attempts[g].pc == Connected(IdAt(k), k, k, k) && w.host == Serving(g, g)
  {
    hide Run, IdAt;
    longer := Then(events, Host(true));
    longer := Then(longer, Host(true));
    longer := Then(longer, Guest(g));
  }

  /** The steps of a session that nothing disturbs. */
  function Undisturbed(g: nat): seq<Event> {
    [Begin(1), Host(true)]
    + [Host(true), Host(true), Host(true), Host(true), Host(true)]
    + [Guest(g), Guest(g), Guest(g)]
    + [Host(true), Host(true), Guest(g)]
  }

  /** From every state in which the host waits and no connection does, a new guest that
      is not disturbed ends connected, and the host serves it, both in the next session. */
  lemma {:induction false} UndisturbedConnects(events: seq<Event>)
    requires Idle(Run(events)) && Run(events).inputBacklog == []
    ensures var (k, g) := (|Run(events).controls|, |Run(events).attempts|);
            var w := Run(events + Undisturbed(g));
            && g < |w.attempts| && w.attempts[g].pc == Connected(IdAt(k), k, k, k) && w.host == Serving(g, g)
  {
    hide Run, IdAt, SessionWith;
    var k, g := |Run(events).controls|, |Run(events).attempts|;
    var dialled := Dialled(events, 1, true);
    var greeted := Greeted(dialled, k, g);
    var attached := Attached(greeted, k, g);
    var joined := Joined(attached, k, g);
    assert joined == events + Undisturbed(g);
  }
}

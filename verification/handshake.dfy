/** Guests and host setting up sessions over two channels (guest.rs,
    crosspuck-app/src/runtime.rs): every frame, wait, refusal and abandoned attempt. */
module Handshake {
  import opened Wrappers
  import opened WrappingIds

  /** The version spoken by the host. */
  function ProtocolVersion(): nat { 1 }

  datatype Status = StatusOk | BadRequest | ProtocolFailure | DeviceDisconnected

  /** `session` numbers the host's sessions: it is not on the wire. */
  datatype Frame =
    | Hello(id: nat, version: nat)
    | HelloOk(id: nat, version: nat, status: Status, sessionId: Id, session: nat)
    | Identity(id: nat, session: nat)
    | InputAttach(id: nat, sessionId: Id)
    | InputAttachOk(id: nat, status: Status, session: nat)

  // -------------------------------------------------------------- the guest

  datatype GuestError =
    | UnexpectedMessage
    | VersionMismatch(expected: nat, actual: nat)
    | UnexpectedResponseId(expected: nat, actual: nat)
    | NonOkStatus(status: Status)
    | GaveUp

  const HELLO_ID: nat := 1
  const ATTACH_ID: nat := 2

  function AcceptHelloOk(version: nat, frame: Frame): Result<Id, GuestError> {
    if !frame.HelloOk? then Err(UnexpectedMessage)
    else if frame.version != version then Err(VersionMismatch(version, frame.version))
    else if frame.id != HELLO_ID then Err(UnexpectedResponseId(HELLO_ID, frame.id))
    else if frame.status != StatusOk then Err(NonOkStatus(frame.status))
    else Ok(frame.sessionId)
  }

  function AcceptAttachOk(frame: Frame): Result<(), GuestError> {
    if !frame.InputAttachOk? then Err(UnexpectedMessage)
    else if frame.id != ATTACH_ID then Err(UnexpectedResponseId(ATTACH_ID, frame.id))
    else if frame.status != StatusOk then Err(NonOkStatus(frame.status))
    else Ok(())
  }

  /** `hello`, `identity` and `attach` are the host sessions whose frames were accepted:
      history, like the session number in the frames. */
  datatype GuestPc =
    | AwaitingHelloOk
    | AwaitingIdentity(sessionId: Id, hello: nat)
    | ConnectingInput(sessionId: Id, hello: nat, identity: nat)
    | AwaitingAttachOk(sessionId: Id, hello: nat, identity: nat)
    | Connected(sessionId: Id, hello: nat, identity: nat, attach: nat)
    | Failed(error: GuestError)

  /** One connection attempt with its two connections, each a queue of frames in both
      directions. */
  datatype Attempt = Attempt(
    version: nat,
    pc: GuestPc,
    controlToHost: seq<Frame>,
    controlToGuest: seq<Frame>,
    inputToHost: seq<Frame>,
    inputToGuest: seq<Frame>)

  function NewAttempt(version: nat): Attempt {
    Attempt(version, AwaitingHelloOk, [Hello(HELLO_ID, version)], [], [], [])
  }

  function ReadHelloOk(a: Attempt): Attempt
    requires a.controlToGuest != []
  {
    var frame := a.controlToGuest[0];
    var read := a.(controlToGuest := a.controlToGuest[1..]);
    match AcceptHelloOk(a.version, frame)
    case Err(error) => read.(pc := Failed(error))
    case Ok(sessionId) => read.(pc := AwaitingIdentity(sessionId, frame.session))
  }

  function ReadIdentity(a: Attempt): Attempt
    requires a.controlToGuest != [] && a.pc.AwaitingIdentity?
  {
    var frame := a.controlToGuest[0];
    var read := a.(controlToGuest := a.controlToGuest[1..]);
    if frame.Identity? then read.(pc := ConnectingInput(a.pc.sessionId, a.pc.hello, frame.session))
    else read.(pc := Failed(UnexpectedMessage))
  }

  function Attach(a: Attempt): Attempt
    requires a.pc.ConnectingInput?
  {
    a.(inputToHost := a.inputToHost + [InputAttach(ATTACH_ID, a.pc.sessionId)],
       pc := AwaitingAttachOk(a.pc.sessionId, a.pc.hello, a.pc.identity))
  }

  function ReadAttachOk(a: Attempt): Attempt
    requires a.inputToGuest != [] && a.pc.AwaitingAttachOk?
  {
    var frame := a.inputToGuest[0];
    var read := a.(inputToGuest := a.inputToGuest[1..]);
    match AcceptAttachOk(frame)
    case Err(error) => read.(pc := Failed(error))
    case Ok(_) => read.(pc := Connected(a.pc.sessionId, a.pc.hello, a.pc.identity, frame.session))
  }

  // --------------------------------------------------------------- the host

  /** What the host is doing; `control` and `input` say whose connections it uses. */
  datatype HostPc =
    | Accepting
    | ReadingHello(control: nat)
    | Selecting(control: nat, helloId: nat)
    | OpeningReader(control: nat, helloId: nat)
    | Acknowledging(control: nat, helloId: nat)
    | Identifying(control: nat)
    | AcceptingInput(control: nat)
    | ReadingAttach(control: nat, input: nat)
    | Serving(control: nat, input: nat)

  datatype HostAction =
    | ReaderOpened(session: nat)
    | SentHelloOk(session: nat, status: Status)
    | SentIdentity(session: nat)
    | AttachAccepted(session: nat, input: nat)

  /** `controls` says whose control connection each session used; `log` is what the host
      did, in order. */
  datatype World = World(
    attempts: seq<Attempt>,
    controlBacklog: seq<nat>,
    inputBacklog: seq<nat>,
    host: HostPc,
    nextSessionId: Id,
    sessionId: Id,
    controls: seq<nat>,
    log: seq<HostAction>)

  function Start(): World {
    World([], [], [], Accepting, 1, 1, [], [])
  }

  /** The connections in use are those of attempts that were made. */
  predicate InUse(w: World) {
    && (w.host.Accepting? || (w.host.control < |w.attempts| && w.controls != []))
    && (w.host.ReadingAttach? ==> w.host.input < |w.attempts|)
    && (forall i :: 0 <= i < |w.controlBacklog| ==> w.controlBacklog[i] < |w.attempts|)
    && (forall i :: 0 <= i < |w.inputBacklog| ==> w.inputBacklog[i] < |w.attempts|)
  }

  /** The number of the running session. */
  function Current(w: World): nat
    requires w.controls != []
  {
    |w.controls| - 1
  }

  function WriteControl(w: World, g: nat, frame: Frame): World
    requires g < |w.attempts|
  {
    w.(attempts := w.attempts[g := w.attempts[g].(controlToGuest := w.attempts[g].controlToGuest + [frame])])
  }

  function WriteInput(w: World, g: nat, frame: Frame): World
    requires g < |w.attempts|
  {
    w.(attempts := w.attempts[g := w.attempts[g].(inputToGuest := w.attempts[g].inputToGuest + [frame])])
  }

  function ReadControl(w: World, g: nat): World
    requires g < |w.attempts| && w.attempts[g].controlToHost != []
  {
    w.(attempts := w.attempts[g := w.attempts[g].(controlToHost := w.attempts[g].controlToHost[1..])])
  }

  function ReadInput(w: World, g: nat): World
    requires g < |w.attempts| && w.attempts[g].inputToHost != []
  {
    w.(attempts := w.attempts[g := w.attempts[g].(inputToHost := w.attempts[g].inputToHost[1..])])
  }

  function AcceptControl(w: World): World
    requires w.controlBacklog != []
  {
    var g := w.controlBacklog[0];
    w.(controlBacklog := w.controlBacklog[1..],
       host := ReadingHello(g),
       sessionId := w.nextSessionId,
       nextSessionId := NextId(w.nextSessionId),
       controls := w.controls + [g])
  }

  function GreetGuest(w: World): World
    requires w.host.ReadingHello? && w.host.control < |w.attempts| && w.controls != []
  {
    var g := w.host.control;
    if w.attempts[g].controlToHost == [] then w
    else
      var frame := w.attempts[g].controlToHost[0];
      var read := ReadControl(w, g);
      if !frame.Hello? then read.(host := Accepting)
      else if frame.version != ProtocolVersion() then
        WriteControl(read, g, HelloOk(frame.id, ProtocolVersion(), ProtocolFailure, w.sessionId, Current(w)))
          .(host := Accepting, log := w.log + [SentHelloOk(Current(w), ProtocolFailure)])
      else read.(host := Selecting(g, frame.id))
  }

  /** The answer when no device can be selected or its reader cannot be opened. */
  function RefuseGuest(w: World, g: nat, helloId: nat): World
    requires g < |w.attempts| && w.controls != []
  {
    WriteControl(w, g, HelloOk(helloId, ProtocolVersion(), DeviceDisconnected, w.sessionId, Current(w)))
      .(host := Accepting, log := w.log + [SentHelloOk(Current(w), DeviceDisconnected)])
  }

  function Acknowledge(w: World): World
    requires w.host.Acknowledging? && w.host.control < |w.attempts| && w.controls != []
  {
    WriteControl(w, w.host.control, HelloOk(w.host.helloId, ProtocolVersion(), StatusOk, w.sessionId, Current(w)))
      .(host := Identifying(w.host.control), log := w.log + [SentHelloOk(Current(w), StatusOk)])
  }

  function Identify(w: World): World
    requires w.host.Identifying? && w.host.control < |w.attempts| && w.controls != []
  {
    WriteControl(w, w.host.control, Identity(0, Current(w)))
      .(host := AcceptingInput(w.host.control), log := w.log + [SentIdentity(Current(w))])
  }

  /** The next waiting input connection, whoever made it and when. */
  function AcceptInput(w: World): World
    requires w.host.AcceptingInput?
  {
    if w.inputBacklog == [] then w
    else w.(inputBacklog := w.inputBacklog[1..], host := ReadingAttach(w.host.control, w.inputBacklog[0]))
  }

  function AttachInput(w: World): World
    requires w.host.ReadingAttach? && w.host.input < |w.attempts| && w.controls != []
  {
    var i := w.host.input;
    if w.attempts[i].inputToHost == [] then w
    else
      var frame := w.attempts[i].inputToHost[0];
      var read := ReadInput(w, i);
      if !frame.InputAttach? then read.(host := Accepting)
      else if frame.sessionId != w.sessionId then
        WriteInput(read, i, InputAttachOk(frame.id, BadRequest, Current(w))).(host := Accepting)
      else
        WriteInput(read, i, InputAttachOk(frame.id, StatusOk, Current(w)))
          .(host := Serving(w.host.control, i), log := w.log + [AttachAccepted(Current(w), i)])
  }

  /** One step of the host; `usable` is how selecting a device or opening its reader
      turns out. */
  function HostStep(w: World, usable: bool): (w': World)
    requires InUse(w)
    ensures InUse(w')
  {
    match w.host
    case Accepting => if w.controlBacklog == [] then w else AcceptControl(w)
    case ReadingHello(_) => GreetGuest(w)
    case Selecting(g, helloId) => if usable then w.(host := OpeningReader(g, helloId)) else RefuseGuest(w, g, helloId)
    case OpeningReader(g, helloId) =>
      if usable then w.(host := Acknowledging(g, helloId), log := w.log + [ReaderOpened(Current(w))])
      else RefuseGuest(w, g, helloId)
    case Acknowledging(_, _) => Acknowledge(w)
    case Identifying(_) => Identify(w)
    case AcceptingInput(_) => AcceptInput(w)
    case ReadingAttach(_, _) => AttachInput(w)
    case Serving(_, _) => w
  }

  // -------------------------------------------------------------------- runs

  /** Giving up covers timeouts, closed connections, a stop and the end of a session. */
  datatype Event = Begin(version: nat) | Guest(g: nat) | GuestGivesUp(g: nat) | Host(usable: bool) | HostGivesUp

  function Dial(w: World, version: nat): (w': World)
    requires InUse(w)
    ensures InUse(w')
  {
    w.(attempts := w.attempts + [NewAttempt(version)], controlBacklog := w.controlBacklog + [|w.attempts|])
  }

  function GuestStep(w: World, g: nat): (w': World)
    requires g < |w.attempts| && InUse(w)
    ensures InUse(w')
  {
    var a := w.attempts[g];
    match a.pc
    case AwaitingHelloOk => if a.controlToGuest == [] then w else w.(attempts := w.attempts[g := ReadHelloOk(a)])
    case AwaitingIdentity(_, _) => if a.controlToGuest == [] then w else w.(attempts := w.attempts[g := ReadIdentity(a)])
    case ConnectingInput(_, _, _) => w.(attempts := w.attempts[g := Attach(a)], inputBacklog := w.inputBacklog + [g])
    case AwaitingAttachOk(_, _, _) => if a.inputToGuest == [] then w else w.(attempts := w.attempts[g := ReadAttachOk(a)])
    case Connected(_, _, _, _) => w
    case Failed(_) => w
  }

  function Step(w: World, event: Event): (w': World)
    requires InUse(w)
    ensures InUse(w')
  {
    match event
    case Begin(version) => Dial(w, version)
    case Guest(g) => if g < |w.attempts| then GuestStep(w, g) else w
    case GuestGivesUp(g) =>
      if g < |w.attempts| then w.(attempts := w.attempts[g := w.attempts[g].(pc := Failed(GaveUp))]) else w
    case Host(usable) => HostStep(w, usable)
    case HostGivesUp => w.(host := Accepting)
  }

  function Run(events: seq<Event>): (w: World)
    ensures InUse(w)
  {
    if events == [] then Start()
    else Step(Run(events[..|events| - 1]), events[|events| - 1])
  }
}

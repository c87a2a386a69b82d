/** Requests and responses on the control channel (guest.rs, and the host's control loop
    in crosspuck-app/src/runtime.rs): a success is the answer to that very request. */
module ControlRequests {
  import opened Wrappers
  import opened WrappingIds
  import C = CommandQueue

  /** `index` counts the requests: it is not on the wire. */
  datatype Request = Request(id: Id, kind: C.CommandKind, index: nat)

  /** The host's answer, with the number of the request it answers. */
  datatype Response = Response(id: Id, kind: C.CommandKind, index: nat)

  datatype GuestError =
    | NotWritten
    | Timeout
    | UnexpectedResponseId(expected: Id, actual: Id)
    | UnexpectedMessage
    | Undecodable

  /** What the guest makes of the frame it reads in reply to a request; `decodes` says
      whether the payload is well formed. */
  function Receive(request: Request, response: Response, decodes: bool): Result<Response, GuestError> {
    if response.id != request.id then Err(UnexpectedResponseId(request.id, response.id))
    else if response.kind != request.kind then Err(UnexpectedMessage)
    else if !decodes then Err(Undecodable)
    else Ok(response)
  }

  /** How the host's control loop answers: with the request's own id and kind. */
  function Respond(request: Request): Response {
    Response(request.id, request.kind, request.index)
  }

  datatype GuestPc = Idle | Awaiting(request: Request) | Closed

  /** A successful request with the response it returned. */
  datatype Success = Success(request: Request, response: Response)

  /** The control channel as two queues of frames; `begun` counts the requests, those
      that could not be written included. */
  datatype Control = Control(
    nextId: Id,
    pc: GuestPc,
    toHost: seq<Request>,
    toGuest: seq<Response>,
    begun: nat,
    successes: seq<Success>)

  /** The handshake uses the ids 1 and 2. */
  function FirstIndex(): nat { 2 }

  function Start(): Control {
    Control(IdAt(FirstIndex()), Idle, [], [], 0, [])
  }

  /** `Unsent` is a request that fails before any of it is written, and `Fail` an error
      without a frame to read: a timeout, say. After an error the command worker gives
      up the connection; another caller may go on with it. */
  datatype Event =
    | Send(kind: C.CommandKind)
    | Unsent(goOn: bool)
    | Answer
    | Read(decodes: bool, goOn: bool)
    | Fail(goOn: bool)

  function SendRequest(c: Control, kind: C.CommandKind): Control {
    var request := Request(c.nextId, kind, c.begun);
    c.(nextId := NextId(c.nextId), pc := Awaiting(request), toHost := c.toHost + [request], begun := c.begun + 1)
  }

  function AfterError(goOn: bool): GuestPc {
    if goOn then Idle else Closed
  }

  /** The id is used up although nothing is sent under it. */
  function SkipRequest(c: Control, goOn: bool): Control {
    c.(nextId := NextId(c.nextId), pc := AfterError(goOn), begun := c.begun + 1)
  }

  function ReadResponse(c: Control, decodes: bool, goOn: bool): Control
    requires c.pc.Awaiting? && c.toGuest != []
  {
    var rest := c.(toGuest := c.toGuest[1..]);
    match Receive(c.pc.request, c.toGuest[0], decodes)
    case Ok(response) => rest.(pc := Idle, successes := c.successes + [Success(c.pc.request, response)])
    case Err(_) => rest.(pc := AfterError(goOn))
  }

  function Step(c: Control, event: Event): Control {
    match event
    case Send(kind) => if c.pc.Idle? then SendRequest(c, kind) else c
    case Unsent(goOn) => if c.pc.Idle? then SkipRequest(c, goOn) else c
    case Answer =>
      if c.toHost == [] then c else c.(toHost := c.toHost[1..], toGuest := c.toGuest + [Respond(c.toHost[0])])
    case Read(decodes, goOn) => if c.pc.Awaiting? && c.toGuest != [] then ReadResponse(c, decodes, goOn) else c
    case Fail(goOn) => if c.pc.Awaiting? then c.(pc := AfterError(goOn)) else c
  }

  function Run(events: seq<Event>): Control {
    if events == [] then Start()
    else Step(Run(events[..|events| - 1]), events[|events| - 1])
  }

  /** The first request of a session has the id after the handshake's two. */
  lemma FirstRequestId()
    ensures Start().nextId == 3
  {
    assert IdAt(1) == NextId(IdAt(0)) && IdAt(2) == NextId(IdAt(1));
  }

  // -------------------------------------------------------------- every run

  /** The id of the request with this number. */
  function RequestId(index: nat): Id {
    IdAt(index + FirstIndex())
  }

  predicate RequestSound(c: Control, request: Request) {
    request.index < c.begun && request.id == RequestId(request.index)
  }

  /** A response belongs to an earlier request or to the current one. */
  predicate ResponseSound(c: Control, response: Response) {
    response.index < c.begun && response.id == RequestId(response.index)
  }

  predicate Sound(c: Control) {
    && c.nextId == RequestId(c.begun)
    && (c.pc.Awaiting? ==> c.pc.request.index == c.begun - 1 && RequestSound(c, c.pc.request))
    && (forall i :: 0 <= i < |c.toHost| ==> RequestSound(c, c.toHost[i]))
    && (forall i :: 0 <= i < |c.toGuest| ==> ResponseSound(c, c.toGuest[i]))
    && (forall i :: 0 <= i < |c.successes| ==> SuccessSound(c, c.successes[i]))
  }

  predicate SuccessSound(c: Control, s: Success) {
    && RequestSound(c, s.request) && ResponseSound(c, s.response)
    && s.request.id == s.response.id && s.request.kind == s.response.kind && s.response.index <= s.request.index
  }

  lemma StepSound(c: Control, event: Event)
    requires Sound(c)
    ensures Sound(Step(c, event))
  {
    hide IdAt;
    assert RequestId(c.begun + 1) == NextId(RequestId(c.begun)) by { NextRequestId(c.begun); }
  }

  lemma NextRequestId(index: nat)
    ensures RequestId(index + 1) == NextId(RequestId(index))
  {
    assert IdAt(index + 1 + FirstIndex()) == NextId(IdAt(index + 1 + FirstIndex() - 1));
  }

  lemma {:induction false} RunSound(events: seq<Event>)
    ensures Sound(Run(events))
  {
    if events != [] {
      RunSound(events[..|events| - 1]);
      StepSound(Run(events[..|events| - 1]), events[|events| - 1]);
    }
  }

  /** A success is the answer to that very request or to one a multiple of 2^32 - 1
      requests before it, even for a caller that goes on after errors. */
  lemma {:induction false} SuccessIsOwnAnswer(events: seq<Event>, i: nat)
    requires i < |Run(events).successes|
    ensures var s := Run(events).successes[i];
            && s.response.index <= s.request.index && (s.request.index - s.response.index) % Period() == 0
            && (s.request.index < Period() ==> s.response == Respond(s.request))
  {
    hide IdAt, Period;
    RunSound(events);
    var s := Run(events).successes[i];
    assert SuccessSound(Run(events), s);
    SameIdIff(s.response.index + FirstIndex(), s.request.index + FirstIndex());
    if s.response.index < s.request.index < Period() {
      IdsDistinct(s.response.index + FirstIndex(), s.request.index + FirstIndex());
    }
  }

  predicate Final(event: Event) {
    event.Unsent? || event.Read? || event.Fail? ==> !event.goOn
  }

  /** The answer belongs to the request: it has its type, and its number is the request's
      or a multiple of 2^32 - 1 less. */
  predicate Belongs(response: Response, request: Request) {
    response.kind == request.kind && response.index <= request.index && (request.index - response.index) % Period() == 0
  }

  /** What becomes of a request whose answer is read, in every run: it succeeds iff the
      answer belongs to it and is well formed, and otherwise fails for the first reason
      that holds; either way the answer is gone. */
  lemma {:induction false} ReadSucceedsIff(events: seq<Event>, decodes: bool, goOn: bool)
    requires Run(events).pc.Awaiting? && Run(events).toGuest != []
    ensures var c := Run(events);
            var c' := Step(c, Read(decodes, goOn));
            var request, response := c.pc.request, c.toGuest[0];
            && c'.toGuest == c.toGuest[1..] && response.index <= request.index
            && (if Belongs(response, request) && decodes then
                  c'.successes == c.successes + [Success(request, response)] && c'.pc == Idle
                else c'.successes == c.successes && c'.pc == (if goOn then Idle else Closed))
            && Receive(request, response, decodes)
               == if (request.index - response.index) % Period() != 0 then Err(UnexpectedResponseId(request.id, response.id))
                  else if response.kind != request.kind then Err(UnexpectedMessage)
                  else if !decodes then Err(Undecodable)
                  else Ok(response)
  {
    hide IdAt, Period, Run;
    RunSound(events);
    var c := Run(events);
    assert ResponseSound(c, c.toGuest[0]);
    SameIdIff(c.toGuest[0].index + FirstIndex(), c.pc.request.index + FirstIndex());
  }

  /** A request on an idle channel that nothing disturbs succeeds with its own answer. */
  lemma {:induction false} UndisturbedRequest(events: seq<Event>, kind: C.CommandKind, goOn: bool)
    requires var c := Run(events); c.pc.Idle? && c.toHost == [] && c.toGuest == []
    ensures var request := Request(Run(events).nextId, kind, Run(events).begun);
            var c := Run(events + [Send(kind), Answer, Read(true, goOn)]);
            && c.pc.Idle? && c.toHost == [] && c.toGuest == [] && c.nextId == NextId(Run(events).nextId)
            && c.successes == Run(events).successes + [Success(request, Respond(request))]
  {
    hide Run, NextId;
    var longer := events + [Send(kind), Answer, Read(true, goOn)];
    RunLast(longer);
    assert longer[..|longer| - 1] == events + [Send(kind), Answer];
    RunLast(events + [Send(kind), Answer]);
    assert (events + [Send(kind), Answer])[..|events| + 1] == events + [Send(kind)];
    RunLast(events + [Send(kind)]);
    assert (events + [Send(kind)])[..|events|] == events;
  }

  /** No error is survived, as in the command worker. */
  predicate GivesUp(events: seq<Event>) {
    forall i :: 0 <= i < |events| ==> Final(events[i])
  }

  /** The only frame on its way is the current request's or its answer. */
  predicate OneExchange(c: Control) {
    match c.pc
    case Idle => c.toHost == [] && c.toGuest == []
    case Awaiting(request) =>
      (c.toHost == [request] && c.toGuest == []) || (c.toHost == [] && c.toGuest == [Respond(request)])
    case Closed => true
  }

  predicate OwnAnswers(c: Control) {
    forall i :: 0 <= i < |c.successes| ==> c.successes[i].response == Respond(c.successes[i].request)
  }

  lemma {:induction false} OneExchangeAtATime(events: seq<Event>)
    requires GivesUp(events)
    ensures OneExchange(Run(events)) && OwnAnswers(Run(events))
  {
    if events != [] {
      var before := events[..|events| - 1];
      assert forall i :: 0 <= i < |before| ==> before[i] == events[i];
      OneExchangeAtATime(before);
      var c, event := Run(before), events[|events| - 1];
      assert Final(event);
      hide Run;
      assert OneExchange(Step(c, event)) && OwnAnswers(Step(c, event));
      assert Run(events) == Step(c, event) by { RunLast(events); }
    }
  }

  lemma RunLast(events: seq<Event>)
    requires events != []
    ensures Run(events) == Step(Run(events[..|events| - 1]), events[|events| - 1])
  {}

  /** The command worker never takes a late answer for its own, however many requests it
      sends: the first error ends the connection. */
  lemma {:induction false} WorkerGetsOwnAnswer(events: seq<Event>, i: nat)
    requires GivesUp(events) && i < |Run(events).successes|
    ensures Run(events).successes[i].response == Respond(Run(events).successes[i].request)
  {
    OneExchangeAtATime(events);
  }

  /** The command worker is never sent an answer that is not its own: reading one fails
      only if it is malformed. */
  lemma {:induction false} WorkerReadsOwnAnswer(events: seq<Event>, decodes: bool)
    requires GivesUp(events) && Run(events).pc.Awaiting? && Run(events).toGuest != []
    ensures var c := Run(events);
            Receive(c.pc.request, c.toGuest[0], decodes) == if decodes then Ok(Respond(c.pc.request)) else Err(Undecodable)
  {
    hide Run;
    OneExchangeAtATime(events);
  }

  // ------------------------------------------------------------- the object

  /** The guest's end of the channel; `control_request` is a write, then a read. */
  class GuestControl {
    var nextRequestId: Id
    var toHost: seq<Request>
    var toGuest: seq<Response>
    /** How many requests were begun; it only numbers them. */
    var begun: nat

    constructor ()
      ensures nextRequestId == Start().nextId && toHost == [] && toGuest == [] && begun == 0
    {
      nextRequestId, toHost, toGuest, begun := IdAt(FirstIndex()), [], [], 0;
    }

    /** `written` says whether the frame could be written. */
    method WriteRequest(kind: C.CommandKind, written: bool) returns (result: Result<Request, GuestError>)
      modifies this`nextRequestId, this`toHost, this`begun
      ensures result == if written then Ok(Request(old(nextRequestId), kind, old(begun))) else Err(NotWritten)
      ensures var before := Control(old(nextRequestId), Idle, old(toHost), toGuest, old(begun), []);
              var c := if written then SendRequest(before, kind) else SkipRequest(before, false);
              nextRequestId == c.nextId && toHost == c.toHost && begun == c.begun
    {
      var request := Request(nextRequestId, kind, begun);
      nextRequestId := if nextRequestId == 0xFFFF_FFFF then 1 else nextRequestId + 1;
      begun := begun + 1;
      if !written {
        return Err(NotWritten);
      }
      toHost := toHost + [request];
      result := Ok(request);
    }

    /** The next frame, or a timeout when there is none; it is used up in every case. */
    method ReadAnswer(request: Request, decodes: bool) returns (result: Result<Response, GuestError>)
      modifies this`toGuest
      ensures result == if old(toGuest) == [] then Err(Timeout) else Receive(request, old(toGuest)[0], decodes)
      ensures toGuest == if old(toGuest) == [] then [] else old(toGuest)[1..]
    {
      if toGuest == [] {
        return Err(Timeout);
      }
      var response := toGuest[0];
      toGuest := toGuest[1..];
      if response.id != request.id {
        return Err(UnexpectedResponseId(request.id, response.id));
      }
      if response.kind != request.kind {
        return Err(UnexpectedMessage);
      }
      if !decodes {
        return Err(Undecodable);
      }
      result := Ok(response);
    }
  }
}

/** The runs in which session ids have wrapped and the host takes a leftover input
    connection for the session's own (crosspuck-app/src/runtime.rs). */
module HandshakeWrap {
  import opened WrappingIds
  import opened Handshake
  import opened HandshakeRuns
  import P = HandshakeProgress

  /** The host waits for a connection and every attempt so far had its session. */
  predicate Waiting(w: World, k: nat) {
    && w.host.Accepting? && w.controlBacklog == [] && |w.controls| == |w.attempts| == k
    && w.nextSessionId == IdAt(k)
  }

  /** Attempt `a` was abandoned after it had attached, its input connection unread. */
  predicate Leftover(w: World, a: nat) {
    && w.inputBacklog == [a] && a < |w.attempts|
    && w.attempts[a].inputToHost == [InputAttach(ATTACH_ID, IdAt(a))]
  }

  /** An attempt whose session the host abandons as soon as it has begun. */
  lemma Abandon(events: seq<Event>, k: nat) returns (longer: seq<Event>)
    requires Waiting(Run(events), k)
    ensures Waiting(Run(longer), k + 1) && Run(longer).inputBacklog == Run(events).inputBacklog
    ensures forall g :: 0 <= g < k ==> Run(longer).attempts[g] == Run(events).attempts[g]
  {
    hide Run, IdAt, NextId;
    var first := P.Then(events, Begin(ProtocolVersion()));
    var second := P.Then(first, Host(true));
    longer := P.Then(second, HostGivesUp);
    IdAfter(k);
  }

  lemma AbandonMany(events: seq<Event>, k: nat, n: nat) returns (longer: seq<Event>)
    requires Waiting(Run(events), k)
    ensures Waiting(Run(longer), k + n) && Run(longer).inputBacklog == Run(events).inputBacklog
    ensures forall g :: 0 <= g < k ==> Run(longer).attempts[g] == Run(events).attempts[g]
  {
    hide Run, Waiting;
    longer := events;
    if n > 0 {
      var most := AbandonMany(events, k, n - 1);
      longer := Abandon(most, k + n - 1);
    }
  }

  /** Session `k` is accepted and its device selected and opened. */
  predicate Selected(w: World, k: nat) {
    && w.host == Acknowledging(k, HELLO_ID) && w.controlBacklog == []
    && |w.controls| == |w.attempts| == k + 1 && w.controls[k] == k
    && w.sessionId == IdAt(k) && w.nextSessionId == IdAt(k + 1)
    && w.attempts[k] == Attempt(ProtocolVersion(), AwaitingHelloOk, [], [], [], [])
  }

  lemma Select(events: seq<Event>, k: nat) returns (longer: seq<Event>)
    requires Waiting(Run(events), k)
    ensures Selected(Run(longer), k) && Run(longer).inputBacklog == Run(events).inputBacklog
    ensures forall g :: 0 <= g < k ==> Run(longer).attempts[g] == Run(events).attempts[g]
  {
    hide Run, IdAt, NextId;
    longer := P.Then(events, Begin(ProtocolVersion()));
    longer := P.Then(longer, Host(true));
    longer := P.Then(longer, Host(true));
    longer := P.Then(longer, Host(true));
    longer := P.Then(longer, Host(true));
    IdAfter(k);
  }

  /** Session `k` is acknowledged and identified, and nothing of it read by its guest. */
  predicate Greeted(w: World, k: nat) {
    && w.host == AcceptingInput(k) && w.controlBacklog == []
    && |w.controls| == |w.attempts| == k + 1 && w.controls[k] == k
    && w.sessionId == IdAt(k) && w.nextSessionId == IdAt(k + 1)
    && w.attempts[k] == Attempt(ProtocolVersion(), AwaitingHelloOk, [],
                                [HelloOk(HELLO_ID, ProtocolVersion(), StatusOk, IdAt(k), k), Identity(0, k)], [], [])
  }

  lemma Greet(events: seq<Event>, k: nat) returns (longer: seq<Event>)
    requires Waiting(Run(events), k)
    ensures Greeted(Run(longer), k) && Run(longer).inputBacklog == Run(events).inputBacklog
    ensures forall g :: 0 <= g < k ==> Run(longer).attempts[g] == Run(events).attempts[g]
  {
    hide Run, IdAt;
    longer := Select(events, k);
    longer := P.Then(longer, Host(true));
    longer := P.Then(longer, Host(true));
  }

  /** The guest reads what the host sent and attaches; then the host gives up. */
  lemma Leave(events: seq<Event>, k: nat) returns (longer: seq<Event>)
    requires Greeted(Run(events), k) && Run(events).inputBacklog == []
    ensures Waiting(Run(longer), k + 1) && Leftover(Run(longer), k)
  {
    hide Run, IdAt;
    longer := P.Then(events, Guest(k));
    longer := P.Then(longer, Guest(k));
    longer := P.Then(longer, Guest(k));
    longer := P.Then(longer, HostGivesUp);
  }

  lemma Serve(events: seq<Event>, a: nat, k: nat) returns (longer: seq<Event>)
    requires Greeted(Run(events), k) && Leftover(Run(events), a) && IdAt(a) == IdAt(k)
    ensures Run(longer).host == Serving(k, a) && |Run(longer).controls| == k + 1
  {
    hide Run, IdAt;
    longer := P.Then(events, Host(true));
    longer := P.Then(longer, Host(true));
  }

  /** After `a` sessions one is left over, then come enough others for its id to
      return, and the host serves attempt `a + n` over the input connection of `a`. */
  lemma LeftoverServed(a: nat, n: nat) returns (events: seq<Event>)
    requires 0 < n && n % Period() == 0
    ensures Run(events).host == Serving(a + n, a) && |Run(events).controls| == a + n + 1
  {
    hide IdAt, Step, Run;
    events := NoEvents();
    events := AbandonMany(events, 0, a);
    events := Greet(events, a);
    events := Leave(events, a);
    events := AbandonMany(events, a + 1, n - 1);
    events := Greet(events, a + n);
    SameIdIff(a, a + n);
    events := Serve(events, a, a + n);
  }

  lemma NoEvents() returns (events: seq<Event>)
    ensures events == [] && Waiting(Run(events), 0) && Run(events).inputBacklog == []
  {
    events := [];
  }

  /** With `k` sessions accepted the host can be serving one attempt's control with
      another's input connection iff `k` is more than 2^32 - 1. */
  lemma {:induction false} MixedUpIff(k: nat)
    ensures (exists events :: |Run(events).controls| == k && Run(events).host.Serving?
                              && Run(events).host.input != Run(events).host.control)
       <==> k > Period()
  {
    hide Run;
    forall events | |Run(events).controls| == k && Run(events).host.Serving?
                    && Run(events).host.input != Run(events).host.control
      ensures k > Period()
    {
      ServesOneGuest(events);
    }
    if k > Period() {
      var events := LeftoverServed(k - 1 - Period(), Period());
    }
  }
}

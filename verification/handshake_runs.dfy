/** What a guest that considers itself connected can rely on, over every run of the
    handshake with any number of attempts, leftover connections and abandoned sessions. */
module HandshakeRuns {
  import opened Wrappers
  import opened WrappingIds
  import opened Handshake

  // ------------------------------------------------------- what the host did

  /** The entry at `k` was preceded by the step it needs. */
  predicate Preceded(log: seq<HostAction>, k: nat)
    requires k < |log|
  {
    match log[k]
    case ReaderOpened(_) => true
    case SentHelloOk(n, status) => status == StatusOk ==> ReaderOpened(n) in log[..k]
    case SentIdentity(n) => SentHelloOk(n, StatusOk) in log[..k]
    case AttachAccepted(n, _) => SentIdentity(n) in log[..k]
  }

  predicate LogOrdered(log: seq<HostAction>) {
    forall k :: 0 <= k < |log| ==> Preceded(log, k)
  }

  lemma LogExtended(log: seq<HostAction>, action: HostAction)
    requires LogOrdered(log)
    requires match action
             case ReaderOpened(_) => true
             case SentHelloOk(n, status) => status == StatusOk ==> ReaderOpened(n) in log
             case SentIdentity(n) => SentHelloOk(n, StatusOk) in log
             case AttachAccepted(n, _) => SentIdentity(n) in log
    ensures LogOrdered(log + [action])
  {
    var log' := log + [action];
    forall k | 0 <= k < |log'| ensures Preceded(log', k) {
      if k < |log| {
        assert log'[..k] == log[..k] && Preceded(log, k);
      } else {
        assert log'[..k] == log;
      }
    }
  }

  /** Sessions act one after the other. */
  predicate InTurn(log: seq<HostAction>) {
    forall j, k :: 0 <= j < k < |log| ==> log[j].session <= log[k].session
  }

  /** The session has answered a hello. */
  predicate Answered(log: seq<HostAction>, n: nat) {
    exists k :: 0 <= k < |log| && log[k].SentHelloOk? && log[k].session == n
  }

  /** A session answers at most one hello. */
  predicate AnsweredOnce(log: seq<HostAction>) {
    forall j, k :: 0 <= j < k < |log| && log[j].SentHelloOk? && log[k].SentHelloOk? ==> log[j].session != log[k].session
  }

  predicate HostSound(w: World) {
    && LogOrdered(w.log) && AnsweredOnce(w.log) && InTurn(w.log)
    && (forall k :: 0 <= k < |w.log| ==> w.log[k].session < |w.controls|)
    && w.nextSessionId == IdAt(|w.controls|)
    && (w.controls != [] ==> w.sessionId == IdAt(Current(w)))
    && (!w.host.Accepting? ==> w.controls != [] && w.host.control == w.controls[Current(w)])
    && match w.host
       case Accepting => true
       case ReadingHello(_) => !Answered(w.log, Current(w))
       case Selecting(_, _) => !Answered(w.log, Current(w))
       case OpeningReader(_, _) => !Answered(w.log, Current(w))
       case Acknowledging(_, _) => !Answered(w.log, Current(w)) && ReaderOpened(Current(w)) in w.log
       case Identifying(_) => SentHelloOk(Current(w), StatusOk) in w.log
       case AcceptingInput(_) => SentIdentity(Current(w)) in w.log
       case ReadingAttach(_, _) => SentIdentity(Current(w)) in w.log
       case Serving(_, i) => AttachAccepted(Current(w), i) in w.log
  }

  /** The host's state when it goes on with its session after logging `action`. */
  lemma Logged(w: World, w': World, action: HostAction)
    requires HostSound(w) && w.controls != [] && action.session == Current(w)
    requires w'.log == w.log + [action] && w'.controls == w.controls
    requires w'.nextSessionId == w.nextSessionId && w'.sessionId == w.sessionId
    requires match action
             case ReaderOpened(_) => true
             case SentHelloOk(n, status) => (status == StatusOk ==> ReaderOpened(n) in w.log) && !Answered(w.log, n)
             case SentIdentity(n) => SentHelloOk(n, StatusOk) in w.log
             case AttachAccepted(n, _) => SentIdentity(n) in w.log
    ensures LogOrdered(w'.log) && AnsweredOnce(w'.log) && InTurn(w'.log) && action in w'.log
    ensures forall k :: 0 <= k < |w'.log| ==> w'.log[k].session < |w'.controls|
    ensures !action.SentHelloOk? ==> (Answered(w'.log, Current(w)) ==> Answered(w.log, Current(w)))
  {
    LogExtended(w.log, action);
    assert w'.log[|w.log|] == action;
    assert forall k :: 0 <= k < |w.log| ==> w'.log[k] == w.log[k];
  }

  lemma NewSessionUnanswered(w: World)
    requires HostSound(w)
    ensures !Answered(w.log, |w.controls|)
  {}

  lemma AcceptSound(w: World, usable: bool)
    requires InUse(w) && HostSound(w) && w.host.Accepting?
    ensures HostSound(HostStep(w, usable))
  {
    hide LogOrdered, AnsweredOnce, InTurn, Answered, IdAt, NextId;
    if w.controlBacklog != [] {
      NewSessionUnanswered(w);
      IdAfter(|w.controls|);
    }
  }

  /** Before the session is acknowledged: a refusal, or one step further. */
  lemma SelectSound(w: World, usable: bool)
    requires InUse(w) && HostSound(w) && (w.host.ReadingHello? || w.host.Selecting? || w.host.OpeningReader?)
    ensures HostSound(HostStep(w, usable))
  {
    hide LogOrdered, AnsweredOnce, InTurn, Answered, IdAt;
    var w' := HostStep(w, usable);
    if w.host.ReadingHello? && w'.log != w.log {
      Logged(w, w', SentHelloOk(Current(w), ProtocolFailure));
    } else if !w.host.ReadingHello? && !usable {
      Logged(w, w', SentHelloOk(Current(w), DeviceDisconnected));
    } else if w.host.OpeningReader? {
      Logged(w, w', ReaderOpened(Current(w)));
    }
  }

  lemma StepHostSound(w: World, usable: bool)
    requires InUse(w) && HostSound(w)
    ensures HostSound(HostStep(w, usable))
  {
    hide LogOrdered, AnsweredOnce, InTurn, Answered, IdAt, AcceptControl, GreetGuest, RefuseGuest;
    var w' := HostStep(w, usable);
    match w.host
    case Accepting => AcceptSound(w, usable);
    case ReadingHello(_) => SelectSound(w, usable);
    case Selecting(_, _) => SelectSound(w, usable);
    case OpeningReader(_, _) => SelectSound(w, usable);
    case Acknowledging(_, _) => Logged(w, w', SentHelloOk(Current(w), StatusOk));
    case Identifying(_) => Logged(w, w', SentIdentity(Current(w)));
    case AcceptingInput(_) =>
    case ReadingAttach(_, i) =>
      if w'.log != w.log {
        Logged(w, w', AttachAccepted(Current(w), i));
      }
    case Serving(_, _) =>
  }

  lemma IdAfter(n: nat)
    ensures IdAt(n + 1) == NextId(IdAt(n))
  {}

  // --------------------------------------------- each connection is used once

  predicate AllDistinct(s: seq<nat>) {
    forall i, j :: 0 <= i < j < |s| ==> s[i] != s[j]
  }

  /** A control connection is waiting or was accepted for one session. */
  predicate ControlsOnce(w: World) {
    && AllDistinct(w.controls + w.controlBacklog)
    && forall i :: 0 <= i < |w.controls + w.controlBacklog| ==> (w.controls + w.controlBacklog)[i] < |w.attempts|
  }

  predicate HasAttached(pc: GuestPc) {
    pc.AwaitingAttachOk? || pc.Connected? || pc.Failed?
  }

  /** Input connections come from attempts that sent their attach. */
  predicate InputsAttached(w: World) {
    && InUse(w)
    && (forall i :: 0 <= i < |w.inputBacklog| ==> HasAttached(w.attempts[w.inputBacklog[i]].pc))
    && (w.host.ReadingAttach? ==> HasAttached(w.attempts[w.host.input].pc))
  }

  lemma StepControlsOnce(w: World, event: Event)
    requires InUse(w) && ControlsOnce(w)
    ensures ControlsOnce(Step(w, event))
  {
    hide ControlsOnce, HostStep, GuestStep, Dial;
    if event.Begin? {
      DialControlsOnce(w, event.version);
    } else if event.Host? {
      HostControlsOnce(w, event.usable);
    } else {
      var w' := Step(w, event);
      GuestKeepsControls(w, event);
      SameControls(w, w');
    }
  }

  lemma GuestKeepsControls(w: World, event: Event)
    requires InUse(w) && !event.Begin? && !event.Host?
    ensures var w' := Step(w, event);
            w'.controls == w.controls && w'.controlBacklog == w.controlBacklog && |w'.attempts| == |w.attempts|
  {}

  lemma SameControls(w: World, w': World)
    requires ControlsOnce(w) && |w'.attempts| == |w.attempts|
    requires w'.controls + w'.controlBacklog == w.controls + w.controlBacklog
    ensures ControlsOnce(w')
  {}

  lemma DialControlsOnce(w: World, version: nat)
    requires InUse(w) && ControlsOnce(w)
    ensures ControlsOnce(Dial(w, version))
  {
    var w' := Dial(w, version);
    assert w'.controls + w'.controlBacklog == (w.controls + w.controlBacklog) + [|w.attempts|];
  }

  lemma HostControlsOnce(w: World, usable: bool)
    requires InUse(w) && ControlsOnce(w)
    ensures ControlsOnce(HostStep(w, usable))
  {
    hide ControlsOnce;
    var w' := HostStep(w, usable);
    assert w'.controls + w'.controlBacklog == w.controls + w.controlBacklog;
    SameControls(w, w');
  }

  lemma StepInputsAttached(w: World, event: Event)
    requires InputsAttached(w)
    ensures InputsAttached(Step(w, event))
  {
    if event.Host? {
      HostInputsAttached(w, event.usable);
    }
  }

  lemma HostInputsAttached(w: World, usable: bool)
    requires InputsAttached(w)
    ensures InputsAttached(HostStep(w, usable))
  {
    hide HasAttached, HostStep;
    HostKeepsPcs(w, usable);
    HostKeepsInputs(w, usable);
    assert forall x :: x in w.inputBacklog ==> x < |w.attempts| && HasAttached(w.attempts[x].pc);
  }

  lemma HostKeepsPcs(w: World, usable: bool)
    requires InUse(w)
    ensures var w' := HostStep(w, usable);
            |w'.attempts| == |w.attempts| && forall g :: 0 <= g < |w.attempts| ==> w'.attempts[g].pc == w.attempts[g].pc
  {
    hide IdAt, NextId;
  }

  /** The inputs waiting or being read were waiting or being read before. */
  lemma HostKeepsInputs(w: World, usable: bool)
    requires InUse(w)
    ensures var w' := HostStep(w, usable);
            && InUse(w')
            && (forall i :: 0 <= i < |w'.inputBacklog| ==> w'.inputBacklog[i] in w.inputBacklog)
            && (w'.host.ReadingAttach? ==>
                  w'.host.input in w.inputBacklog || (w.host.ReadingAttach? && w'.host.input == w.host.input))
  {
    hide IdAt, NextId;
  }

  // ----------------------------------------------------- what a guest received

  /** The attempt's control connection was used by a session with this id. */
  predicate Granted(controls: seq<nat>, g: nat, sessionId: Id) {
    exists n :: 0 <= n < |controls| && controls[n] == g && IdAt(n) == sessionId
  }

  predicate ControlFrameSound(frame: Frame, g: nat, controls: seq<nat>, log: seq<HostAction>) {
    match frame
    case HelloOk(_, _, status, sessionId, n) =>
      n < |controls| && controls[n] == g && sessionId == IdAt(n) && (status == StatusOk ==> SentHelloOk(n, StatusOk) in log)
    case Identity(_, n) => n < |controls| && controls[n] == g && SentIdentity(n) in log
    case _ => true
  }

  predicate AttachSound(frame: Frame, g: nat, pc: GuestPc, controls: seq<nat>) {
    frame.InputAttach? ==>
      && Granted(controls, g, frame.sessionId)
      && (pc.AwaitingAttachOk? || pc.Connected? ==> frame.sessionId == pc.sessionId)
  }

  predicate AttachOkSound(frame: Frame, g: nat, pc: GuestPc, controls: seq<nat>, log: seq<HostAction>) {
    frame.InputAttachOk? && frame.status == StatusOk ==>
      && frame.session < |controls| && AttachAccepted(frame.session, g) in log
      && (pc.AwaitingAttachOk? || pc.Connected? ==> IdAt(frame.session) == pc.sessionId && pc.hello <= frame.session)
  }

  predicate Helloed(sessionId: Id, n: nat, g: nat, controls: seq<nat>, log: seq<HostAction>) {
    n < |controls| && controls[n] == g && sessionId == IdAt(n) && SentHelloOk(n, StatusOk) in log
  }

  predicate Identified(n: nat, g: nat, controls: seq<nat>, log: seq<HostAction>) {
    n < |controls| && controls[n] == g && SentIdentity(n) in log
  }

  predicate PcSound(pc: GuestPc, g: nat, controls: seq<nat>, log: seq<HostAction>) {
    match pc
    case AwaitingHelloOk => true
    case AwaitingIdentity(s, h) => Helloed(s, h, g, controls, log)
    case ConnectingInput(s, h, i) => Helloed(s, h, g, controls, log) && Identified(i, g, controls, log)
    case AwaitingAttachOk(s, h, i) => Helloed(s, h, g, controls, log) && Identified(i, g, controls, log)
    case Connected(s, h, i, a) =>
      && Helloed(s, h, g, controls, log) && Identified(i, g, controls, log)
      && h <= a < |controls| && AttachAccepted(a, g) in log && IdAt(a) == s
    case Failed(_) => true
  }

  predicate AttemptSound(a: Attempt, g: nat, controls: seq<nat>, log: seq<HostAction>) {
    && PcSound(a.pc, g, controls, log)
    && (forall k :: 0 <= k < |a.controlToGuest| ==> ControlFrameSound(a.controlToGuest[k], g, controls, log))
    && (forall k :: 0 <= k < |a.inputToHost| ==> AttachSound(a.inputToHost[k], g, a.pc, controls))
    && (forall k :: 0 <= k < |a.inputToGuest| ==> AttachOkSound(a.inputToGuest[k], g, a.pc, controls, log))
    && (!HasAttached(a.pc) ==> a.inputToHost == [] && a.inputToGuest == [])
  }

  predicate AttemptsSound(w: World) {
    forall g :: 0 <= g < |w.attempts| ==> AttemptSound(w.attempts[g], g, w.controls, w.log)
  }

  /** An input connection was accepted by a session with the id its attempt was granted. */
  predicate AttachesGranted(controls: seq<nat>, log: seq<HostAction>) {
    forall k :: 0 <= k < |log| && log[k].AttachAccepted? ==> Granted(controls, log[k].input, IdAt(log[k].session))
  }

  /** Later sessions and actions do not invalidate what was received. */
  lemma StaysSound(a: Attempt, g: nat, controls: seq<nat>, log: seq<HostAction>, controls': seq<nat>, log': seq<HostAction>)
    requires AttemptSound(a, g, controls, log) && controls <= controls' && log <= log'
    ensures AttemptSound(a, g, controls', log')
  {
    hide IdAt;
    assert forall n :: 0 <= n < |controls| ==> controls'[n] == controls[n];
    assert forall action :: action in log ==> action in log';
  }

  lemma StaysGranted(controls: seq<nat>, log: seq<HostAction>, controls': seq<nat>)
    requires AttachesGranted(controls, log) && controls <= controls'
    ensures AttachesGranted(controls', log)
  {
    hide IdAt;
    assert forall n :: 0 <= n < |controls| ==> controls'[n] == controls[n];
  }

  lemma GuestStepSound(w: World, g: nat)
    requires InUse(w) && g < |w.attempts| && AttemptsSound(w)
    ensures AttemptsSound(GuestStep(w, g))
  {
    hide IdAt;
    var a := w.attempts[g];
    assert AttemptSound(a, g, w.controls, w.log);
    if a.pc.AwaitingHelloOk? && a.controlToGuest != [] {
      assert ControlFrameSound(a.controlToGuest[0], g, w.controls, w.log);
    } else if a.pc.AwaitingIdentity? && a.controlToGuest != [] {
      assert ControlFrameSound(a.controlToGuest[0], g, w.controls, w.log);
    } else if a.pc.AwaitingAttachOk? && a.inputToGuest != [] {
      assert AttachOkSound(a.inputToGuest[0], g, a.pc, w.controls, w.log);
    }
    var w' := GuestStep(w, g);
    assert AttemptSound(w'.attempts[g], g, w'.controls, w'.log);
  }

  lemma OthersStaySound(w: World, w': World, g: nat)
    requires AttemptsSound(w) && w.controls <= w'.controls && w.log <= w'.log
    requires |w'.attempts| == |w.attempts| && forall n :: 0 <= n < |w.attempts| && n != g ==> w'.attempts[n] == w.attempts[n]
    requires g < |w.attempts| ==> AttemptSound(w'.attempts[g], g, w'.controls, w'.log)
    ensures AttemptsSound(w')
  {
    forall n | 0 <= n < |w.attempts| && n != g ensures AttemptSound(w'.attempts[n], n, w'.controls, w'.log) {
      StaysSound(w.attempts[n], n, w.controls, w.log, w'.controls, w'.log);
    }
  }

  lemma ControlWritten(w: World, w': World, g: nat, frame: Frame)
    requires AttemptsSound(w) && g < |w.attempts| && w.controls <= w'.controls && w.log <= w'.log
    requires |w'.attempts| == |w.attempts| && forall n :: 0 <= n < |w.attempts| && n != g ==> w'.attempts[n] == w.attempts[n]
    requires w'.attempts[g].controlToGuest == w.attempts[g].controlToGuest + [frame]
    requires w'.attempts[g].pc == w.attempts[g].pc && w'.attempts[g].inputToHost == w.attempts[g].inputToHost
    requires w'.attempts[g].inputToGuest == w.attempts[g].inputToGuest
    requires ControlFrameSound(frame, g, w'.controls, w'.log)
    ensures AttemptsSound(w')
  {
    hide ControlFrameSound, PcSound, AttachSound, AttachOkSound, HasAttached;
    StaysSound(w.attempts[g], g, w.controls, w.log, w'.controls, w'.log);
    OthersStaySound(w, w', g);
  }

  lemma HostControlSound(w: World, usable: bool)
    requires InUse(w) && AttemptsSound(w) && HostSound(w) && !w.host.ReadingAttach?
    ensures AttemptsSound(HostStep(w, usable))
  {
    hide AttemptsSound, LogOrdered, AnsweredOnce, Answered, IdAt;
    var w' := HostStep(w, usable);
    if w'.attempts == w.attempts {
      SameAttempts(w, w');
    } else {
      var g := w.host.control;
      if w.host.ReadingHello? && w'.log == w.log {
        HelloRead(w, w', g);
      } else {
        var sent := w'.attempts[g].controlToGuest;
        ControlWritten(w, w', g, sent[|sent| - 1]);
      }
    }
  }

  lemma SameAttempts(w: World, w': World)
    requires AttemptsSound(w) && w'.attempts == w.attempts && w.controls <= w'.controls && w.log <= w'.log
    ensures AttemptsSound(w')
  {
    OthersStaySound(w, w', |w.attempts|);
  }

  lemma HelloRead(w: World, w': World, g: nat)
    requires AttemptsSound(w) && g < |w.attempts| && w.controls <= w'.controls && w.log <= w'.log
    requires |w'.attempts| == |w.attempts| && forall n :: 0 <= n < |w.attempts| && n != g ==> w'.attempts[n] == w.attempts[n]
    requires w'.attempts[g] == w.attempts[g].(controlToHost := w'.attempts[g].controlToHost)
    ensures AttemptsSound(w')
  {
    hide ControlFrameSound, PcSound, AttachSound, AttachOkSound, HasAttached;
    StaysSound(w.attempts[g], g, w.controls, w.log, w'.controls, w'.log);
    OthersStaySound(w, w', g);
  }

  lemma HostInputSound(w: World)
    requires AttemptsSound(w) && HostSound(w) && InputsAttached(w) && w.host.ReadingAttach?
    ensures AttemptsSound(HostStep(w, true))
  {
    hide LogOrdered, AnsweredOnce, InTurn, Answered, IdAt;
    var w' := HostStep(w, true);
    var i := w.host.input;
    if w.attempts[i].inputToHost != [] {
      assert AttemptSound(w.attempts[i], i, w.controls, w.log);
      assert AttachSound(w.attempts[i].inputToHost[0], i, w.attempts[i].pc, w.controls);
      StaysSound(w.attempts[i], i, w.controls, w.log, w'.controls, w'.log);
      if w'.log != w.log {
        assert w'.log[|w.log|] == AttachAccepted(Current(w), i);
      }
      assert AttemptSound(w'.attempts[i], i, w'.controls, w'.log);
      OthersStaySound(w, w', i);
    }
  }

  lemma StepAttempts(w: World, event: Event)
    requires InUse(w) && AttemptsSound(w) && HostSound(w) && InputsAttached(w)
    ensures AttemptsSound(Step(w, event))
  {
    hide HostSound, IdAt;
    match event
    case Begin(version) => BeginSound(w, version);
    case Guest(g) =>
      if g < |w.attempts| {
        GuestStepSound(w, g);
      }
    case GuestGivesUp(g) =>
      if g < |w.attempts| {
        var w' := Step(w, event);
        assert AttemptSound(w.attempts[g], g, w.controls, w.log);
        assert AttemptSound(w'.attempts[g], g, w'.controls, w'.log);
        OthersStaySound(w, w', g);
      }
    case Host(usable) =>
      if w.host.ReadingAttach? {
        HostInputSound(w);
      } else {
        HostControlSound(w, usable);
      }
    case HostGivesUp => SameAttempts(w, Step(w, event));
  }

  lemma BeginSound(w: World, version: nat)
    requires InUse(w) && AttemptsSound(w)
    ensures AttemptsSound(Dial(w, version))
  {
    var w' := Dial(w, version);
    assert AttemptSound(w'.attempts[|w.attempts|], |w.attempts|, w'.controls, w'.log);
    assert forall g :: 0 <= g < |w.attempts| ==> w'.attempts[g] == w.attempts[g];
  }

  lemma StepAttaches(w: World, event: Event)
    requires InUse(w) && AttemptsSound(w) && HostSound(w) && AttachesGranted(w.controls, w.log)
    ensures AttachesGranted(Step(w, event).controls, Step(w, event).log)
  {
    hide AttachesGranted, HostStep, GuestStep, HostSound, AttemptsSound;
    if event.Host? {
      HostAttaches(w, event.usable);
    } else {
      NothingLogged(w, event);
    }
  }

  lemma NothingLogged(w: World, event: Event)
    requires InUse(w) && !event.Host?
    ensures Step(w, event).log == w.log && Step(w, event).controls == w.controls
  {}

  lemma HostAttaches(w: World, usable: bool)
    requires InUse(w) && AttemptsSound(w) && HostSound(w) && AttachesGranted(w.controls, w.log)
    ensures AttachesGranted(HostStep(w, usable).controls, HostStep(w, usable).log)
  {
    hide LogOrdered, AnsweredOnce, InTurn, Answered, IdAt, NextId, AttachesGranted;
    var w' := HostStep(w, usable);
    StaysGranted(w.controls, w.log, w'.controls);
    if w'.log != w.log {
      var action := w'.log[|w.log|];
      if action.AttachAccepted? {
        var i := w.host.input;
        assert AttemptSound(w.attempts[i], i, w.controls, w.log);
        assert AttachSound(w.attempts[i].inputToHost[0], i, w.attempts[i].pc, w.controls);
      }
      AttachLogged(w'.controls, w.log, action);
    }
  }

  lemma AttachLogged(controls: seq<nat>, log: seq<HostAction>, action: HostAction)
    requires AttachesGranted(controls, log)
    requires action.AttachAccepted? ==> Granted(controls, action.input, IdAt(action.session))
    ensures AttachesGranted(controls, log + [action])
  {
    hide Granted;
  }

  lemma StepHost(w: World, event: Event)
    requires InUse(w) && HostSound(w)
    ensures HostSound(Step(w, event))
  {
    hide LogOrdered, AnsweredOnce, InTurn, Answered, IdAt, HostStep;
    if event.Host? {
      StepHostSound(w, event.usable);
    }
  }

  predicate Sound(w: World) {
    && InUse(w) && HostSound(w) && ControlsOnce(w) && InputsAttached(w) && AttemptsSound(w)
    && AttachesGranted(w.controls, w.log)
  }

  lemma {:induction false} RunSound(events: seq<Event>)
    ensures Sound(Run(events))
  {
    if events != [] {
      hide HostSound, ControlsOnce, InputsAttached, AttemptsSound, AttachesGranted, Step, InUse;
      RunSound(events[..|events| - 1]);
      var w, event := Run(events[..|events| - 1]), events[|events| - 1];
      StepHost(w, event);
      StepControlsOnce(w, event);
      StepInputsAttached(w, event);
      StepAttempts(w, event);
      StepAttaches(w, event);
    }
  }

  // ------------------------------------------------------------ main results

  predicate SetUpAt(log: seq<HostAction>, n: nat, m: nat, input: nat, p: nat, q: nat, r: nat, t: nat) {
    && p < q < r < t < |log| && log[p] == ReaderOpened(n) && log[q] == SentHelloOk(n, StatusOk)
    && log[r] == SentIdentity(n) && log[t] == AttachAccepted(m, input)
  }

  /** Session `n` opened its reader, then acknowledged a guest, then identified itself,
      and after that session `m` accepted the input connection. */
  ghost predicate SetUpInOrder(log: seq<HostAction>, n: nat, m: nat, input: nat) {
    exists p, q, r, t :: SetUpAt(log, n, m, input, p, q, r, t)
  }

  lemma EntryBefore(log: seq<HostAction>, k: nat, action: HostAction) returns (j: nat)
    requires k <= |log| && action in log[..k]
    ensures j < k && log[j] == action
  {
    j :| 0 <= j < k && log[..k][j] == action;
  }

  /** The last entry of session `n` before the attach at `t`. */
  lemma IdentifiedBefore(log: seq<HostAction>, n: nat, t: nat) returns (r: nat)
    requires LogOrdered(log) && InTurn(log) && t < |log| && log[t].AttachAccepted?
    requires n <= log[t].session && SentIdentity(n) in log
    ensures r < t && log[r] == SentIdentity(n)
  {
    if n == log[t].session {
      assert Preceded(log, t);
      r := EntryBefore(log, t, SentIdentity(n));
    } else {
      assert log[..|log|] == log;
      r := EntryBefore(log, |log|, SentIdentity(n));
    }
  }

  lemma AcceptedInOrder(log: seq<HostAction>, n: nat, m: nat, input: nat)
    requires LogOrdered(log) && InTurn(log)
    requires n <= m && SentIdentity(n) in log && AttachAccepted(m, input) in log
    ensures SetUpInOrder(log, n, m, input)
  {
    assert log[..|log|] == log;
    var t := EntryBefore(log, |log|, AttachAccepted(m, input));
    var r := IdentifiedBefore(log, n, t);
    assert Preceded(log, r);
    var q := EntryBefore(log, r, SentHelloOk(n, StatusOk));
    assert Preceded(log, q);
    var p := EntryBefore(log, q, ReaderOpened(n));
    assert SetUpAt(log, n, m, input, p, q, r, t);
  }

  lemma WithinPeriod(m: nat, n: nat)
    requires m <= n < m + Period() && (n - m) % Period() == 0
    ensures m == n
  {}

  lemma OneSessionPerControl(w: World, m: nat, n: nat)
    requires ControlsOnce(w) && m < |w.controls| && n < |w.controls| && w.controls[m] == w.controls[n]
    ensures m == n
  {
    assert (w.controls + w.controlBacklog)[m] == (w.controls + w.controlBacklog)[n];
  }

  /** A connected guest: session `n` opened the reader, then acknowledged the guest,
      then identified itself, both on the guest's own control connection; then session
      `m`, the same one or a later one with the same id, accepted the guest's attach,
      having gone through those steps itself. */
  lemma {:induction false} ConnectedAfterHandshake(events: seq<Event>, g: nat)
    requires g < |Run(events).attempts| && Run(events).attempts[g].pc.Connected?
    ensures var w := Run(events);
            var (s, n, m) := (w.attempts[g].pc.sessionId, w.attempts[g].pc.hello, w.attempts[g].pc.attach);
            && w.attempts[g].pc.identity == n && n < |w.controls| && w.controls[n] == g
            && n <= m < |w.controls| && IdAt(n) == s == IdAt(m)
            && SetUpInOrder(w.log, n, m, g) && SetUpInOrder(w.log, m, m, g)
  {
    hide IdAt, Run, LogOrdered, AnsweredOnce, InTurn, Answered, ControlsOnce, InUse, InputsAttached, AttachesGranted, SetUpInOrder;
    RunSound(events);
    var w := Run(events);
    var pc := w.attempts[g].pc;
    assert AttemptSound(w.attempts[g], g, w.controls, w.log);
    OneSessionPerControl(w, pc.identity, pc.hello);
    AttachedAfterIdentifying(w.log, pc.attach, g);
    AcceptedInOrder(w.log, pc.hello, pc.attach, g);
    AcceptedInOrder(w.log, pc.attach, pc.attach, g);
  }

  /** The session that accepted a guest's attach is the one that acknowledged it or a
      multiple of 2^32 - 1 sessions later; so, before the ids wrap, it is one session
      and both sides agree which. */
  lemma {:induction false} OneSessionThroughout(events: seq<Event>, g: nat)
    requires g < |Run(events).attempts| && Run(events).attempts[g].pc.Connected?
    ensures var pc := Run(events).attempts[g].pc;
            && pc.hello <= pc.attach && (pc.attach - pc.hello) % Period() == 0
            && (pc.attach - pc.hello < Period() ==> pc.hello == pc.attach)
    ensures |Run(events).controls| <= Period() ==>
              Run(events).attempts[g].pc.hello == Run(events).attempts[g].pc.attach
  {
    hide IdAt, SetUpInOrder, Run;
    ConnectedAfterHandshake(events, g);
    var pc := Run(events).attempts[g].pc;
    SameIdIff(pc.hello, pc.attach);
    if pc.attach - pc.hello < Period() {
      WithinPeriod(pc.hello, pc.attach);
    }
  }

  /** The input connection that the host serves was made by the attempt it talks to or
      by one whose own session was a multiple of 2^32 - 1 sessions before; so, before
      the ids wrap, a leftover input connection is never taken for the session's own. */
  lemma {:induction false} ServesOneGuest(events: seq<Event>)
    requires Run(events).host.Serving?
    ensures var w := Run(events);
            && w.host.control == w.controls[Current(w)]
            && (exists m :: 0 <= m < |w.controls| && w.controls[m] == w.host.input && (Current(w) - m) % Period() == 0)
            && (|w.controls| <= Period() ==> w.host.input == w.host.control)
  {
    hide IdAt, Run, LogOrdered, AnsweredOnce, InTurn, Answered, ControlsOnce, InputsAttached, AttemptsSound;
    RunSound(events);
    var w := Run(events);
    var i, n := w.host.input, Current(w);
    assert AttachAccepted(n, i) in w.log;
    assert Granted(w.controls, i, IdAt(n));
    var m :| 0 <= m < |w.controls| && w.controls[m] == i && IdAt(m) == IdAt(n);
    SameIdIff(m, n);
    if |w.controls| <= Period() {
      WithinPeriod(m, n);
    }
  }

  /** A session that answered with a refusal never identifies itself, accepts no input
      and is acknowledged by no other answer. */
  lemma {:induction false} RefusedStaysRefused(events: seq<Event>, n: nat, status: Status)
    requires status != StatusOk && SentHelloOk(n, status) in Run(events).log
    ensures SentIdentity(n) !in Run(events).log && SentHelloOk(n, StatusOk) !in Run(events).log
    ensures forall input :: AttachAccepted(n, input) !in Run(events).log
  {
    RunSound(events);
    var log := Run(events).log;
    NotAcknowledged(log, n, status);
    IdentifiedAfterAcknowledging(log, n);
    forall input ensures AttachAccepted(n, input) !in log {
      AttachedAfterIdentifying(log, n, input);
    }
  }

  lemma NotAcknowledged(log: seq<HostAction>, n: nat, status: Status)
    requires AnsweredOnce(log) && status != StatusOk && SentHelloOk(n, status) in log
    ensures SentHelloOk(n, StatusOk) !in log
  {
    var k :| 0 <= k < |log| && log[k] == SentHelloOk(n, status);
    assert forall j :: 0 <= j < |log| && j != k && log[j].SentHelloOk? ==> log[j].session != n;
  }

  lemma IdentifiedAfterAcknowledging(log: seq<HostAction>, n: nat)
    requires LogOrdered(log)
    ensures SentIdentity(n) in log ==> SentHelloOk(n, StatusOk) in log
  {
    if SentIdentity(n) in log {
      var k :| 0 <= k < |log| && log[k] == SentIdentity(n);
      assert Preceded(log, k);
    }
  }

  lemma AttachedAfterIdentifying(log: seq<HostAction>, n: nat, input: nat)
    requires LogOrdered(log)
    ensures AttachAccepted(n, input) in log ==> SentIdentity(n) in log
  {
    if AttachAccepted(n, input) in log {
      var k :| 0 <= k < |log| && log[k] == AttachAccepted(n, input);
      assert Preceded(log, k);
    }
  }
}

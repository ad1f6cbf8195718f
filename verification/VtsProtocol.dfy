/** The VTube Studio client's state machine (cpp_impl/src/linkjiru/VTubeStudioClient.cpp) as
    a function of the operations that complete. Network replies, stored tokens and clock
    readings are parameters; operations complete in any order with any outcome. */
module VtsProtocol {
  import opened Basics

  const RECONNECT_BACKOFF_MS := 5000

  datatype Phase = Disconnected | Resolving | Connecting | Handshaking | Authenticating | Ready

  datatype Auth = StoredToken | TokenRequest | NewToken

  datatype Payload = Empty | AuthRequest(auth: Auth) | CreateParameter | Inject(value: real)

  /** A started operation; writes remember what they were given to send. */
  datatype Op =
    | Resolve
    | Connect
    | Handshake
    | AuthWrite(auth: Auth)
    | AuthRead(auth: Auth)
    | SteadyRead
    | Write(payload: Payload)

  datatype MessageType = ParameterCreationResponse | APIError | Other

  /** What the environment contributes to a successful completion. */
  datatype Info = Info(tokenStored: bool, parses: bool, hasToken: bool, authenticated: bool, messageType: MessageType)

  datatype Outcome = Failed | Success(info: Info)

  datatype Completion = Completion(op: Op, outcome: Outcome, at: int)

  datatype Registration = Registration(requested: bool, registering: bool, registered: bool, failed: bool)

  /** A value sent on, and how many had been set by then. */
  datatype Injection = Injection(value: real, count: nat)

  /** Attempts started since connect(), auth requests sent in the current attempt, whether
      Ready was lost and when the connection was last dropped since connect(); and all detection
      values ever set and sent. */
  datatype History = History(
    attempts: seq<int>, authSends: nat, lostReady: bool, dropped: Option<int>,
    values: seq<real>, injected: seq<Injection>)

  /** The fields of Impl, the operations pending on its io_context, the steady clock, and a
      history no branch depends on. */
  datatype Client = Client(
    phase: Phase,
    hasStream: bool,
    wantConnection: bool,
    nextAttempt: int,
    triedStoredToken: bool,
    reg: Registration,
    pendingValue: real,
    valueDirty: bool,
    writeInFlight: bool,
    writePayload: Payload,
    needsRecycle: bool,
    pending: set<Op>,
    clock: int,
    history: History)

  function Fresh(now: int): Client {
    Client(Disconnected, false, false, now, false, Registration(false, false, false, false), 0.0, false, false, Empty,
           false, {}, now, History([], 0, false, None, [], []))
  }

  /** A reading of the steady clock never goes back. */
  function Tick(c: Client, at: int): Client {
    if at > c.clock then c.(clock := at) else c
  }

  function Start(c: Client, op: Op): Client {
    c.(pending := c.pending + {op})
  }

  function BackOff(c: Client): Client {
    c.(nextAttempt := c.clock + RECONNECT_BACKOFF_MS, history := c.history.(dropped := Some(c.clock)))
  }

  /** What a drop clears, whatever phase it happens in. */
  function Drop(c: Client): Client {
    BackOff(c.(phase := Disconnected,
               reg := c.reg.(registering := false, registered := false),
               writeInFlight := false,
               needsRecycle := true))
  }

  function DropConnection(c: Client, afterReady: bool): Client {
    if c.phase.Disconnected? then c
    else if afterReady then Drop(c).(wantConnection := false, history := Drop(c).history.(lostReady := true))
    else Drop(c)
  }

  function StartConnect(c: Client): Client {
    Start(c.(hasStream := true, triedStoredToken := false, phase := Resolving,
             history := c.history.(attempts := c.history.attempts + [c.clock], authSends := 0)), Resolve)
  }

  /** sendRequestThenRead: its write, then on success the matching read. */
  function SendAuth(c: Client, auth: Auth): Client {
    Start(c.(writePayload := AuthRequest(auth),
             triedStoredToken := auth.StoredToken? || (c.triedStoredToken && auth.NewToken?),
             history := c.history.(authSends := c.history.authSends + 1)), AuthWrite(auth))
  }

  function OnAuthReply(c: Client, auth: Auth, info: Info): Client {
    if !info.parses then DropConnection(c, false)
    else if auth.TokenRequest? then
      if info.hasToken then SendAuth(c, NewToken) else DropConnection(c, false)
    else if info.authenticated then Start(c.(phase := Ready), SteadyRead)
    else if c.triedStoredToken then SendAuth(c, TokenRequest)
    else DropConnection(c, false)
  }

  /** What a steady-state message says about registration; anything else is drained. */
  function ReadMessage(reg: Registration, info: Info): Registration {
    if !info.parses then reg
    else if info.messageType.ParameterCreationResponse? then
      reg.(registered := true, registering := false, failed := false)
    else if reg.registering && info.messageType.APIError? then
      reg.(registering := false, failed := true)
    else reg
  }

  function ApplyMessage(c: Client, info: Info): Client {
    c.(reg := ReadMessage(c.reg, info))
  }

  function OnSteadyMessage(c: Client, info: Info): Client {
    var d := ApplyMessage(c, info);
    if d.phase.Ready? then Start(d, SteadyRead) else d
  }

  // The handlers, each entered once its own operation is no longer pending.

  function OnResolve(c: Client, ok: bool): Client {
    if ok then Start(c.(phase := Connecting), Connect) else DropConnection(c, false)
  }

  function OnConnected(c: Client, ok: bool): Client {
    if ok then Start(c.(phase := Handshaking), Handshake) else DropConnection(c, false)
  }

  function OnHandshake(c: Client, outcome: Outcome): Client {
    if outcome.Failed? then DropConnection(c, false)
    else SendAuth(c.(phase := Authenticating), if outcome.info.tokenStored then StoredToken else TokenRequest)
  }

  function OnAuthWritten(c: Client, auth: Auth, ok: bool): Client {
    if ok then Start(c, AuthRead(auth)) else DropConnection(c, false)
  }

  function OnAuthRead(c: Client, auth: Auth, outcome: Outcome): Client {
    if outcome.Failed? then DropConnection(c, false) else OnAuthReply(c, auth, outcome.info)
  }

  function OnSteadyRead(c: Client, outcome: Outcome): Client {
    if outcome.Failed? then DropConnection(c, true) else OnSteadyMessage(c, outcome.info)
  }

  function OnWritten(c: Client, ok: bool): Client {
    var d := c.(writeInFlight := false);
    if ok then d else DropConnection(d, true)
  }

  function Dequeue(c: Client, done: Completion): Client {
    Tick(c, done.at).(pending := c.pending - {done.op})
  }

  /** The handler of a completed operation. */
  function Handle(d: Client, done: Completion): Client {
    var ok := done.outcome.Success?;
    match done.op
    case Resolve => OnResolve(d, ok)
    case Connect => OnConnected(d, ok)
    case Handshake => OnHandshake(d, done.outcome)
    case AuthWrite(auth) => OnAuthWritten(d, auth, ok)
    case AuthRead(auth) => OnAuthRead(d, auth, done.outcome)
    case SteadyRead => OnSteadyRead(d, done.outcome)
    case Write(_) => OnWritten(d, ok)
  }

  function Complete(c: Client, done: Completion): Client
    requires done.op in c.pending
  {
    Handle(Dequeue(c, done), done)
  }

  function Send(c: Client, payload: Payload): Client {
    Start(c.(writePayload := payload, writeInFlight := true), Write(payload))
  }

  function Requested(c: Client): Client {
    c.(reg := c.reg.(requested := false, registering := true, failed := false))
  }

  /** The pending value is on its way. */
  function Injected(c: Client): Client {
    c.(valueDirty := false,
       history := c.history.(injected := c.history.injected + [Injection(c.pendingValue, |c.history.values|)]))
  }

  function StartWriteIfNeeded(c: Client): Client {
    if c.writeInFlight || !c.phase.Ready? then c
    else if c.reg.requested && !c.reg.registering then
      Send(Requested(c), CreateParameter)
    else if c.valueDirty then Send(Injected(c), Inject(c.pendingValue))
    else c
  }

  /** io_context::poll: run completions in the given order; one whose operation is not
      pending cannot happen and is skipped. */
  function Poll(c: Client, done: seq<Completion>): Client
    decreases |done|
  {
    if done == [] then c
    else Poll(if done[0].op in c.pending then Complete(c, done[0]) else c, done[1..])
  }

  /** Every straggler of a dropped connection completes with an error. */
  function AbortRest(c: Client): Client {
    c.(pending := {}, writeInFlight := c.writeInFlight && forall op | op in c.pending :: !op.Write?)
  }

  function Recycle(c: Client, drained: seq<Completion>): Client {
    AbortRest(Poll(c, drained)).(hasStream := false, needsRecycle := false)
  }

  function Begin(c: Client, now: int): Client {
    var d := Tick(c, now);
    var e := if d.wantConnection && d.phase.Disconnected? && !d.needsRecycle && d.clock >= d.nextAttempt
             then StartConnect(d) else d;
    if e.phase.Ready? then StartWriteIfNeeded(e) else e
  }

  function Pump(c: Client, now: int, polled: seq<Completion>, drained: seq<Completion>): Client {
    var d := Poll(Begin(c, now), polled);
    if d.needsRecycle then Recycle(d, drained) else d
  }

  // ---- The public calls between connect() and the final disconnect().

  datatype Call =
    | CallConnect(now: int)
    | CallRequestRegister
    | CallSetDetectValue(value: real)
    | CallPump(now: int, polled: seq<Completion>, drained: seq<Completion>)

  function WantConnection(c: Client): Client {
    c.(wantConnection := true, nextAttempt := c.clock,
       history := c.history.(attempts := [], lostReady := false, dropped := None))
  }

  function SetValue(c: Client, value: real): Client {
    c.(pendingValue := value, valueDirty := true, history := c.history.(values := c.history.values + [value]))
  }

  function Apply(c: Client, call: Call): Client {
    match call
    case CallConnect(now) =>
      WantConnection(Tick(c, now))
    case CallRequestRegister => c.(reg := c.reg.(failed := false, requested := true))
    case CallSetDetectValue(value) => SetValue(c, value)
    case CallPump(now, polled, drained) => Pump(c, now, polled, drained)
  }

  function RunCalls(c: Client, calls: seq<Call>): Client
    decreases |calls|
  {
    if calls == [] then c else RunCalls(Apply(c, calls[0]), calls[1..])
  }

  // ---- The pending-operation invariant.

  predicate IsAuthOp(op: Op) {
    op.AuthWrite? || op.AuthRead?
  }

  /** Which operations may be pending in which phase. */
  ghost predicate OpsInv(c: Client) {
    match c.phase
    case Disconnected =>
      && !c.writeInFlight
      && (c.needsRecycle <==> c.hasStream)
      && (!c.needsRecycle ==> c.pending == {})
      && forall op | op in c.pending :: op.SteadyRead? || op.Write?
    case Resolving => c.pending == {Resolve}
    case Connecting => c.pending == {Connect}
    case Handshaking => c.pending == {Handshake}
    case Authenticating => exists op: Op :: IsAuthOp(op) && c.pending == {op}
    case Ready =>
      && (c.pending == {SteadyRead} || c.pending == {SteadyRead, Write(c.writePayload)})
      && (c.writeInFlight <==> Write(c.writePayload) in c.pending)
  }

  ghost predicate Inv(c: Client) {
    && OpsInv(c)
    && (!c.phase.Disconnected? ==> c.hasStream && !c.needsRecycle)
    && (c.writeInFlight ==> c.phase.Ready?)
    && (c.reg.registering ==> c.phase.Ready?)
    && (forall op | op in c.pending && op.Write? :: op.payload == c.writePayload)
    && (forall op | op in c.pending && op.AuthWrite? :: c.writePayload == AuthRequest(op.auth))
    && PolicyInv(c)
  }

  /** How many auth requests the current exchange can have been preceded by. */
  ghost predicate AuthInv(c: Client) {
    && (c.phase in {Resolving, Connecting, Handshaking} ==> c.history.authSends == 0)
    && (forall op | op in c.pending ::
          && (op == AuthWrite(StoredToken) || op == AuthRead(StoredToken) ==>
                c.history.authSends == 1 && c.triedStoredToken)
          && (op == AuthWrite(TokenRequest) || op == AuthRead(TokenRequest) ==>
                c.history.authSends <= 2 && !c.triedStoredToken)
          && (op == AuthWrite(NewToken) || op == AuthRead(NewToken) ==>
                c.history.authSends <= 3 && !c.triedStoredToken))
    && c.history.authSends <= 3
  }

  ghost predicate Spaced(attempts: seq<int>) {
    forall i, j | 0 <= i && j == i + 1 < |attempts| :: attempts[j] >= attempts[i] + 5000
  }

  ghost predicate PolicyInv(c: Client) {
    && AuthInv(c)
    && Spaced(c.history.attempts)
    && (c.history.attempts != [] ==> c.clock >= c.history.attempts[|c.history.attempts| - 1])
    && (c.history.attempts != [] && c.phase.Disconnected? ==>
          c.nextAttempt >= c.history.attempts[|c.history.attempts| - 1] + RECONNECT_BACKOFF_MS)
    && (c.history.lostReady ==> c.phase.Disconnected? && !c.wantConnection)
  }

  predicate Fits(phase: Phase, op: Op) {
    match phase
    case Disconnected => false
    case Resolving => op.Resolve?
    case Connecting => op.Connect?
    case Handshaking => op.Handshake?
    case Authenticating => IsAuthOp(op)
    case Ready => op.SteadyRead?
  }

  /** A handler's entry state: Inv, but for the operation that just completed. */
  ghost predicate Entered(d: Client, op: Op) {
    && op !in d.pending && Inv(d.(pending := d.pending + {op}))
  }

  lemma TickKeepsInv(c: Client, at: int)
    requires Inv(c)
    ensures Inv(Tick(c, at))
  {
  }

  lemma DequeueEnters(c: Client, done: Completion)
    requires Inv(c) && done.op in c.pending
    ensures Entered(Dequeue(c, done), done.op)
  {
    TickKeepsInv(c, done.at);
    var d := Dequeue(c, done);
    assert c.pending - {done.op} + {done.op} == c.pending;
    assert d.(pending := d.pending + {done.op}) == Tick(c, done.at);
  }

  lemma DropKeepsInv(d: Client, op: Op)
    requires Entered(d, op) && !op.Write?
    ensures Inv(DropConnection(d, op.SteadyRead?))
  {
  }

  /** Before Ready exactly one operation is pending, so none is left when it completes. */
  lemma ChainEntry(d: Client, op: Op)
    requires Entered(d, op) && !op.SteadyRead? && !op.Write?
    ensures d.pending == {} && Fits(d.phase, op) && !d.phase.Ready?
  {
    assert op in d.pending + {op};
  }

  lemma ResolveKeepsInv(d: Client, ok: bool)
    requires Entered(d, Resolve)
    ensures Inv(OnResolve(d, ok))
  {
    ChainEntry(d, Resolve);
    if !ok {
      DropKeepsInv(d, Resolve);
    }
  }

  lemma ConnectedKeepsInv(d: Client, ok: bool)
    requires Entered(d, Connect)
    ensures Inv(OnConnected(d, ok))
  {
    ChainEntry(d, Connect);
    if !ok {
      DropKeepsInv(d, Connect);
    }
  }

  /** Authenticating with nothing pending: about to send, about to be Ready, or dropping. */
  ghost predicate Exchanging(d: Client) {
    && d.phase.Authenticating? && d.pending == {}
    && d.hasStream && !d.needsRecycle && !d.writeInFlight && !d.reg.registering && !d.history.lostReady
    && Spaced(d.history.attempts)
    && (d.history.attempts != [] ==> d.clock >= d.history.attempts[|d.history.attempts| - 1])
    && d.history.authSends <= 3
  }

  lemma SendAuthKeepsInv(d: Client, auth: Auth)
    requires Exchanging(d)
    requires match auth
             case StoredToken => d.history.authSends == 0
             case TokenRequest => d.history.authSends <= 1
             case NewToken => d.history.authSends <= 2 && !d.triedStoredToken
    ensures Inv(SendAuth(d, auth))
  {
    assert IsAuthOp(AuthWrite(auth)) && SendAuth(d, auth).pending == {AuthWrite(auth)};
  }

  lemma HandshakeKeepsInv(d: Client, outcome: Outcome)
    requires Entered(d, Handshake)
    ensures Inv(OnHandshake(d, outcome))
  {
    ChainEntry(d, Handshake);
    if outcome.Failed? {
      DropKeepsInv(d, Handshake);
    } else {
      SendAuthKeepsInv(d.(phase := Authenticating), if outcome.info.tokenStored then StoredToken else TokenRequest);
    }
  }

  lemma AuthEntry(d: Client, op: Op)
    requires Entered(d, op) && IsAuthOp(op)
    ensures Exchanging(d)
    ensures op.auth.StoredToken? ==> d.history.authSends == 1 && d.triedStoredToken
    ensures op.auth.TokenRequest? ==> d.history.authSends <= 2 && !d.triedStoredToken
    ensures op.auth.NewToken? ==> !d.triedStoredToken
  {
    ChainEntry(d, op);
    assert op in d.(pending := d.pending + {op}).pending;
  }

  lemma AuthWrittenKeepsInv(d: Client, auth: Auth, ok: bool)
    requires Entered(d, AuthWrite(auth))
    ensures Inv(OnAuthWritten(d, auth, ok))
  {
    AuthEntry(d, AuthWrite(auth));
    if ok {
      assert IsAuthOp(AuthRead(auth)) && OnAuthWritten(d, auth, ok).pending == {AuthRead(auth)};
    } else {
      DropKeepsInv(d, AuthWrite(auth));
    }
  }

  lemma AuthReadKeepsInv(d: Client, auth: Auth, outcome: Outcome)
    requires Entered(d, AuthRead(auth))
    ensures Inv(OnAuthRead(d, auth, outcome))
  {
    AuthEntry(d, AuthRead(auth));
    var e := OnAuthRead(d, auth, outcome);
    if e == DropConnection(d, false) {
      DropKeepsInv(d, AuthRead(auth));
    } else if auth.TokenRequest? {
      SendAuthKeepsInv(d, NewToken);
    } else if outcome.info.authenticated {
      assert e.pending == {SteadyRead};
    } else {
      SendAuthKeepsInv(d, TokenRequest);
    }
  }

  lemma SteadyEntry(d: Client, op: Op)
    requires Entered(d, op) && (op.SteadyRead? || op.Write?)
    ensures d.phase.Ready? || d.phase.Disconnected?
    ensures d.phase.Ready? && op.Write? ==> d.pending == {SteadyRead}
    ensures d.phase.Ready? && op.SteadyRead? && d.writeInFlight ==> d.pending == {Write(d.writePayload)}
    ensures d.phase.Ready? && op.SteadyRead? && !d.writeInFlight ==> d.pending == {}
  {
    assert op in d.(pending := d.pending + {op}).pending;
  }

  /** A straggler of a dropped connection leaves nothing to restart. */
  lemma StragglerKeepsInv(d: Client, op: Op)
    requires Entered(d, op) && d.phase.Disconnected?
    ensures Inv(d)
  {
    assert op in d.(pending := d.pending + {op}).pending;
  }

  lemma MessageKeepsInv(c: Client, info: Info)
    requires Inv(c)
    ensures Inv(ApplyMessage(c, info))
  {
  }

  lemma SteadyReadKeepsInv(d: Client, outcome: Outcome)
    requires Entered(d, SteadyRead)
    ensures Inv(OnSteadyRead(d, outcome))
  {
    if outcome.Failed? {
      DropKeepsInv(d, SteadyRead);
    } else {
      SteadyMessageKeepsInv(d, outcome.info);
    }
  }

  lemma RearmCommutes(d: Client, info: Info)
    requires d.phase.Ready?
    ensures OnSteadyMessage(d, info) == ApplyMessage(Start(d, SteadyRead), info)
  {
  }

  lemma SteadyMessageKeepsInv(d: Client, info: Info)
    requires Entered(d, SteadyRead)
    ensures Inv(OnSteadyMessage(d, info))
  {
    SteadyEntry(d, SteadyRead);
    if d.phase.Disconnected? {
      StragglerKeepsInv(d, SteadyRead);
      MessageKeepsInv(d, info);
    } else {
      MessageKeepsInv(Start(d, SteadyRead), info);
      RearmCommutes(d, info);
    }
  }

  lemma WriteDoneKeepsInv(d: Client, payload: Payload)
    requires Entered(d, Write(payload)) && d.phase.Ready?
    ensures Entered(d.(writeInFlight := false, pending := {}), SteadyRead)
  {
    SteadyEntry(d, Write(payload));
    assert {} + {SteadyRead} == {SteadyRead};
  }

  lemma WrittenKeepsInv(d: Client, payload: Payload, ok: bool)
    requires Entered(d, Write(payload))
    ensures Inv(OnWritten(d, ok))
  {
    SteadyEntry(d, Write(payload));
    if d.phase.Disconnected? {
      StragglerKeepsInv(d, Write(payload));
      assert OnWritten(d, ok) == d;
    } else {
      WriteDoneKeepsInv(d, payload);
      var quiet := d.(writeInFlight := false, pending := {SteadyRead});
      assert quiet == d.(writeInFlight := false);
      if !ok {
        ReadyDropKeepsInv(quiet);
      }
    }
  }

  lemma ReadyDropKeepsInv(c: Client)
    requires Inv(c) && c.phase.Ready?
    ensures Inv(DropConnection(c, true))
  {
  }

  lemma HandlerKeepsInv(d: Client, done: Completion)
    requires Entered(d, done.op)
    ensures Inv(Handle(d, done))
  {
    if done.op.SteadyRead? {
      SteadyReadKeepsInv(d, done.outcome);
    } else if done.op.Write? {
      WrittenKeepsInv(d, done.op.payload, done.outcome.Success?);
    } else if IsAuthOp(done.op) {
      AuthHandlerKeepsInv(d, done);
    } else {
      ChainHandlerKeepsInv(d, done);
    }
  }

  lemma AuthHandlerKeepsInv(d: Client, done: Completion)
    requires Entered(d, done.op) && IsAuthOp(done.op)
    ensures Inv(Handle(d, done))
  {
    if done.op.AuthWrite? {
      AuthWrittenKeepsInv(d, done.op.auth, done.outcome.Success?);
    } else {
      AuthReadKeepsInv(d, done.op.auth, done.outcome);
    }
  }

  lemma ChainHandlerKeepsInv(d: Client, done: Completion)
    requires Entered(d, done.op) && (done.op.Resolve? || done.op.Connect? || done.op.Handshake?)
    ensures Inv(Handle(d, done))
  {
    if done.op.Resolve? {
      ResolveKeepsInv(d, done.outcome.Success?);
    } else if done.op.Connect? {
      ConnectedKeepsInv(d, done.outcome.Success?);
    } else {
      HandshakeKeepsInv(d, done.outcome);
    }
  }

  lemma CompleteKeepsInv(c: Client, done: Completion)
    requires Inv(c) && done.op in c.pending
    ensures Inv(Complete(c, done))
  {
    DequeueEnters(c, done);
    HandlerKeepsInv(Dequeue(c, done), done);
  }

  lemma {:induction false} PollKeepsInv(c: Client, done: seq<Completion>)
    requires Inv(c)
    ensures Inv(Poll(c, done))
    ensures c.needsRecycle ==> Poll(c, done).needsRecycle
    decreases |done|
  {
    if done != [] {
      if done[0].op in c.pending {
        CompleteKeepsInv(c, done[0]);
        if c.needsRecycle {
          DroppedOps(c, done[0].op);
          RecycleStays(c, done[0]);
        }
        PollKeepsInv(Complete(c, done[0]), done[1..]);
      } else {
        PollKeepsInv(c, done[1..]);
      }
    }
  }

  lemma DroppedOps(c: Client, op: Op)
    requires Inv(c) && op in c.pending && c.needsRecycle
    ensures c.phase.Disconnected? && (op.SteadyRead? || op.Write?)
  {
  }

  /** A dropped connection waits for pump() to recycle it, whatever still completes. */
  lemma RecycleStays(c: Client, done: Completion)
    requires done.op in c.pending && c.phase.Disconnected? && (done.op.SteadyRead? || done.op.Write?)
    ensures Complete(c, done).phase.Disconnected? && Complete(c, done).needsRecycle == c.needsRecycle
  {
    var d := Dequeue(c, done);
    match done.op
    case SteadyRead => StragglerRead(d, done.outcome);
    case Write(_) => StragglerWrite(d, done.outcome.Success?);
  }

  lemma StragglerRead(d: Client, outcome: Outcome)
    requires d.phase.Disconnected?
    ensures OnSteadyRead(d, outcome).phase.Disconnected? && OnSteadyRead(d, outcome).needsRecycle == d.needsRecycle
  {
    if outcome.Success? {
      MessageKeepsPhase(d, outcome.info);
    }
  }

  lemma MessageKeepsPhase(c: Client, info: Info)
    ensures ApplyMessage(c, info).phase == c.phase && ApplyMessage(c, info).needsRecycle == c.needsRecycle
  {
  }

  lemma StragglerWrite(d: Client, ok: bool)
    requires d.phase.Disconnected?
    ensures OnWritten(d, ok).phase.Disconnected? && OnWritten(d, ok).needsRecycle == d.needsRecycle
  {
  }

  lemma StartConnectKeepsInv(c: Client)
    requires Inv(c) && c.wantConnection && c.phase.Disconnected? && !c.needsRecycle && c.clock >= c.nextAttempt
    ensures Inv(StartConnect(c))
  {
    assert StartConnect(c).pending == {Resolve};
    var was, now := c.history.attempts, StartConnect(c).history.attempts;
    assert forall i | 0 <= i < |was| :: now[i] == was[i];
  }

  lemma SendKeepsInv(c: Client, payload: Payload)
    requires Inv(c) && c.phase.Ready? && !c.writeInFlight
    ensures Inv(Send(c, payload))
  {
    assert c.pending == {SteadyRead} by {
      assert Write(c.writePayload) !in c.pending;
    }
    assert Send(c, payload).pending == {SteadyRead, Write(payload)};
  }

  lemma StartWriteKeepsInv(c: Client)
    requires Inv(c)
    ensures Inv(StartWriteIfNeeded(c))
  {
    if !c.writeInFlight && c.phase.Ready? {
      if c.reg.requested && !c.reg.registering {
        var d := Requested(c);
        RequestKeepsInv(c);
        SendKeepsInv(d, CreateParameter);
      } else if c.valueDirty {
        InjectedKeepsInv(c);
        SendKeepsInv(Injected(c), Inject(c.pendingValue));
      }
    }
  }

  lemma RequestKeepsInv(c: Client)
    requires Inv(c) && c.phase.Ready?
    ensures Inv(Requested(c))
  {
  }

  lemma InjectedKeepsInv(c: Client)
    requires Inv(c)
    ensures Inv(Injected(c))
  {
  }

  lemma ValueKeepsInv(c: Client, value: real)
    requires Inv(c)
    ensures Inv(SetValue(c, value))
  {
  }

  lemma BeginKeepsInv(c: Client, now: int)
    requires Inv(c)
    ensures Inv(Begin(c, now))
  {
    TickKeepsInv(c, now);
    var d := Tick(c, now);
    if d.wantConnection && d.phase.Disconnected? && !d.needsRecycle && d.clock >= d.nextAttempt {
      StartConnectKeepsInv(d);
    } else {
      StartWriteKeepsInv(d);
    }
  }

  // ---- Whole runs.

  /** Between calls: the invariant, and nothing left of a dropped connection. */
  ghost predicate Settled(c: Client) {
    Inv(c) && !c.needsRecycle
  }

  /** After pump() a disconnected client has no stream and nothing pending, so no stale
      completion can reach the next connection. */
  lemma SettledDisconnected(c: Client)
    requires Settled(c) && c.phase.Disconnected?
    ensures c.pending == {} && !c.hasStream
  {
  }

  /** A straggler completing with an error changes nothing but what is pending. */
  lemma AbortedStraggler(c: Client, op: Op)
    requires op in c.pending && c.phase.Disconnected? && !c.writeInFlight && (op.SteadyRead? || op.Write?)
    ensures Complete(c, Completion(op, Failed, c.clock)) == c.(pending := c.pending - {op})
  {
  }

  lemma AbortAllAtOnce(c: Client)
    requires Inv(c) && c.needsRecycle
    ensures AbortRest(c) == c.(pending := {})
  {
  }

  lemma RecycleSettles(c: Client, drained: seq<Completion>)
    requires Inv(c) && c.needsRecycle
    ensures Settled(Recycle(c, drained))
  {
    PollKeepsInv(c, drained);
  }

  lemma WantConnectionKeepsInv(c: Client)
    requires Inv(c)
    ensures Inv(WantConnection(c))
  {
  }

  lemma ApplySettles(c: Client, call: Call)
    requires Settled(c)
    ensures Settled(Apply(c, call))
  {
    match call
    case CallConnect(now) =>
      TickKeepsInv(c, now);
      WantConnectionKeepsInv(Tick(c, now));
    case CallRequestRegister =>
    case CallSetDetectValue(value) => ValueKeepsInv(c, value);
    case CallPump(now, polled, drained) =>
      BeginKeepsInv(c, now);
      PollKeepsInv(Begin(c, now), polled);
      var d := Poll(Begin(c, now), polled);
      if d.needsRecycle {
        RecycleSettles(d, drained);
      }
  }

  lemma FreshIsSettled(now: int)
    ensures Settled(Fresh(now))
    ensures Fresh(now).reg == Registration(false, false, false, false) && !Fresh(now).valueDirty
  {
  }

  /** Every run of public calls, with any network behaviour, keeps the invariant. */
  lemma {:induction false} RunSettles(c: Client, calls: seq<Call>)
    requires Settled(c)
    ensures Settled(RunCalls(c, calls))
    decreases |calls|
  {
    if calls != [] {
      ApplySettles(c, calls[0]);
      RunSettles(Apply(c, calls[0]), calls[1..]);
    }
  }

  /** What every run from start-up guarantees about attempts, auth traffic and status. */
  lemma ConnectionPolicy(now: int, calls: seq<Call>)
    ensures var c := RunCalls(Fresh(now), calls);
            && Spaced(c.history.attempts)
            && c.history.authSends <= 3
            && (c.reg.registering ==> c.phase.Ready?)
            && (c.writeInFlight <==> exists op :: op in c.pending && op.Write?)
            && (forall op | op in c.pending && op.Write? :: op.payload == c.writePayload)
            && (c.phase.Disconnected? ==> c.pending == {} && !c.hasStream)
  {
    FreshIsSettled(now);
    RunSettles(Fresh(now), calls);
    WriteIsPending(RunCalls(Fresh(now), calls));
  }

  lemma WriteIsPending(c: Client)
    requires Settled(c)
    ensures c.writeInFlight <==> exists op :: op in c.pending && op.Write?
  {
    if c.writeInFlight {
      assert Write(c.writePayload) in c.pending && Write(c.writePayload).Write?;
    }
  }

  /** Once Ready has been lost, nothing but connect() starts another attempt. */
  lemma {:induction false} LostStaysDown(c: Client, calls: seq<Call>)
    requires Settled(c) && c.history.lostReady
    requires forall call | call in calls :: !call.CallConnect?
    ensures RunCalls(c, calls).phase.Disconnected? && RunCalls(c, calls).history.attempts == c.history.attempts
    decreases |calls|
  {
    if calls != [] {
      LostCallStaysDown(c, calls[0]);
      LostStaysDown(Apply(c, calls[0]), calls[1..]);
    }
  }

  lemma LostCallStaysDown(c: Client, call: Call)
    requires Settled(c) && c.history.lostReady && !call.CallConnect?
    ensures var d := Apply(c, call);
            Settled(d) && d.history.lostReady && d.history.attempts == c.history.attempts
  {
    ApplySettles(c, call);
    if call.CallPump? {
      var d := Begin(c, call.now);
      assert d == Tick(c, call.now);
      NothingToPoll(d, call.polled);
    }
  }

  lemma {:induction false} NothingToPoll(c: Client, done: seq<Completion>)
    requires c.pending == {}
    ensures Poll(c, done) == c
    decreases |done|
  {
    if done != [] {
      NothingToPoll(c, done[1..]);
    }
  }

  /** Losing Ready is recorded exactly when it happens: a read or write fails while Ready. */
  lemma FailureLosesReady(c: Client, done: Completion)
    requires Inv(c) && done.op in c.pending
    ensures Complete(c, done).history.lostReady <==> c.history.lostReady || (c.phase.Ready? && done.outcome.Failed?)
    ensures c.phase.Ready? && done.outcome.Failed? ==> Complete(c, done).phase.Disconnected?
  {
    DequeueEnters(c, done);
    var d, op := Dequeue(c, done), done.op;
    if op.SteadyRead? || op.Write? {
      SteadyEntry(d, op);
      SteadyRecords(d, done);
      assert !d.phase.Disconnected? <==> c.phase.Ready?;
    } else {
      ChainEntry(d, op);
      ChainRecords(d, done);
    }
  }

  /** Where detection values stand: the one to send, whether it has still to go, all that were
      set and all that were sent. */
  datatype Outbox = Outbox(pending: real, dirty: bool, values: seq<real>, injected: seq<Injection>)

  function OutboxOf(c: Client): Outbox {
    Outbox(c.pendingValue, c.valueDirty, c.history.values, c.history.injected)
  }

  /** Nothing happened to detection values. */
  ghost predicate SameValues(d: Client, e: Client) {
    OutboxOf(e) == OutboxOf(d)
  }

  /** Nor is a loss of Ready or a new attempt recorded. */
  ghost predicate SameRecord(d: Client, e: Client) {
    SameValues(d, e) && e.history.lostReady == d.history.lostReady && e.history.attempts == d.history.attempts
  }

  lemma DropRecords(d: Client, afterReady: bool)
    ensures var e := DropConnection(d, afterReady);
            && SameValues(d, e) && e.history.attempts == d.history.attempts
            && e.history.lostReady == (d.history.lostReady || (afterReady && !d.phase.Disconnected?))
  {
  }

  lemma SendAuthRecords(d: Client, auth: Auth)
    ensures SameRecord(d, SendAuth(d, auth))
  {
  }

  lemma AuthReplyRecords(d: Client, auth: Auth, info: Info)
    ensures SameRecord(d, OnAuthReply(d, auth, info))
  {
    DropRecords(d, false);
    SendAuthRecords(d, NewToken);
    SendAuthRecords(d, TokenRequest);
  }

  lemma HandshakeRecords(d: Client, outcome: Outcome)
    ensures SameRecord(d, OnHandshake(d, outcome))
  {
    DropRecords(d, false);
    if outcome.Success? {
      SendAuthRecords(d.(phase := Authenticating), if outcome.info.tokenStored then StoredToken else TokenRequest);
    }
  }

  lemma AuthReadRecords(d: Client, auth: Auth, outcome: Outcome)
    ensures SameRecord(d, OnAuthRead(d, auth, outcome))
  {
    DropRecords(d, false);
    if outcome.Success? {
      AuthReplyRecords(d, auth, outcome.info);
    }
  }

  lemma ChainRecords(d: Client, done: Completion)
    requires !done.op.SteadyRead? && !done.op.Write?
    ensures SameRecord(d, Handle(d, done))
  {
    if done.op.Handshake? {
      HandshakeRecords(d, done.outcome);
    } else if done.op.AuthRead? {
      AuthReadRecords(d, done.op.auth, done.outcome);
    } else if done.outcome.Failed? {
      DropRecords(d, false);
      assert Handle(d, done) == DropConnection(d, false);
    } else {
      assert Handle(d, done).history == d.history && SameValues(d, Handle(d, done));
    }
  }

  lemma SteadyRecords(d: Client, done: Completion)
    ensures SameValues(d, OnSteadyRead(d, done.outcome)) && SameValues(d, OnWritten(d, done.outcome.Success?))
    ensures OnSteadyRead(d, done.outcome).history.attempts == d.history.attempts
    ensures OnSteadyRead(d, done.outcome).history.lostReady ==
            (d.history.lostReady || (done.outcome.Failed? && !d.phase.Disconnected?))
    ensures OnWritten(d, done.outcome.Success?).history.attempts == d.history.attempts
    ensures OnWritten(d, done.outcome.Success?).history.lostReady ==
            (d.history.lostReady || (done.outcome.Failed? && !d.phase.Disconnected?))
  {
    DropRecords(d, true);
    DropRecords(d.(writeInFlight := false), true);
    if done.outcome.Success? {
      assert OnSteadyMessage(d, done.outcome.info).history == d.history;
      assert SameValues(d, OnSteadyMessage(d, done.outcome.info));
    }
  }

  // ---- When an attempt starts.

  ghost predicate Asked(calls: seq<Call>) {
    exists call :: call in calls && call.CallConnect?
  }

  /** The last drop since connect(), if there was one, is at least the back-off ago. */
  predicate BackoffOver(c: Client, now: int) {
    c.history.dropped.Some? ==> now >= c.history.dropped.value + 5000
  }

  /** A connection is wanted exactly from connect() to the loss of Ready, and the next
      attempt is due at once or a back-off after the last drop. */
  ghost predicate Wants(c: Client, asked: bool) {
    && (c.wantConnection <==> asked && !c.history.lostReady)
    && (!c.phase.Disconnected? ==> c.wantConnection)
    && (asked ==> match c.history.dropped
                  case None => c.nextAttempt <= c.clock
                  case Some(at) => c.nextAttempt == at + RECONNECT_BACKOFF_MS)
  }

  lemma DropKeepsWants(d: Client, afterReady: bool, asked: bool)
    requires Wants(d, asked)
    ensures Wants(DropConnection(d, afterReady), asked)
  {
  }

  lemma SendAuthKeepsWants(d: Client, auth: Auth, asked: bool)
    requires Wants(d, asked) && !d.phase.Disconnected?
    ensures Wants(SendAuth(d, auth), asked)
  {
  }

  lemma AuthReadKeepsWants(d: Client, auth: Auth, outcome: Outcome, asked: bool)
    requires Wants(d, asked) && !d.phase.Disconnected?
    ensures Wants(OnAuthRead(d, auth, outcome), asked)
  {
    var e := OnAuthRead(d, auth, outcome);
    if e == DropConnection(d, false) {
      DropKeepsWants(d, false, asked);
    } else if auth.TokenRequest? {
      SendAuthKeepsWants(d, NewToken, asked);
    } else if !outcome.info.authenticated {
      SendAuthKeepsWants(d, TokenRequest, asked);
    }
  }

  lemma HandshakeKeepsWants(d: Client, outcome: Outcome, asked: bool)
    requires Wants(d, asked) && !d.phase.Disconnected?
    ensures Wants(OnHandshake(d, outcome), asked)
  {
    if outcome.Failed? {
      DropKeepsWants(d, false, asked);
    } else {
      var auth := if outcome.info.tokenStored then StoredToken else TokenRequest;
      SendAuthKeepsWants(d.(phase := Authenticating), auth, asked);
    }
  }

  lemma ChainKeepsWants(d: Client, done: Completion, asked: bool)
    requires Wants(d, asked) && !d.phase.Disconnected? && !done.op.SteadyRead? && !done.op.Write?
    ensures Wants(Handle(d, done), asked)
  {
    match done.op
    case Handshake => HandshakeKeepsWants(d, done.outcome, asked);
    case AuthRead(auth) => AuthReadKeepsWants(d, auth, done.outcome, asked);
    case _ => DropKeepsWants(d, false, asked);
  }

  lemma ReadKeepsWants(d: Client, outcome: Outcome, asked: bool)
    requires Wants(d, asked)
    ensures Wants(OnSteadyRead(d, outcome), asked)
  {
    if outcome.Failed? {
      DropKeepsWants(d, true, asked);
    } else {
      assert Wants(ApplyMessage(d, outcome.info), asked);
    }
  }

  lemma WrittenKeepsWants(d: Client, ok: bool, asked: bool)
    requires Wants(d, asked)
    ensures Wants(OnWritten(d, ok), asked)
  {
    DropKeepsWants(d.(writeInFlight := false), true, asked);
  }

  lemma CompleteKeepsWants(c: Client, done: Completion, asked: bool)
    requires Inv(c) && done.op in c.pending && Wants(c, asked)
    ensures Wants(Complete(c, done), asked)
  {
    DequeueEnters(c, done);
    var d := Dequeue(c, done);
    assert Wants(d, asked);
    if done.op.SteadyRead? {
      ReadKeepsWants(d, done.outcome, asked);
    } else if done.op.Write? {
      WrittenKeepsWants(d, done.outcome.Success?, asked);
    } else {
      ChainEntry(d, done.op);
      ChainKeepsWants(d, done, asked);
    }
  }

  /** No completion starts an attempt or touches a detection value. */
  lemma CompleteKeepsAttempts(c: Client, done: Completion)
    requires done.op in c.pending
    ensures Complete(c, done).history.attempts == c.history.attempts && SameValues(c, Complete(c, done))
  {
    var d := Dequeue(c, done);
    if done.op.SteadyRead? || done.op.Write? {
      SteadyRecords(d, done);
    } else {
      ChainRecords(d, done);
    }
  }

  lemma {:induction false} PollKeepsWants(c: Client, done: seq<Completion>, asked: bool)
    requires Inv(c) && Wants(c, asked)
    ensures Wants(Poll(c, done), asked) && Poll(c, done).history.attempts == c.history.attempts
    decreases |done|
  {
    if done != [] {
      if done[0].op in c.pending {
        CompleteKeepsInv(c, done[0]);
        CompleteKeepsWants(c, done[0], asked);
        CompleteKeepsAttempts(c, done[0]);
        PollKeepsWants(Complete(c, done[0]), done[1..], asked);
      } else {
        PollKeepsWants(c, done[1..], asked);
      }
    }
  }

  lemma BeginKeepsWants(c: Client, now: int, asked: bool)
    requires Wants(c, asked)
    ensures Wants(Begin(c, now), asked)
  {
    assert Wants(Tick(c, now), asked);
  }

  lemma PumpKeepsWants(c: Client, now: int, polled: seq<Completion>, drained: seq<Completion>, asked: bool)
    requires Settled(c) && Wants(c, asked)
    ensures Wants(Pump(c, now, polled, drained), asked)
    ensures Pump(c, now, polled, drained).history.attempts == Begin(c, now).history.attempts
  {
    BeginKeepsInv(c, now);
    BeginKeepsWants(c, now, asked);
    var b := Begin(c, now);
    PollKeepsInv(b, polled);
    PollKeepsWants(b, polled, asked);
    PollKeepsWants(Poll(b, polled), drained, asked);
  }

  lemma ApplyKeepsWants(c: Client, call: Call, asked: bool)
    requires Settled(c) && Wants(c, asked)
    ensures Wants(Apply(c, call), asked || call.CallConnect?)
  {
    if call.CallPump? {
      PumpKeepsWants(c, call.now, call.polled, call.drained, asked);
    }
  }

  lemma {:induction false} RunKeepsWants(c: Client, calls: seq<Call>, asked: bool)
    requires Settled(c) && Wants(c, asked)
    ensures Wants(RunCalls(c, calls), asked || Asked(calls))
    decreases |calls|
  {
    if calls != [] {
      ApplySettles(c, calls[0]);
      ApplyKeepsWants(c, calls[0], asked);
      RunKeepsWants(Apply(c, calls[0]), calls[1..], asked || calls[0].CallConnect?);
      assert Asked(calls) <==> calls[0].CallConnect? || Asked(calls[1..]);
    }
  }

  /** After any run from start-up, pumping a disconnected client starts an attempt (just one)
      if and only if connect() was called, Ready has not been lost since, and no drop since
      lies less than the back-off in the past. */
  lemma AttemptStartsExactly(start: int, calls: seq<Call>, now: int, polled: seq<Completion>, drained: seq<Completion>)
    requires RunCalls(Fresh(start), calls).phase.Disconnected?
    ensures var c := RunCalls(Fresh(start), calls);
            var clock := Tick(c, now).clock;
            Pump(c, now, polled, drained).history.attempts ==
            if Asked(calls) && !c.history.lostReady && BackoffOver(c, clock) then c.history.attempts + [clock]
            else c.history.attempts
  {
    var c := RunCalls(Fresh(start), calls);
    FreshIsSettled(start);
    RunSettles(Fresh(start), calls);
    RunKeepsWants(Fresh(start), calls, false);
    PumpKeepsWants(c, now, polled, drained, Asked(calls));
  }

  /** A drop before Ready leaves the connection wanted: the next attempt is one back-off away. */
  lemma DropBeforeReadyIsRetried(c: Client, done: Completion, asked: bool)
    requires Inv(c) && Wants(c, asked) && done.op in c.pending && done.outcome.Failed?
    requires !c.phase.Ready? && !c.phase.Disconnected?
    ensures var d := Complete(c, done);
            && d.phase.Disconnected? && d.wantConnection && !d.history.lostReady
            && d.history.dropped == Some(d.clock) && d.nextAttempt == d.clock + RECONNECT_BACKOFF_MS
  {
    DequeueEnters(c, done);
    if done.op.SteadyRead? || done.op.Write? {
      SteadyEntry(Dequeue(c, done), done.op);
    }
  }

  // ---- Detection values.

  /** The arguments of setDetectValue(), in order. */
  function ValuesSet(calls: seq<Call>): seq<real> {
    if calls == [] then []
    else if calls[0].CallSetDetectValue? then [calls[0].value] + ValuesSet(calls[1..])
    else ValuesSet(calls[1..])
  }

  /** What is sent is what was set: each injection is the value set last before it, none is
      repeated, and the client is clean only once the last value has been sent. */
  ghost predicate OutboxInv(o: Outbox) {
    && (o.values != [] ==> o.pending == o.values[|o.values| - 1])
    && (o.values == [] ==> !o.dirty && o.injected == [])
    && (forall i | 0 <= i < |o.injected| ::
          1 <= o.injected[i].count <= |o.values| && o.injected[i].value == o.values[o.injected[i].count - 1])
    && (forall i, j | 0 <= i < j < |o.injected| :: o.injected[i].count < o.injected[j].count)
    && (o.values != [] ==> (o.dirty <==> o.injected == [] || o.injected[|o.injected| - 1].count < |o.values|))
  }

  /** The pending value leaves, once. */
  function Emptied(o: Outbox): Outbox {
    o.(dirty := false, injected := o.injected + [Injection(o.pending, |o.values|)])
  }

  /** A newer value replaces it. */
  function Filled(o: Outbox, value: real): Outbox {
    o.(pending := value, dirty := true, values := o.values + [value])
  }

  lemma EmptiedKeepsInv(o: Outbox)
    requires OutboxInv(o) && o.dirty
    ensures OutboxInv(Emptied(o))
  {
  }

  lemma FilledKeepsInv(o: Outbox, value: real)
    requires OutboxInv(o)
    ensures OutboxInv(Filled(o, value))
  {
  }

  lemma {:induction false} PollKeepsValues(c: Client, done: seq<Completion>)
    ensures SameValues(c, Poll(c, done))
    decreases |done|
  {
    if done != [] {
      if done[0].op in c.pending {
        CompleteKeepsAttempts(c, done[0]);
        PollKeepsValues(Complete(c, done[0]), done[1..]);
      } else {
        PollKeepsValues(c, done[1..]);
      }
    }
  }

  lemma StartWriteEmpties(c: Client)
    ensures OutboxOf(StartWriteIfNeeded(c)) ==
            if c.phase.Ready? && !c.writeInFlight && !(c.reg.requested && !c.reg.registering) && c.valueDirty
            then Emptied(OutboxOf(c)) else OutboxOf(c)
  {
  }

  lemma BeginEmpties(c: Client, now: int)
    ensures OutboxOf(Begin(c, now)) == OutboxOf(c)
            || (c.valueDirty && OutboxOf(Begin(c, now)) == Emptied(OutboxOf(c)))
  {
    var d := Tick(c, now);
    assert SameValues(c, d) && SameValues(d, StartConnect(d));
    StartWriteEmpties(d);
  }

  lemma PumpEmpties(c: Client, now: int, polled: seq<Completion>, drained: seq<Completion>)
    ensures var d := Pump(c, now, polled, drained);
            OutboxOf(d) == OutboxOf(c) || (c.valueDirty && OutboxOf(d) == Emptied(OutboxOf(c)))
  {
    var b := Begin(c, now);
    BeginEmpties(c, now);
    PollKeepsValues(b, polled);
    PollKeepsValues(Poll(b, polled), drained);
  }

  lemma ApplyMovesValues(c: Client, call: Call)
    ensures var o, p := OutboxOf(c), OutboxOf(Apply(c, call));
            if call.CallSetDetectValue? then p == Filled(o, call.value)
            else p == o || (o.dirty && p == Emptied(o))
  {
    if call.CallPump? {
      PumpEmpties(c, call.now, call.polled, call.drained);
    }
  }

  lemma OutboxKeepsInv(o: Outbox, p: Outbox, call: Call)
    requires OutboxInv(o)
    requires if call.CallSetDetectValue? then p == Filled(o, call.value) else p == o || (o.dirty && p == Emptied(o))
    ensures OutboxInv(p) && p.values == if call.CallSetDetectValue? then o.values + [call.value] else o.values
  {
    if call.CallSetDetectValue? {
      FilledKeepsInv(o, call.value);
    } else if o.dirty {
      EmptiedKeepsInv(o);
    }
  }

  lemma {:induction false} RunKeepsValues(c: Client, calls: seq<Call>, o: Outbox) returns (p: Outbox)
    requires OutboxInv(o) && o == OutboxOf(c)
    ensures OutboxInv(p) && p == OutboxOf(RunCalls(c, calls)) && p.values == o.values + ValuesSet(calls)
    decreases |calls|
  {
    if calls == [] {
      p := o;
    } else {
      var q := OutboxOf(Apply(c, calls[0]));
      ApplyMovesValues(c, calls[0]);
      OutboxKeepsInv(o, q, calls[0]);
      p := RunKeepsValues(Apply(c, calls[0]), calls[1..], q);
      if calls[0].CallSetDetectValue? {
        Regroup(o.values, [calls[0].value], ValuesSet(calls[1..]));
      }
    }
  }

  lemma Regroup(a: seq<real>, b: seq<real>, c: seq<real>)
    ensures (a + b) + c == a + (b + c)
  {
  }

  /** Over every run from start-up: every value sent is the latest one set before it, no value
      set is sent twice, they leave in the order they were set; and the client has nothing left
      to send exactly when the last value set has been sent. */
  lemma InjectedValuesAreLatest(start: int, calls: seq<Call>)
    ensures var o := OutboxOf(RunCalls(Fresh(start), calls));
            OutboxInv(o) && o.values == ValuesSet(calls)
  {
    var o := RunKeepsValues(Fresh(start), calls, OutboxOf(Fresh(start)));
  }

  /** What a pump of an idle Ready client starts: a registration that is due, else the value that
      is waiting, else nothing; and nothing at all while a write is in flight or before Ready. */
  lemma PumpStartsWrite(c: Client, now: int)
    requires Inv(c)
    ensures var d := Begin(c, now);
            if !c.phase.Ready? || c.writeInFlight then
              d.history.injected == c.history.injected && d.valueDirty == c.valueDirty && d.reg == c.reg
            else if c.reg.requested && !c.reg.registering then
              && d.pending == c.pending + {Write(CreateParameter)}
              && d.reg == Registration(false, true, c.reg.registered, false)
              && d.valueDirty == c.valueDirty && d.history.injected == c.history.injected
            else if c.valueDirty then
              && d.pending == c.pending + {Write(Inject(c.pendingValue))} && !d.valueDirty && d.reg == c.reg
              && d.history.injected == c.history.injected + [Injection(c.pendingValue, |c.history.values|)]
            else d.pending == c.pending && d.history.injected == c.history.injected && !d.writeInFlight
    ensures var d := Begin(c, now);
            d.phase.Ready? && !d.writeInFlight ==> !d.valueDirty && !(d.reg.requested && !d.reg.registering)
  {
    var d := Tick(c, now);
    if c.phase.Ready? {
      assert Begin(c, now) == StartWriteIfNeeded(d);
    }
  }

  /** So a value that was set leaves with the next pump of an idle Ready client, unless a
      registration goes first. */
  lemma WaitingValueLeaves(start: int, calls: seq<Call>, now: int)
    requires var c := RunCalls(Fresh(start), calls);
             c.phase.Ready? && !c.writeInFlight && c.valueDirty && (c.reg.requested ==> c.reg.registering)
    ensures var c, values := RunCalls(Fresh(start), calls), ValuesSet(calls);
            values != [] && Begin(c, now).pending == c.pending + {Write(Inject(values[|values| - 1]))}
  {
    FreshIsSettled(start);
    RunSettles(Fresh(start), calls);
    InjectedValuesAreLatest(start, calls);
    PumpStartsWrite(RunCalls(Fresh(start), calls), now);
  }

  /** What a message does in Ready: the next read is armed, and a registration under way is over
      once the parameter is created or an error comes back; an error at any other time, and
      anything else, changes nothing. */
  lemma AnswerSettlesRegistration(c: Client, info: Info, at: int)
    requires Inv(c) && c.phase.Ready?
    ensures SteadyRead in c.pending
    ensures var d := Complete(c, Completion(SteadyRead, Success(info), at));
            && d.phase.Ready? && d.pending == c.pending
            && d.writeInFlight == c.writeInFlight && d.valueDirty == c.valueDirty
            && d.reg == if info.parses && info.messageType == ParameterCreationResponse
                        then Registration(c.reg.requested, false, true, false)
                        else if info.parses && info.messageType == APIError && c.reg.registering
                        then Registration(c.reg.requested, false, c.reg.registered, true)
                        else c.reg
  {
    assert c.pending - {SteadyRead} + {SteadyRead} == c.pending;
  }

  /** A registration asked for in Ready clears the last failure and is sent with the next pump,
      and the answer decides it: registered after a creation, failed after an error, and under
      way no longer. */
  lemma RegistrationRoundTrip(c: Client, info: Info, now: int, at: int)
    requires Inv(c) && c.phase.Ready? && !c.writeInFlight && !c.reg.registering
    requires info.parses && !info.messageType.Other?
    ensures var r := Apply(c, CallRequestRegister);
            && r.reg == Registration(true, false, c.reg.registered, false)
            && var b := Begin(r, now);
            && Write(CreateParameter) in b.pending && SteadyRead in b.pending
            && var d := Complete(b, Completion(SteadyRead, Success(info), at));
               if info.messageType.APIError?
               then d.reg == Registration(false, false, c.reg.registered, true)
               else d.reg == Registration(false, false, true, false)
  {
    var r := Apply(c, CallRequestRegister);
    PumpStartsWrite(r, now);
    BeginKeepsInv(r, now);
    BeginStaysReady(r, now);
    AnswerSettlesRegistration(Begin(r, now), info, at);
  }

  /** A message read after a drop is the last: no read is armed on the old connection. */
  lemma StaleMessageIsLast(c: Client, info: Info, at: int)
    requires Inv(c) && c.phase.Disconnected? && SteadyRead in c.pending
    ensures var d := Complete(c, Completion(SteadyRead, Success(info), at));
            d.pending == c.pending - {SteadyRead} && d.phase.Disconnected?
  {
  }

  lemma BeginStaysReady(c: Client, now: int)
    requires c.phase.Ready?
    ensures Begin(c, now).phase.Ready?
  {
    var d := Tick(c, now);
    assert Begin(c, now) == StartWriteIfNeeded(d);
  }

  // ---- What an operation that outlives its connection would do.

  /** A recycle whose drain ends before every cancelled operation has completed. */
  function RecycleEarly(c: Client, drained: seq<Completion>): Client {
    Poll(c, drained).(hasStream := false, needsRecycle := false)
  }

  /** A cancelled read or write of an earlier connection is harmless exactly while
      disconnected; in any later phase it takes the new attempt down for good. */
  lemma LateStraggler(c: Client, op: Op, at: int)
    requires op in c.pending && (op.SteadyRead? || op.Write?) && !c.writeInFlight && at <= c.clock
    ensures var d := Complete(c, Completion(op, Failed, at));
            if c.phase.Disconnected? then d == c.(pending := c.pending - {op})
            else d.phase.Disconnected? && d.needsRecycle && !d.wantConnection && d.history.lostReady
                 && d.pending == c.pending - {op}
  {
  }

  /** It takes one: a write fails while a read is pending, the drain misses the cancelled
      read, connect() is called again, and the read ends the attempt that follows. */
  lemma MissedStraggler(c: Client, payload: Payload, at: int)
    requires Inv(c) && c.phase.Ready? && Write(payload) in c.pending && at >= c.clock
    ensures var d := RecycleEarly(Complete(c, Completion(Write(payload), Failed, at)), []);
            var e := Begin(WantConnection(d), at);
            && d.phase.Disconnected? && d.pending == {SteadyRead}
            && e.phase.Resolving? && e.pending == {SteadyRead, Resolve}
            && var f := Complete(e, Completion(SteadyRead, Failed, at));
               f.phase.Disconnected? && !f.wantConnection && f.pending == {Resolve}
  {
    var w := Completion(Write(payload), Failed, at);
    var q := Dequeue(c, w);
    DequeueEnters(c, w);
    SteadyEntry(q, w.op);
    var d := RecycleEarly(Complete(c, w), []);
    assert d.pending == {SteadyRead};
    var e := Begin(WantConnection(d), at);
    assert e == StartConnect(WantConnection(d)) && e.pending == {SteadyRead, Resolve};
    LateStraggler(e, SteadyRead, at);
    assert e.pending - {SteadyRead} == {Resolve};
  }

  // ---- isRegistered() can outlive the connection.

  /** The one completion that breaks "registered implies connected": a creation response
      already queued when something else dropped the connection. */
  predicate IsStaleCreation(c: Client, done: Completion) {
    && c.phase.Disconnected? && done.op.SteadyRead? && done.outcome.Success?
    && done.outcome.info.parses && done.outcome.info.messageType.ParameterCreationResponse?
  }

  lemma RegisteredMeansReadyExactly(c: Client, done: Completion)
    requires Inv(c) && done.op in c.pending
    requires c.reg.registered ==> c.phase.Ready?
    ensures (Complete(c, done).reg.registered ==> Complete(c, done).phase.Ready?) <==> !IsStaleCreation(c, done)
  {
    DequeueEnters(c, done);
    var d, op := Dequeue(c, done), done.op;
    if op.SteadyRead? {
      SteadyEntry(d, op);
      SteadyRegisters(d, done.outcome);
    } else if op.Write? {
      SteadyEntry(d, op);
      WriteRegisters(d, done.outcome.Success?);
    } else {
      ChainEntry(d, op);
      ChainRegisters(d, done);
    }
  }

  lemma SteadyRegisters(d: Client, outcome: Outcome)
    requires d.reg.registered ==> d.phase.Ready?
    requires d.phase.Ready? || d.phase.Disconnected?
    ensures (OnSteadyRead(d, outcome).reg.registered ==> OnSteadyRead(d, outcome).phase.Ready?) <==>
            !(d.phase.Disconnected? && outcome.Success?
              && outcome.info.parses && outcome.info.messageType.ParameterCreationResponse?)
  {
    if outcome.Success? {
      MessageKeepsPhase(d, outcome.info);
    }
  }

  lemma WriteRegisters(d: Client, ok: bool)
    requires d.reg.registered ==> d.phase.Ready?
    ensures OnWritten(d, ok).reg.registered ==> OnWritten(d, ok).phase.Ready?
  {
  }

  /** Nothing before Ready touches the flag. */
  lemma ChainRegisters(d: Client, done: Completion)
    requires !d.reg.registered && !done.op.SteadyRead? && !done.op.Write?
    ensures !Handle(d, done).reg.registered
  {
    match done.op
    case AuthRead(auth) => AuthReadRegisters(d, auth, done.outcome);
    case _ =>
  }

  lemma AuthReadRegisters(d: Client, auth: Auth, outcome: Outcome)
    requires !d.reg.registered
    ensures !OnAuthRead(d, auth, outcome).reg.registered
  {
  }

  /** How it happens: a write fails while a creation response is already in. */
  lemma StaleRegistration(c: Client, payload: Payload, created: Info, at: int)
    requires Inv(c) && c.phase.Ready? && Write(payload) in c.pending
    requires created.parses && created.messageType.ParameterCreationResponse?
    ensures var done := [Completion(Write(payload), Failed, at), Completion(SteadyRead, Success(created), at)];
            var polled := Poll(c, done);
            var d := Recycle(polled, []);
            && polled.needsRecycle && Settled(d) && d.phase.Disconnected? && d.reg.registered
  {
    var w, r := Completion(Write(payload), Failed, at), Completion(SteadyRead, Success(created), at);
    var d1 := Complete(c, w);
    CompleteKeepsInv(c, w);
    WriteFailure(c, payload, at);
    var d2 := Complete(d1, r);
    CompleteKeepsInv(d1, r);
    LateCreation(d1, created, at);
    assert [w, r][1..] == [r] && [r][1..] == [];
    assert Poll(c, [w, r]) == Poll(d1, [r]) == Poll(d2, []) == d2;
    RecycleSettles(d2, []);
  }

  lemma WriteFailure(c: Client, payload: Payload, at: int)
    requires Inv(c) && c.phase.Ready? && Write(payload) in c.pending
    ensures var d := Complete(c, Completion(Write(payload), Failed, at));
            d.phase.Disconnected? && d.needsRecycle && SteadyRead in d.pending
  {
  }

  lemma LateCreation(d: Client, created: Info, at: int)
    requires d.phase.Disconnected? && SteadyRead in d.pending
    requires created.parses && created.messageType.ParameterCreationResponse?
    ensures var e := Complete(d, Completion(SteadyRead, Success(created), at));
            e.phase.Disconnected? && e.reg.registered && e.needsRecycle == d.needsRecycle
  {
    var q := Dequeue(d, Completion(SteadyRead, Success(created), at));
    MessageKeepsPhase(q, created);
    assert ApplyMessage(q, created).reg.registered;
  }

  // ---- That state is reached from start-up.

  function Fine(): Outcome {
    Success(Info(true, true, true, true, Other))
  }

  /** A first pump in which the whole chain completes with a stored token. */
  function ChainCompletes(): seq<Completion> {
    [Completion(Resolve, Fine(), 0), Completion(Connect, Fine(), 0), Completion(Handshake, Fine(), 0),
     Completion(AuthWrite(StoredToken), Fine(), 0), Completion(AuthRead(StoredToken), Fine(), 0)]
  }

  lemma PollStep(c: Client, done: seq<Completion>)
    requires done != [] && done[0].op in c.pending
    ensures Poll(c, done) == Poll(Complete(c, done[0]), done[1..])
  {
  }

  /** Same client but for the phase, the pending operation and the auth bookkeeping. */
  ghost predicate Moved(c: Client, d: Client, phase: Phase, op: Op) {
    && d.phase == phase && d.pending == {op}
    && d.reg == c.reg && d.writeInFlight == c.writeInFlight && d.needsRecycle == c.needsRecycle
    && d.valueDirty == c.valueDirty && d.clock == c.clock
  }

  lemma Resolves(c: Client)
    requires c.pending == {Resolve} && c.clock >= 0
    ensures Moved(c, Complete(c, Completion(Resolve, Fine(), 0)), Connecting, Connect)
  {
    assert c.pending - {Resolve} == {};
  }

  lemma Connects(c: Client)
    requires c.pending == {Connect} && c.clock >= 0
    ensures Moved(c, Complete(c, Completion(Connect, Fine(), 0)), Handshaking, Handshake)
  {
    assert c.pending - {Connect} == {};
  }

  /** A reply that parses: is a token stored, does it carry one, is it accepted? */
  function Reply(tokenStored: bool, hasToken: bool, authenticated: bool): Outcome {
    Success(Info(tokenStored, true, hasToken, authenticated, Other))
  }

  /** The handshake is followed by the stored token, or by asking for one. */
  lemma ShakesHands(c: Client, tokenStored: bool)
    requires c.pending == {Handshake} && c.clock >= 0
    ensures var d := Complete(c, Completion(Handshake, Reply(tokenStored, true, true), 0));
            && Moved(c, d, Authenticating, AuthWrite(if tokenStored then StoredToken else TokenRequest))
            && d.triedStoredToken == tokenStored
  {
    assert c.pending - {Handshake} == {};
  }

  lemma SendsAuth(c: Client, auth: Auth)
    requires c.pending == {AuthWrite(auth)} && c.clock >= 0
    ensures var d := Complete(c, Completion(AuthWrite(auth), Fine(), 0));
            Moved(c, d, c.phase, AuthRead(auth)) && d.triedStoredToken == c.triedStoredToken
  {
    assert c.pending - {AuthWrite(auth)} == {};
  }

  /** An accepted token, stored or new, makes the client Ready. */
  lemma IsAuthenticated(c: Client, auth: Auth)
    requires c.pending == {AuthRead(auth)} && !auth.TokenRequest? && c.clock >= 0
    ensures Moved(c, Complete(c, Completion(AuthRead(auth), Fine(), 0)), Ready, SteadyRead)
  {
    assert c.pending - {AuthRead(auth)} == {};
  }

  /** A granted token is used; */
  lemma TokenGranted(c: Client)
    requires c.pending == {AuthRead(TokenRequest)} && c.clock >= 0
    ensures Moved(c, Complete(c, Completion(AuthRead(TokenRequest), Fine(), 0)), c.phase, AuthWrite(NewToken))
  {
    assert c.pending - {AuthRead(TokenRequest)} == {};
  }

  /** a rejected stored one is replaced by asking for another, once; */
  lemma StoredTokenRejected(c: Client, hasToken: bool)
    requires c.pending == {AuthRead(StoredToken)} && c.triedStoredToken && c.clock >= 0
    ensures var d := Complete(c, Completion(AuthRead(StoredToken), Reply(true, hasToken, false), 0));
            Moved(c, d, c.phase, AuthWrite(TokenRequest)) && !d.triedStoredToken
  {
    assert c.pending - {AuthRead(StoredToken)} == {};
  }

  /** and a refused or rejected new one ends the attempt, to be retried later. */
  lemma NewTokenRefused(c: Client, auth: Auth, outcome: Outcome)
    requires Inv(c) && c.pending == {AuthRead(auth)} && (auth.TokenRequest? || auth.NewToken?)
    requires outcome.Success? && (auth.TokenRequest? ==> !outcome.info.hasToken)
    requires auth.NewToken? ==> !outcome.info.authenticated
    ensures var d := Complete(c, Completion(AuthRead(auth), outcome, c.clock));
            && d.phase.Disconnected? && d.needsRecycle && d.wantConnection == c.wantConnection
            && d.nextAttempt == c.clock + 5000
  {
    DequeueEnters(c, Completion(AuthRead(auth), outcome, c.clock));
    AuthEntry(Dequeue(c, Completion(AuthRead(auth), outcome, c.clock)), AuthRead(auth));
  }

  function Granting(auth: Auth): seq<Completion> {
    [Completion(AuthWrite(auth), Fine(), 0), Completion(AuthRead(auth), Fine(), 0)]
  }

  lemma AskingReachesReady(c: Client)
    requires c.pending == {AuthWrite(TokenRequest)} && c.clock >= 0
    ensures Moved(c, Poll(c, Granting(TokenRequest) + Granting(NewToken)), Ready, SteadyRead)
  {
    var cs := Granting(TokenRequest) + Granting(NewToken);
    SendsAuth(c, TokenRequest);
    var c1 := Complete(c, cs[0]);
    TokenGranted(c1);
    var c2 := Complete(c1, cs[1]);
    SendsAuth(c2, NewToken);
    var c3 := Complete(c2, cs[2]);
    IsAuthenticated(c3, NewToken);
    var c4 := Complete(c3, cs[3]);
    PollStep(c, cs);
    PollStep(c1, cs[1..]);
    PollStep(c2, cs[2..]);
    PollStep(c3, cs[3..]);
    assert cs[1..][1..] == cs[2..] && cs[2..][1..] == cs[3..] && cs[3..][1..] == [];
    assert Poll(c4, []) == c4;
  }

  /** Without a stored token the client comes up by asking for one. */
  lemma NewTokenReachesReady(c: Client)
    requires c.pending == {Handshake} && c.clock >= 0
    ensures var cs := [Completion(Handshake, Reply(false, true, true), 0)]
                      + Granting(TokenRequest) + Granting(NewToken);
            Moved(c, Poll(c, cs), Ready, SteadyRead)
  {
    var cs := [Completion(Handshake, Reply(false, true, true), 0)] + Granting(TokenRequest) + Granting(NewToken);
    ShakesHands(c, false);
    PollStep(c, cs);
    assert cs[1..] == Granting(TokenRequest) + Granting(NewToken);
    AskingReachesReady(Complete(c, cs[0]));
  }

  /** With one that is rejected it does so too. */
  lemma RejectedTokenReachesReady(c: Client)
    requires c.pending == {Handshake} && c.clock >= 0
    ensures var cs := [Completion(Handshake, Reply(true, true, true), 0),
                       Completion(AuthWrite(StoredToken), Fine(), 0),
                       Completion(AuthRead(StoredToken), Reply(true, false, false), 0)]
                      + (Granting(TokenRequest) + Granting(NewToken));
            Moved(c, Poll(c, cs), Ready, SteadyRead)
  {
    var rest := Granting(TokenRequest) + Granting(NewToken);
    var cs := [Completion(Handshake, Reply(true, true, true), 0), Completion(AuthWrite(StoredToken), Fine(), 0),
               Completion(AuthRead(StoredToken), Reply(true, false, false), 0)] + rest;
    ShakesHands(c, true);
    var c1 := Complete(c, cs[0]);
    SendsAuth(c1, StoredToken);
    var c2 := Complete(c1, cs[1]);
    StoredTokenRejected(c2, false);
    var c3 := Complete(c2, cs[2]);
    PollStep(c, cs);
    PollStep(c1, cs[1..]);
    PollStep(c2, cs[2..]);
    assert cs[1..][1..] == cs[2..] && cs[2..][1..] == rest;
    AskingReachesReady(c3);
  }

  lemma ChainReachesReady(c: Client)
    requires c.pending == {Resolve} && c.clock >= 0
    ensures Moved(c, Poll(c, ChainCompletes()), Ready, SteadyRead)
  {
    var cs := ChainCompletes();
    Resolves(c);
    var c1 := Complete(c, cs[0]);
    Connects(c1);
    var c2 := Complete(c1, cs[1]);
    ShakesHands(c2, true);
    var c3 := Complete(c2, cs[2]);
    SendsAuth(c3, StoredToken);
    var c4 := Complete(c3, cs[3]);
    IsAuthenticated(c4, StoredToken);
    var c5 := Complete(c4, cs[4]);
    PollStep(c, cs);
    PollStep(c1, cs[1..]);
    PollStep(c2, cs[2..]);
    PollStep(c3, cs[3..]);
    PollStep(c4, cs[4..]);
    assert cs[1..][1..] == cs[2..] && cs[2..][1..] == cs[3..] && cs[3..][1..] == cs[4..] && cs[4..][1..] == [];
    assert Poll(c5, []) == c5;
  }

  /** connect, come up, ask to register, lose the link with the creation response queued:
      the client then reports registered while disconnected. */
  function MisleadingRun(): seq<Call> {
    [CallConnect(0), CallPump(0, ChainCompletes(), []), CallRequestRegister,
     CallPump(0, [Completion(Write(CreateParameter), Failed, 0),
                  Completion(SteadyRead, Success(Info(true, true, true, true, ParameterCreationResponse)), 0)], [])]
  }

  /** Nothing but an attempt is due. */
  ghost predicate AboutToConnect(c: Client) {
    && Settled(c) && c.phase.Disconnected? && c.wantConnection && c.clock == c.nextAttempt == 0
    && !c.writeInFlight && !c.valueDirty && !c.reg.requested && !c.reg.registering
  }

  lemma Connected()
    ensures AboutToConnect(Apply(Fresh(0), CallConnect(0)))
  {
    FreshIsSettled(0);
    ApplySettles(Fresh(0), CallConnect(0));
  }

  lemma ComesUp(c: Client)
    requires AboutToConnect(c)
    ensures var d := Apply(c, CallPump(0, ChainCompletes(), []));
            Settled(d) && Moved(c, d, Ready, SteadyRead)
  {
    ApplySettles(c, CallPump(0, ChainCompletes(), []));
    var b := Begin(c, 0);
    assert b == StartConnect(c) && b.pending == {Resolve};
    ChainReachesReady(b);
  }

  lemma StartsCreation(c: Client)
    requires c.phase.Ready? && !c.writeInFlight && c.reg.requested && !c.reg.registering
    ensures Write(CreateParameter) in Begin(c, 0).pending && Begin(c, 0).phase.Ready?
  {
    var d := Tick(c, 0);
    var asked := Requested(d);
    assert Begin(c, 0) == StartWriteIfNeeded(d) == Send(asked, CreateParameter);
  }

  lemma LosesLinkLate(c: Client)
    requires Settled(c) && c.phase.Ready? && !c.writeInFlight && c.reg.requested && !c.reg.registering
    ensures var d := Apply(c, MisleadingRun()[3]);
            d.phase.Disconnected? && d.reg.registered
  {
    BeginKeepsInv(c, 0);
    StartsCreation(c);
    var b := Begin(c, 0);
    StaleRegistration(b, CreateParameter, Info(true, true, true, true, ParameterCreationResponse), 0);
  }

  lemma RegisteredWhileDisconnected() returns (calls: seq<Call>)
    ensures var c := RunCalls(Fresh(0), calls);
            c.phase.Disconnected? && c.reg.registered
  {
    calls := MisleadingRun();
    var c0 := Fresh(0);
    var c1 := Apply(c0, calls[0]);
    Connected();
    ComesUp(c1);
    var c2 := Apply(c1, calls[1]);
    ApplySettles(c2, calls[2]);
    var c3 := Apply(c2, calls[2]);
    LosesLinkLate(c3);
    RunCallsStep(c0, calls);
    RunCallsStep(c1, calls[1..]);
    RunCallsStep(c2, calls[2..]);
    RunCallsStep(c3, calls[3..]);
    assert calls[1..][1..] == calls[2..] && calls[2..][1..] == calls[3..] && calls[3..][1..] == [];
  }

  lemma RunCallsStep(c: Client, calls: seq<Call>)
    requires calls != []
    ensures RunCalls(c, calls) == RunCalls(Apply(c, calls[0]), calls[1..])
    ensures |calls| == 1 ==> RunCalls(c, calls) == Apply(c, calls[0])
  {
  }

  /** connect, come up, lose the link. */
  function LosingRun(): seq<Call> {
    [CallConnect(0), CallPump(0, ChainCompletes(), []), CallPump(0, [Completion(SteadyRead, Failed, 0)], [])]
  }

  lemma LosesLink(c: Client)
    requires Settled(c) && c.phase.Ready? && c.pending == {SteadyRead}
    requires !c.valueDirty && !c.reg.requested && c.clock == 0
    ensures var d := Apply(c, LosingRun()[2]);
            d.phase.Disconnected? && d.history.lostReady && d.history.dropped == Some(0) && d.clock == 0
  {
    var done := Completion(SteadyRead, Failed, 0);
    assert Begin(c, 0) == c;
    PollStep(c, [done]);
    var d := Complete(c, done);
    assert Poll(c, [done]) == d by {
      assert [done][1..] == [] && Poll(d, []) == d;
    }
    assert d.pending == {};
  }

  /** After such a loss no pump starts an attempt, however late and whatever the network then
      does: the link dropped at 0, the pump may be at 5001. */
  lemma LossIsNotRetried() returns (calls: seq<Call>)
    ensures var c := RunCalls(Fresh(0), calls);
            && c.phase.Disconnected? && c.history.lostReady && c.history.dropped == Some(0) && c.clock == 0
            && forall now, polled, drained :: Pump(c, now, polled, drained).history.attempts == c.history.attempts
  {
    calls := LosingRun();
    var c0 := Fresh(0);
    var c1 := Apply(c0, calls[0]);
    Connected();
    ComesUp(c1);
    var c2 := Apply(c1, calls[1]);
    LosesLink(c2);
    RunCallsStep(c0, calls);
    RunCallsStep(c1, calls[1..]);
    RunCallsStep(c2, calls[2..]);
    assert calls[1..][1..] == calls[2..] && calls[2..][1..] == [];
    forall now, polled, drained
      ensures Pump(RunCalls(Fresh(0), calls), now, polled, drained).history.attempts ==
              RunCalls(Fresh(0), calls).history.attempts
    {
      AttemptStartsExactly(0, calls, now, polled, drained);
    }
  }
}

/** VTubeStudioClient as the object it is: every method changes the fields exactly as the
    protocol function of the same step says, so what VtsProtocol proves of all runs holds
    of the object. */
module VtsClient {
  import B = Basics
  import P = VtsProtocol

  class VTubeStudioClient {
    var phase: P.Phase
    var hasStream: bool
    var wantConnection: bool
    var nextAttempt: int
    var triedStoredToken: bool
    var registerRequested: bool
    var registering: bool
    var registered: bool
    var registerFailed: bool
    var pendingValue: real
    var valueDirty: bool
    var writeInFlight: bool
    var writePayload: P.Payload
    var needsRecycle: bool
    var pending: set<P.Op> // operations started on the io_context
    var clock: int
    ghost var history: P.History

    ghost function Abs(): P.Client
      reads this
    {
      P.Client(phase, hasStream, wantConnection, nextAttempt, triedStoredToken,
               P.Registration(registerRequested, registering, registered, registerFailed),
               pendingValue, valueDirty, writeInFlight, writePayload, needsRecycle, pending, clock, history)
    }

    constructor (now: int)
      ensures Abs() == P.Fresh(now)
    {
      phase, hasStream, wantConnection, nextAttempt := P.Disconnected, false, false, now;
      triedStoredToken := false;
      registerRequested, registering, registered, registerFailed := false, false, false, false;
      pendingValue, valueDirty := 0.0, false;
      writeInFlight, writePayload, needsRecycle := false, P.Empty, false;
      pending, clock, history := {}, now, P.History([], 0, false, B.None, [], []);
    }

    method ReadClock(at: int)
      modifies this
      ensures Abs() == P.Tick(old(Abs()), at)
    {
      if at > clock {
        clock := at;
      }
    }

    method Start(op: P.Op)
      modifies this`pending
      ensures Abs() == P.Start(old(Abs()), op)
    {
      pending := pending + {op};
    }

    method DropConnection(afterReady: bool)
      modifies this
      ensures Abs() == P.DropConnection(old(Abs()), afterReady)
    {
      if phase == P.Disconnected {
        return;
      }
      Drop();
      if afterReady {
        wantConnection := false;
        history := history.(lostReady := true);
      }
    }

    method Drop()
      modifies this
      ensures Abs() == P.Drop(old(Abs()))
    {
      phase := P.Disconnected;
      registering := false;
      registered := false;
      writeInFlight := false;
      needsRecycle := true;
      BackOff();
    }

    method BackOff()
      modifies `nextAttempt, `history
      ensures Abs() == P.BackOff(old(Abs()))
    {
      nextAttempt := clock + P.RECONNECT_BACKOFF_MS;
      history := history.(dropped := B.Some(clock));
    }

    method StartConnect()
      modifies this
      ensures Abs() == P.StartConnect(old(Abs()))
    {
      hasStream := true;
      triedStoredToken := false;
      phase := P.Resolving;
      history := history.(attempts := history.attempts + [clock], authSends := 0);
      Start(P.Resolve);
    }

    /** beginAuth with a stored token, requestNewToken, or the request with the new token. */
    method SendAuth(auth: P.Auth)
      modifies this
      ensures Abs() == P.SendAuth(old(Abs()), auth)
    {
      match auth {
        case StoredToken => triedStoredToken := true;
        case TokenRequest => triedStoredToken := false;
        case NewToken =>
      }
      writePayload := P.AuthRequest(auth);
      history := history.(authSends := history.authSends + 1);
      Start(P.AuthWrite(auth));
    }

    method OnTokenResponse(info: P.Info)
      modifies this
      ensures Abs() == if info.hasToken then P.SendAuth(old(Abs()), P.NewToken) else P.DropConnection(old(Abs()), false)
    {
      if !info.hasToken {
        DropConnection(false);
        return;
      }
      SendAuth(P.NewToken);
    }

    method OnAuthResponse(info: P.Info)
      modifies this
      ensures Abs() == if info.authenticated then P.Start(old(Abs()).(phase := P.Ready), P.SteadyRead)
                       else if old(triedStoredToken) then P.SendAuth(old(Abs()), P.TokenRequest)
                       else P.DropConnection(old(Abs()), false)
    {
      if info.authenticated {
        phase := P.Ready;
        Start(P.SteadyRead);
        return;
      }
      if triedStoredToken {
        SendAuth(P.TokenRequest);
        return;
      }
      DropConnection(false);
    }

    method OnAuthReply(auth: P.Auth, info: P.Info)
      modifies this
      ensures Abs() == P.OnAuthReply(old(Abs()), auth, info)
    {
      if !info.parses {
        DropConnection(false);
      } else if auth == P.TokenRequest {
        OnTokenResponse(info);
      } else {
        OnAuthResponse(info);
      }
    }

    method OnSteadyMessage(info: P.Info)
      modifies this
      ensures Abs() == P.OnSteadyMessage(old(Abs()), info)
    {
      if info.parses {
        if info.messageType == P.ParameterCreationResponse {
          registered := true;
          registering := false;
          registerFailed := false;
        } else if registering && info.messageType == P.APIError {
          registering := false;
          registerFailed := true;
        }
      }
      if phase == P.Ready {
        Start(P.SteadyRead);
      }
    }

    method OnWritten(ok: bool)
      modifies this
      ensures Abs() == P.OnWritten(old(Abs()), ok)
    {
      writeInFlight := false;
      if !ok {
        DropConnection(true);
      }
    }

    /** Before Ready: the next operation of the chain, or a retry later. */
    method OnChain(op: P.Op, outcome: P.Outcome)
      requires op.Resolve? || op.Connect? || op.Handshake?
      modifies this
      ensures Abs() == match op
                       case Resolve => P.OnResolve(old(Abs()), outcome.Success?)
                       case Connect => P.OnConnected(old(Abs()), outcome.Success?)
                       case _ => P.OnHandshake(old(Abs()), outcome)
    {
      if outcome.Failed? {
        DropConnection(false);
        return;
      }
      if op == P.Resolve {
        phase := P.Connecting;
        Start(P.Connect);
      } else if op == P.Connect {
        phase := P.Handshaking;
        Start(P.Handshake);
      } else {
        phase := P.Authenticating;
        SendAuth(if outcome.info.tokenStored then P.StoredToken else P.TokenRequest);
      }
    }

    /** The io_context runs the handler of one completed operation. */
    method OnCompletion(done: P.Completion)
      requires done.op in pending
      modifies this
      ensures Abs() == P.Complete(old(Abs()), done)
    {
      ReadClock(done.at);
      pending := pending - {done.op};
      match done.op {
        case Resolve => OnChain(done.op, done.outcome);
        case Connect => OnChain(done.op, done.outcome);
        case Handshake => OnChain(done.op, done.outcome);
        case AuthWrite(auth) =>
          if done.outcome.Success? {
            Start(P.AuthRead(auth));
          } else {
            DropConnection(false);
          }
        case AuthRead(auth) =>
          if done.outcome.Success? {
            OnAuthReply(auth, done.outcome.info);
          } else {
            DropConnection(false);
          }
        case SteadyRead =>
          if done.outcome.Success? {
            OnSteadyMessage(done.outcome.info);
          } else {
            DropConnection(true);
          }
        case Write(_) => OnWritten(done.outcome.Success?);
      }
    }

    method SendFireAndForget(payload: P.Payload)
      modifies this
      ensures Abs() == P.Send(old(Abs()), payload)
    {
      writePayload := payload;
      writeInFlight := true;
      Start(P.Write(payload));
    }

    method RequestParameter()
      modifies this
      ensures Abs() == P.Send(P.Requested(old(Abs())), P.CreateParameter)
    {
      registerRequested := false;
      registering := true;
      registerFailed := false;
      SendFireAndForget(P.CreateParameter);
    }

    method InjectValue()
      modifies this
      ensures Abs() == P.Send(P.Injected(old(Abs())), P.Inject(old(pendingValue)))
    {
      valueDirty := false;
      history := history.(injected := history.injected + [P.Injection(pendingValue, |history.values|)]);
      SendFireAndForget(P.Inject(pendingValue));
    }

    /** One write at a time; a registration goes before a value. */
    method StartWriteIfNeeded()
      modifies this
      ensures Abs() == P.StartWriteIfNeeded(old(Abs()))
      ensures old(phase == P.Ready && !writeInFlight && !(registerRequested && !registering) && valueDirty) ==>
                pending == old(pending) + {P.Write(P.Inject(old(pendingValue)))} && !valueDirty
    {
      if writeInFlight || phase != P.Ready {
        return;
      }
      if registerRequested && !registering {
        RequestParameter();
        return;
      }
      if valueDirty {
        InjectValue();
      }
    }

    method Poll(done: seq<P.Completion>)
      modifies this
      ensures Abs() == P.Poll(old(Abs()), done)
    {
      for i := 0 to |done|
        invariant P.Poll(Abs(), done[i..]) == P.Poll(old(Abs()), done)
      {
        assert done[i..][1..] == done[i + 1..];
        if done[i].op in pending {
          OnCompletion(done[i]);
        }
      }
      assert done[|done|..] == [];
    }

    /** After cancel() every straggler completes with an error, in no particular order. */
    method AbortRest()
      requires P.Inv(Abs()) && needsRecycle
      modifies this
      ensures Abs() == P.AbortRest(old(Abs()))
    {
      ghost var before := Abs();
      while pending != {}
        invariant P.Inv(Abs()) && needsRecycle
        invariant Abs() == before.(pending := pending) && pending <= before.pending
        decreases pending
      {
        var op :| op in pending;
        var done := P.Completion(op, P.Failed, clock);
        P.CompleteKeepsInv(Abs(), done);
        P.DroppedOps(Abs(), op);
        P.AbortedStraggler(Abs(), op);
        OnCompletion(done);
      }
      P.AbortAllAtOnce(before);
    }

    method Pump(now: int, polled: seq<P.Completion>, drained: seq<P.Completion>)
      requires P.Settled(Abs())
      modifies this
      ensures Abs() == P.Apply(old(Abs()), P.CallPump(now, polled, drained))
      ensures P.Settled(Abs())
    {
      P.ApplySettles(Abs(), P.CallPump(now, polled, drained));
      P.BeginKeepsInv(Abs(), now);
      Begin(now);
      P.PollKeepsInv(Abs(), polled);
      Poll(polled);
      if needsRecycle {
        Recycle(drained);
      }
    }

    /** pump() up to its poll: start an attempt when one is due, start a write when Ready. */
    method Begin(now: int)
      modifies this
      ensures Abs() == P.Begin(old(Abs()), now)
    {
      ReadClock(now);
      if wantConnection && phase == P.Disconnected && !needsRecycle && clock >= nextAttempt {
        StartConnect();
      }
      if phase == P.Ready {
        StartWriteIfNeeded();
      }
    }

    /** pump() after its poll, once a handler has dropped the connection. */
    method Recycle(drained: seq<P.Completion>)
      requires P.Inv(Abs()) && needsRecycle
      modifies this
      ensures Abs() == P.Recycle(old(Abs()), drained)
    {
      P.PollKeepsInv(Abs(), drained);
      Poll(drained);
      AbortRest();
      hasStream := false;
      needsRecycle := false;
    }

    method Connect(now: int)
      requires P.Settled(Abs())
      modifies this
      ensures Abs() == P.Apply(old(Abs()), P.CallConnect(now)) && P.Settled(Abs())
    {
      P.ApplySettles(Abs(), P.CallConnect(now));
      ReadClock(now);
      wantConnection := true;
      nextAttempt := clock;
      history := history.(attempts := [], lostReady := false, dropped := B.None);
    }

    method RequestRegister()
      requires P.Settled(Abs())
      modifies this
      ensures Abs() == P.Apply(old(Abs()), P.CallRequestRegister) && P.Settled(Abs())
    {
      P.ApplySettles(Abs(), P.CallRequestRegister);
      registerFailed := false;
      registerRequested := true;
    }

    method SetDetectValue(value: real)
      requires P.Settled(Abs())
      modifies this
      ensures Abs() == P.Apply(old(Abs()), P.CallSetDetectValue(value)) && P.Settled(Abs())
    {
      P.ApplySettles(Abs(), P.CallSetDetectValue(value));
      pendingValue := value;
      valueDirty := true;
      history := history.(values := history.values + [value]);
    }
  }
}

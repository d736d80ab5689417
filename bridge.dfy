/** `handleConnection` end to end: the handshake on the client's bytes, the
    session opened for a CONNECT request with the host:port payload, the remote
    end's dial acknowledgement, the relay loop, and the deferred close of the
    local socket. */
module Bridge {
  import opened Wire
  import opened Addresses
  import opened Protocol
  import opened Transport
  import opened Relay

  /** How the handler ended. */
  datatype Exit =
    | Rejected(reason: Reason)    // returned during the handshake
    | Ignored(cmd: byte)          // BIND or UDP ASSOCIATE: the switch falls through
    | AwaitingDial                // still waiting for the first session message
    | Crashed                     // the first session message had no data byte: index out of range
    | DialFailed                  // the remote end did not report DIAL_OK
    | Relayed(relay: RelayExit)   // the relay loop ran

  /** Everything the handler does that can be observed: the bytes written to the
      local socket, the payloads sent into the session and the finish calls. */
  datatype Trace = Trace(written: seq<byte>, sent: seq<seq<byte>>,
                         finishSends: nat, finishReads: nat, exit: Exit)

  /** The remote end reports that it reached the target. */
  predicate DialAccepted(ack: Option<seq<byte>>) {
    ack.Some? && |ack.value| > 0 && ack.value[0] == DIAL_OK
  }

  /** The handler has left `handleConnection`, by a return or by a panic, so
      its deferred close has run; otherwise it is still blocked waiting for a
      session message or an event of the relay loop. */
  predicate Finished(exit: Exit) {
    exit != AwaitingDial && exit != Relayed(Running)
  }

  /** The handler on the client's bytes `input`, the data of the first session
      message `ack` (None while none has arrived), and the events the relay
      loop picks. */
  function Connection(input: seq<byte>, ack: Option<seq<byte>>, events: seq<Event>): (r: Trace)
    ensures Handshake(input).output <= r.written
    ensures r.sent != [] <==> Handshake(input).outcome.Connect?
  {
    var hs := Handshake(input);
    match hs.outcome
    case Terminated(reason) => Trace(hs.output, [], 0, 0, Rejected(reason))
    case NoOp(cmd) => Trace(hs.output, [], 0, 0, Ignored(cmd))
    case Connect(hostPort) =>
      var t := SessionTrace(hostPort, ack, events);
      t.(written := hs.output + t.written)
  }

  /** The CONNECT branch after the succeeded reply: the session is opened with
      the host:port payload, and the relay runs only if the remote end reports
      DIAL_OK. */
  function SessionTrace(hostPort: seq<byte>, ack: Option<seq<byte>>, events: seq<Event>): (r: Trace)
    ensures r.sent != [] && r.sent[0] == hostPort
    ensures r.exit.Relayed? <==> DialAccepted(ack)
    ensures !r.exit.Relayed? ==> r.written == [] && |r.sent| == 1 && r.finishSends == 0 && r.finishReads == 0
  {
    if ack.None? then Trace([], [hostPort], 0, 0, AwaitingDial)
    else if |ack.value| == 0 then Trace([], [hostPort], 0, 0, Crashed)
    else if ack.value[0] != DIAL_OK then Trace([], [hostPort], 0, 0, DialFailed)
    else
      var fx := RelayEffects(events);
      Trace(fx.written, [hostPort] + fx.sent, fx.finishSends, fx.finishReads, Relayed(fx.exit))
  }

  /** The handler itself. The session exists only for a CONNECT request and is
      opened after the handshake replies, the succeeded reply last, have been
      written; the local socket is closed exactly when the handler has finished. */
  method HandleConnection(conn: Conn, input: seq<byte>, ack: Option<seq<byte>>, events: seq<Event>)
    returns (session: Session?, exit: Exit)
    modifies conn
    ensures var t := Connection(input, ack, events);
      conn.written == old(conn.written) + t.written && exit == t.exit
    ensures conn.closed == (old(conn.closed) || Finished(exit))
    ensures session == null <==> !Handshake(input).outcome.Connect?
    ensures session != null ==> fresh(session)
    ensures var t := Connection(input, ack, events);
      session != null ==>
        session.sent == t.sent && session.finishSends == t.finishSends &&
        session.finishReads == t.finishReads
    ensures session != null ==> session.socketAtOpen == old(conn.written) + Handshake(input).output
  {
    var consumed, outcome := ServeHandshake(conn, input);
    session := null;
    match outcome {
      case Terminated(reason) =>
        exit := Rejected(reason);
      case NoOp(cmd) =>
        exit := Ignored(cmd);
      case Connect(hostPort) =>
        session, exit := OpenSession(conn, hostPort, ack, events);
        AppendAssoc(old(conn.written), Handshake(input).output, SessionTrace(hostPort, ack, events).written);
    }
    if Finished(exit) {
      conn.Close();
    }
  }

  /** `client.NewSession()`, `Send` of the host:port payload, the wait for the
      dial acknowledgement, and the relay. */
  method OpenSession(conn: Conn, hostPort: seq<byte>, ack: Option<seq<byte>>, events: seq<Event>)
    returns (session: Session, exit: Exit)
    modifies conn
    ensures fresh(session) && session.socketAtOpen == old(conn.written)
    ensures var t := SessionTrace(hostPort, ack, events);
      conn.written == old(conn.written) + t.written && conn.closed == old(conn.closed) &&
      exit == t.exit && session.sent == t.sent &&
      session.finishSends == t.finishSends && session.finishReads == t.finishReads
  {
    session := new Session(conn);
    session.Send(hostPort);
    if ack.None? {
      exit := AwaitingDial;
    } else if |ack.value| == 0 {
      exit := Crashed;
    } else if ack.value[0] != DIAL_OK {
      exit := DialFailed;
    } else {
      var r := Relay.Relay(conn, session, events);
      exit := Relayed(r);
    }
  }

  // ---------------------------------------------------------------------------
  // Properties of the handler.

  /** Without a CONNECT request the handler writes only its handshake replies and
      nothing goes into a session. */
  lemma NoSessionWithoutConnect(input: seq<byte>, ack: Option<seq<byte>>, events: seq<Event>)
    requires !Handshake(input).outcome.Connect?
    ensures var t := Connection(input, ack, events);
      t.written == Handshake(input).output && t.sent == [] &&
      t.finishSends == 0 && t.finishReads == 0 && !t.exit.Relayed?
  {
  }

  /** Nothing is relayed in either direction until the remote end has accepted
      the dial: the relay runs exactly for a CONNECT request with DIAL_OK, and
      otherwise the session carries only the host:port payload. */
  lemma NothingFlowsBeforeDial(input: seq<byte>, ack: Option<seq<byte>>, events: seq<Event>)
    ensures var t := Connection(input, ack, events);
      t.exit.Relayed? <==> Handshake(input).outcome.Connect? && DialAccepted(ack)
    ensures var t := Connection(input, ack, events);
      !t.exit.Relayed? ==>
        t.written == Handshake(input).output && |t.sent| <= 1 &&
        t.finishSends == 0 && t.finishReads == 0
  {
  }

  /** A session is opened only after the handler has read a complete greeting and
      a well-formed CONNECT request and written the method reply and the succeeded
      reply; its first payload is the host:port of that request. After an
      accepted dial the socket receives the relayed data right behind the replies. */
  lemma ConnectOpensSession(input: seq<byte>, ack: Option<seq<byte>>, events: seq<Event>)
    returns (addr: Address, port: nat)
    requires Handshake(input).outcome.Connect?
    ensures ValidAddress(addr) && port < PORT_LIMIT
    ensures |input| >= 2 && |input| >= 2 + input[1] as int
    ensures var t := Connection(input, ack, events); var n := input[1] as int;
      var req := EncodeRequest(CMD_CONNECT, addr, port);
      |input| >= 2 + n + |req| && input[2 + n..2 + n + |req|] == req &&
      |t.written| >= 12 &&
      t.written[..12] == MethodReply(input[0], input[2..2 + n]) + ReplyFrame(REP_SUCCEED) &&
      t.sent != [] && t.sent[0] == HostPort(addr, port) &&
      (DialAccepted(ack) ==> t.written[12..] == RelayEffects(events).written) &&
      (!DialAccepted(ack) ==> |t.written| == 12 && |t.sent| == 1)
  {
    addr, port := ConnectDecomposes(input);
  }

  /** The session is opened only once the succeeded reply is the last thing on
      the socket: whatever was there before, the bytes written when the session
      opens end with the method reply and then the succeeded reply. */
  lemma SessionOpensAfterSucceededReply(before: seq<byte>, input: seq<byte>)
    requires Handshake(input).outcome.Connect?
    ensures var atOpen := before + Handshake(input).output;
      |input| >= 2 && |input| >= 2 + input[1] as int && |atOpen| >= 12 &&
      atOpen[|atOpen| - 12..] == MethodReply(input[0], input[2..2 + input[1] as int]) + ReplyFrame(REP_SUCCEED)
  {
    var addr, port := ConnectDecomposes(input);
    var atOpen := before + Handshake(input).output;
    assert atOpen[|atOpen| - 12..] == Handshake(input).output;
  }

  /** What the handler sends into the session after the host:port payload is a
      prefix of the bytes the client sent after its request, in order, when the
      local reader reads from the rest of the client's stream. */
  lemma BridgeForwardsClientBytes(input: seq<byte>, ack: Option<seq<byte>>, events: seq<Event>)
    requires Handshake(input).outcome.Connect? && DialAccepted(ack)
    requires LocalBytes(events) <= input[Handshake(input).consumed..]
    ensures var t := Connection(input, ack, events);
      |t.sent| >= 1 && Flatten(t.sent[1..]) <= input[Handshake(input).consumed..]
  {
    var t := Connection(input, ack, events);
    assert t.sent[1..] == RelayEffects(events).sent;
    SentIsPrefixOfLocalBytes(events);
  }

  /** End to end: after a greeting and a well-formed CONNECT request, an accepted
      dial, and relay events up to a stop signal, the client receives the method
      reply, the succeeded reply and then exactly the DATA payloads that arrived
      before the stop, in order; the session receives the host:port payload and
      then exactly the client's chunks read before the stop. */
  lemma ConnectRelaysUntilStop(ver: byte, methods: seq<byte>, addr: Address, port: nat,
                               ack: Option<seq<byte>>, pre: seq<Event>, tail: seq<Event>)
    requires |methods| < 256 && ValidAddress(addr) && port < PORT_LIMIT
    requires DialAccepted(ack) && Continues(pre)
    ensures Connection(Greeting(ver, methods) + EncodeRequest(CMD_CONNECT, addr, port), ack,
                       pre + [SessionStop] + tail)
         == Trace(MethodReply(ver, methods) + ReplyFrame(REP_SUCCEED) + Delivered(pre),
                  [HostPort(addr, port)] + Forwarded(pre), ReadErrors(pre), 0, Relayed(Stopped))
  {
    var input := Greeting(ver, methods) + EncodeRequest(CMD_CONNECT, addr, port);
    RequestRoundTrip(ver, methods, CMD_CONNECT, addr, port, []);
    assert input + [] == input;
    RelayPassesThrough(pre);
    StopIsFinal(pre, tail);
  }
}

/** The SOCKS5 handshake of `handleConnection` as a pure function of the bytes
    the client sends: method negotiation (RFC 1928, section 3), the request
    header (section 4), the address and port (section 5), the command dispatch,
    and the fixed ten-byte reply frame of `writeAck` (section 6).

    A read that finds the stream shorter than it needs ends the handshake with
    ShortRead; the output is what was written before that read. */
module Protocol {
  import opened Wire
  import opened Addresses
  import opened Transport

  /** Why the handler returned without a session. */
  datatype Reason =
    | ShortRead
    | BadVersion
    | BadReserved
    | AddressTypeNotSupported
    | CommandNotSupported

  datatype Outcome =
    | Terminated(reason: Reason)
    | NoOp(cmd: byte)                  // BIND and UDP ASSOCIATE: accepted, nothing done
    | Connect(hostPort: seq<byte>)    // CONNECT: the payload for the new session

  /** What a stage of the handshake wrote, how many input bytes it read, and how it ended. */
  datatype Step = Step(output: seq<byte>, consumed: nat, outcome: Outcome)

  /** The frame `writeAck` writes: version, reply code, reserved byte, address
      type IPv4, four zero address bytes and a zero port. */
  function ReplyFrame(rep: byte): (r: seq<byte>)
    ensures |r| == 10
  {
    [VERSION, rep, RESERVED, ADDR_TYPE_IP] + [0, 0, 0, 0] + EncodePort(0)
  }

  /** The fields of a reply as a SOCKS5 client reads them. */
  datatype Reply = Reply(rep: byte, bound: Address, port: nat)

  /** A client's parse of a complete reply frame (RFC 1928, section 6). */
  function DecodeReply(frame: seq<byte>): Option<Reply> {
    if |frame| < 4 || frame[0] != VERSION || frame[2] != RESERVED then None
    else if frame[3] != ADDR_TYPE_IP && frame[3] != ADDR_TYPE_DOMAIN then None
    else match DecodeAddress(frame[3], frame[4..])
      case None => None
      case Some(p) =>
        if |frame| != 4 + p.used + 2 then None
        else Some(Reply(frame[1], p.value, BigEndian16(frame[4 + p.used], frame[5 + p.used])))
  }

  /** Every reply the handler writes is a well-formed SOCKS5 reply with the given
      code and the bound address 0.0.0.0, port 0. */
  lemma ReplyFrameDecodes(rep: byte)
    ensures DecodeReply(ReplyFrame(rep)) == Some(Reply(rep, IPv4(0, 0, 0, 0), 0))
  {
    ReplyFrameBytes(rep);
    DecodeIPv4Reply(ReplyFrame(rep));
  }

  /** A ten-byte frame with an IPv4 bound address decodes field by field. */
  lemma DecodeIPv4Reply(frame: seq<byte>)
    requires |frame| == 10 && frame[0] == VERSION && frame[2] == RESERVED && frame[3] == ADDR_TYPE_IP
    ensures DecodeReply(frame)
         == Some(Reply(frame[1], IPv4(frame[4], frame[5], frame[6], frame[7]), BigEndian16(frame[8], frame[9])))
  {
    var p := Parsed(IPv4(frame[4], frame[5], frame[6], frame[7]), 4);
    assert DecodeAddress(frame[3], frame[4..]) == Some(p);
  }

  lemma ReplyFrameBytes(rep: byte)
    ensures ReplyFrame(rep) == [VERSION, rep, RESERVED, ADDR_TYPE_IP, 0, 0, 0, 0, 0, 0]
  {
    assert EncodePort(0) == [0, 0];
  }

  /** The method-selection reply for the client's version and offered methods. */
  function MethodReply(ver: byte, methods: seq<byte>): (r: seq<byte>)
    ensures |r| == 2 && r[0] == VERSION
    ensures r[1] == METHOD_NOT_REQUIRED <==> ver == VERSION && methods == [METHOD_NOT_REQUIRED]
    ensures r[1] != METHOD_NOT_REQUIRED ==> r[1] == METHOD_NO_ACCEPTABLE
  {
    [VERSION,
     if ver != VERSION || |methods| != 1 || methods[0] != METHOD_NOT_REQUIRED
     then METHOD_NO_ACCEPTABLE
     else METHOD_NOT_REQUIRED]
  }

  /** The command dispatch after the address and port have been read. */
  function Dispatch(cmd: byte, addr: Address, port: nat, consumed: nat): (r: Step)
    ensures r.consumed == consumed
    ensures r.outcome.Connect? <==> cmd == CMD_CONNECT
    ensures r.outcome.Connect? ==> r.outcome.hostPort == HostPort(addr, port)
    ensures r.outcome.NoOp? <==> cmd == CMD_BIND || cmd == CMD_UDP_ASSOCIATE
    ensures r.outcome.NoOp? ==> r.output == []
    ensures r.outcome.Terminated? ==> r.outcome.reason == CommandNotSupported
    ensures !r.outcome.NoOp? ==> |r.output| == 10 && r.output[1] == if cmd == CMD_CONNECT then REP_SUCCEED else REP_COMMAND_NOT_SUPPORTED
  {
    if cmd == CMD_CONNECT then
      Step(ReplyFrame(REP_SUCCEED), consumed, Connect(HostPort(addr, port)))
    else if cmd == CMD_BIND || cmd == CMD_UDP_ASSOCIATE then
      Step([], consumed, NoOp(cmd))
    else
      Step(ReplyFrame(REP_COMMAND_NOT_SUPPORTED), consumed, Terminated(CommandNotSupported))
  }

  /** The request stage on the bytes that follow the method negotiation: the
      four-byte header, its checks, the address, the port and the dispatch. */
  function Request(s: seq<byte>): (r: Step)
    ensures r.consumed <= |s|
  {
    if |s| < 4 then Step([], |s|, Terminated(ShortRead))
    else
      var ver, cmd, reserved, addrType := s[0], s[1], s[2], s[3];
      if ver != VERSION then Step([], 4, Terminated(BadVersion))
      else if reserved != RESERVED then Step([], 4, Terminated(BadReserved))
      else if addrType != ADDR_TYPE_IP && addrType != ADDR_TYPE_DOMAIN then
        Step(ReplyFrame(REP_ADDRESS_TYPE_NOT_SUPPORTED), 4, Terminated(AddressTypeNotSupported))
      else match DecodeAddress(addrType, s[4..])
        case None => Step([], |s|, Terminated(ShortRead))
        case Some(p) =>
          var portAt := 4 + p.used;
          if |s| < portAt + 2 then Step([], |s|, Terminated(ShortRead))
          else Dispatch(cmd, p.value, BigEndian16(s[portAt], s[portAt + 1]), portAt + 2)
  }

  /** The whole handshake on the client's input: the greeting (version, method
      count, methods), the method reply, then the request stage, which runs
      whichever method byte was replied. */
  function Handshake(input: seq<byte>): (r: Step)
    ensures r.consumed <= |input|
  {
    if |input| < 2 || |input| < 2 + input[1] as int then Step([], |input|, Terminated(ShortRead))
    else
      var n := input[1] as int;
      var req := Request(input[2 + n..]);
      Step(MethodReply(input[0], input[2..2 + n]) + req.output, 2 + n + req.consumed, req.outcome)
  }

  // ---------------------------------------------------------------------------
  // Client-side encoders, the partners of the parser.

  /** A greeting: version, method count, methods. */
  function Greeting(ver: byte, methods: seq<byte>): seq<byte>
    requires |methods| < 256
  {
    [ver, |methods|] + methods
  }

  /** A well-formed request for `cmd` on `addr`:`port`. */
  function EncodeRequest(cmd: byte, addr: Address, port: nat): seq<byte>
    requires ValidAddress(addr) && port < PORT_LIMIT
  {
    [VERSION, cmd, RESERVED, AddressType(addr)] + EncodeAddress(addr) + EncodePort(port)
  }

  // ---------------------------------------------------------------------------
  // Properties of the handshake.

  /** After a complete greeting the handler replies to it and then runs the
      request stage on exactly the bytes that follow, whether or not the method
      was accepted. */
  lemma HandshakeSplits(ver: byte, methods: seq<byte>, s: seq<byte>)
    requires |methods| < 256
    ensures Handshake(Greeting(ver, methods) + s)
         == Step(MethodReply(ver, methods) + Request(s).output,
                 |Greeting(ver, methods)| + Request(s).consumed,
                 Request(s).outcome)
  {
    var input := Greeting(ver, methods) + s;
    assert input[2..2 + |methods|] == methods;
    assert input[2 + |methods|..] == s;
  }

  /** The method-selection reply is two bytes, VERSION and then
      METHOD_NOT_REQUIRED exactly when the version matches and the one offered
      method is METHOD_NOT_REQUIRED; METHOD_NO_ACCEPTABLE otherwise. */
  lemma MethodNegotiation(input: seq<byte>)
    requires |input| >= 2 && |input| >= 2 + input[1] as int
    ensures var out := Handshake(input).output;
      |out| >= 2 && out[0] == VERSION &&
      (out[1] == METHOD_NOT_REQUIRED <==>
         input[0] == VERSION && input[1] == 1 && input[2] == METHOD_NOT_REQUIRED) &&
      (out[1] != METHOD_NOT_REQUIRED ==> out[1] == METHOD_NO_ACCEPTABLE)
  {
    var methods := input[2..2 + input[1] as int];
    assert input == Greeting(input[0], methods) + input[2 + input[1] as int..];
    HandshakeSplits(input[0], methods, input[2 + input[1] as int..]);
    assert methods == [METHOD_NOT_REQUIRED] <==> input[1] == 1 && input[2] == METHOD_NOT_REQUIRED;
  }

  /** A rejected negotiation does not stop the handler: two greetings, accepted
      or not, followed by the same bytes lead to the same request processing,
      the same outcome and the same output after the two-byte method reply. */
  lemma NegotiationDoesNotGateRequest(ver1: byte, methods1: seq<byte>,
                                      ver2: byte, methods2: seq<byte>, rest: seq<byte>)
    requires |methods1| < 256 && |methods2| < 256
    ensures var r1 := Handshake(Greeting(ver1, methods1) + rest);
            var r2 := Handshake(Greeting(ver2, methods2) + rest);
      r1.outcome == r2.outcome && r1.output[2..] == r2.output[2..] &&
      r1.consumed - |Greeting(ver1, methods1)| == r2.consumed - |Greeting(ver2, methods2)|
  {
    HandshakeSplits(ver1, methods1, rest);
    HandshakeSplits(ver2, methods2, rest);
    assert (MethodReply(ver1, methods1) + Request(rest).output)[2..] == Request(rest).output;
    assert (MethodReply(ver2, methods2) + Request(rest).output)[2..] == Request(rest).output;
  }

  /** Even after replying METHOD_NO_ACCEPTABLE the handler reads the four-byte
      request header. */
  lemma RejectedNegotiationReadsHeader(ver: byte, methods: seq<byte>, rest: seq<byte>)
    requires |methods| < 256 && |rest| >= 4
    requires MethodReply(ver, methods)[1] == METHOD_NO_ACCEPTABLE
    ensures var r := Handshake(Greeting(ver, methods) + rest);
      r.output[..2] == [VERSION, METHOD_NO_ACCEPTABLE] &&
      r.consumed >= |Greeting(ver, methods)| + 4
  {
    HandshakeSplits(ver, methods, rest);
  }

  /** A request header with a wrong version or a non-RESERVED reserved byte ends
      the handler after the method reply, with nothing more written and nothing
      read past the header. */
  lemma BadHeaderEndsSilently(ver: byte, methods: seq<byte>, rest: seq<byte>)
    requires |methods| < 256 && |rest| >= 4
    requires rest[0] != VERSION || rest[2] != RESERVED
    ensures Handshake(Greeting(ver, methods) + rest)
         == Step(MethodReply(ver, methods), |Greeting(ver, methods)| + 4,
                 Terminated(if rest[0] != VERSION then BadVersion else BadReserved))
  {
    HandshakeSplits(ver, methods, rest);
  }

  /** An address type other than IPv4 or domain gets exactly one
      address-type-not-supported reply, and nothing past the header is read. */
  lemma UnsupportedAddressTypeRejected(ver: byte, methods: seq<byte>, rest: seq<byte>)
    requires |methods| < 256 && |rest| >= 4
    requires rest[0] == VERSION && rest[2] == RESERVED
    requires rest[3] != ADDR_TYPE_IP && rest[3] != ADDR_TYPE_DOMAIN
    ensures Handshake(Greeting(ver, methods) + rest)
         == Step(MethodReply(ver, methods) + ReplyFrame(REP_ADDRESS_TYPE_NOT_SUPPORTED),
                 |Greeting(ver, methods)| + 4, Terminated(AddressTypeNotSupported))
  {
    HandshakeSplits(ver, methods, rest);
  }

  /** A well-formed request is consumed exactly, whatever follows it, and
      dispatched on its command: CONNECT writes the succeeded reply and yields
      the host:port payload; BIND and UDP ASSOCIATE write nothing; any other
      command writes exactly one command-not-supported reply. */
  lemma RequestRoundTrip(ver: byte, methods: seq<byte>, cmd: byte, addr: Address, port: nat,
                         rest: seq<byte>)
    requires |methods| < 256 && ValidAddress(addr) && port < PORT_LIMIT
    ensures var r := Handshake(Greeting(ver, methods) + EncodeRequest(cmd, addr, port) + rest);
      var reply := MethodReply(ver, methods);
      r.consumed == |Greeting(ver, methods)| + |EncodeRequest(cmd, addr, port)| &&
      (cmd == CMD_CONNECT ==>
         r.output == reply + ReplyFrame(REP_SUCCEED) && r.outcome == Connect(HostPort(addr, port))) &&
      (cmd == CMD_BIND || cmd == CMD_UDP_ASSOCIATE ==>
         r.output == reply && r.outcome == NoOp(cmd)) &&
      (cmd != CMD_CONNECT && cmd != CMD_BIND && cmd != CMD_UDP_ASSOCIATE ==>
         r.output == reply + ReplyFrame(REP_COMMAND_NOT_SUPPORTED) &&
         r.outcome == Terminated(CommandNotSupported))
  {
    var req := EncodeRequest(cmd, addr, port);
    assert Greeting(ver, methods) + req + rest == Greeting(ver, methods) + (req + rest);
    HandshakeSplits(ver, methods, req + rest);
    RequestOfEncoded(cmd, addr, port, rest);
  }

  /** The request stage reads a well-formed request exactly and dispatches on its command. */
  lemma RequestOfEncoded(cmd: byte, addr: Address, port: nat, rest: seq<byte>)
    requires ValidAddress(addr) && port < PORT_LIMIT
    ensures Request(EncodeRequest(cmd, addr, port) + rest)
         == Dispatch(cmd, addr, port, |EncodeRequest(cmd, addr, port)|)
  {
    var s := EncodeRequest(cmd, addr, port) + rest;
    var enc := EncodeAddress(addr);
    var pb := EncodePort(port);
    assert s[..4] == [VERSION, cmd, RESERVED, AddressType(addr)];
    assert s[4..] == enc + (pb + rest);
    AddressRoundTrip(addr, pb + rest);
    var portAt := 4 + |enc|;
    assert s[portAt] == pb[0] && s[portAt + 1] == pb[1];
    EncodePortRoundTrip(port);
  }

  /** Conversely, every CONNECT outcome comes from a greeting followed by a
      well-formed CONNECT request that the handler consumed exactly, and its
      output ends with the succeeded reply. */
  lemma ConnectDecomposes(input: seq<byte>) returns (addr: Address, port: nat)
    requires Handshake(input).outcome.Connect?
    ensures ValidAddress(addr) && port < PORT_LIMIT
    ensures |input| >= 2 && |input| >= 2 + input[1] as int
    ensures var r := Handshake(input); var n := input[1] as int;
      var req := EncodeRequest(CMD_CONNECT, addr, port);
      r.consumed == 2 + n + |req| && input[2 + n..r.consumed] == req &&
      r.output == MethodReply(input[0], input[2..2 + n]) + ReplyFrame(REP_SUCCEED) &&
      r.outcome == Connect(HostPort(addr, port))
  {
    CompleteGreeting(input);
    var n := input[1] as int;
    var s := input[2 + n..];
    addr, port := RequestConnectDecomposes(s);
    var req := EncodeRequest(CMD_CONNECT, addr, port);
    var q, r := Request(s), Handshake(input);
    assert r.consumed == 2 + n + q.consumed == 2 + n + |req|;
    assert r.output == MethodReply(input[0], input[2..2 + n]) + q.output;
    assert r.outcome == q.outcome;
    SliceOfSuffix(input, 2 + n, r.consumed, req);
  }

  lemma SliceOfSuffix<T>(x: seq<T>, i: nat, j: nat, y: seq<T>)
    requires i + |y| == j <= |x| && x[i..][..|y|] == y
    ensures x[i..j] == y
  {
    assert x[i..][..|y|] == x[i..j];
  }

  /** Only a complete greeting lets the handshake go on past the method reply. */
  lemma CompleteGreeting(input: seq<byte>)
    requires !Handshake(input).outcome.Terminated? || Handshake(input).outcome.reason != ShortRead
    ensures |input| >= 2 && |input| >= 2 + input[1] as int
    ensures var n := input[1] as int; var q := Request(input[2 + n..]);
      Handshake(input) == Step(MethodReply(input[0], input[2..2 + n]) + q.output, 2 + n + q.consumed, q.outcome)
  {
  }

  /** The request stage yields CONNECT only on a well-formed CONNECT request,
      which it consumes exactly. */
  lemma RequestConnectDecomposes(s: seq<byte>) returns (addr: Address, port: nat)
    requires Request(s).outcome.Connect?
    ensures ValidAddress(addr) && port < PORT_LIMIT
    ensures var r := Request(s); var req := EncodeRequest(CMD_CONNECT, addr, port);
      r.consumed == |req| && s[..|req|] == req &&
      r.output == ReplyFrame(REP_SUCCEED) && r.outcome == Connect(HostPort(addr, port))
  {
    var p := RequestConnectHeader(s);
    addr, port := p.value, BigEndian16(s[4 + p.used], s[5 + p.used]);
    ConnectRequestBytes(s, p);
    var req := EncodeRequest(CMD_CONNECT, addr, port);
    var rest := s[|req|..];
    SplitAt(s, |req|);
    assert s == req + rest;
    RequestOfEncoded(CMD_CONNECT, addr, port, rest);
    assert Request(s) == Dispatch(CMD_CONNECT, addr, port, |req|);
  }

  lemma SplitAt<T>(x: seq<T>, k: nat)
    requires k <= |x|
    ensures x == x[..k] + x[k..]
  {
  }

  /** The bytes of such a request re-encode its fields. */
  lemma ConnectRequestBytes(s: seq<byte>, p: Parsed<Address>)
    requires |s| >= 4 && s[0] == VERSION && s[1] == CMD_CONNECT && s[2] == RESERVED
    requires (s[3] == ADDR_TYPE_IP || s[3] == ADDR_TYPE_DOMAIN) && DecodeAddress(s[3], s[4..]) == Some(p)
    requires |s| >= 6 + p.used
    ensures var req := EncodeRequest(CMD_CONNECT, p.value, BigEndian16(s[4 + p.used], s[5 + p.used]));
      |req| == 6 + p.used && s[..|req|] == req
  {
    var hi, lo := s[4 + p.used], s[5 + p.used];
    DecodedAddressReencodes(s[3], s[4..]);
    var addrBytes := s[4..][..p.used];
    assert addrBytes == EncodeAddress(p.value);
    PortBytesRoundTrip(hi, lo);
    assert s[..4] == [VERSION, CMD_CONNECT, RESERVED, AddressType(p.value)];
    assert s[..6 + p.used] == s[..4] + addrBytes + [hi, lo];
  }

  /** The header and the address of a request the stage answers with CONNECT. */
  lemma RequestConnectHeader(s: seq<byte>) returns (p: Parsed<Address>)
    requires Request(s).outcome.Connect?
    ensures |s| >= 4 && s[0] == VERSION && s[1] == CMD_CONNECT && s[2] == RESERVED
    ensures (s[3] == ADDR_TYPE_IP || s[3] == ADDR_TYPE_DOMAIN) && DecodeAddress(s[3], s[4..]) == Some(p)
    ensures |s| >= 6 + p.used
  {
    p := DecodeAddress(s[3], s[4..]).value;
  }

  // ---------------------------------------------------------------------------
  // The handshake as the handler runs it: a cursor over the client's bytes,
  // replies written to the socket as soon as they are decided.

  /** `writeAck`: the reply frame, field by field. */
  method WriteAck(conn: Conn, rep: byte)
    modifies conn
    ensures conn.written == old(conn.written) + ReplyFrame(rep)
    ensures conn.closed == old(conn.closed)
  {
    var ok := conn.Write([VERSION], false);
    ok := conn.Write([rep], false);
    ok := conn.Write([RESERVED], false);
    ok := conn.Write([ADDR_TYPE_IP], false);
    ok := conn.Write([0, 0, 0, 0], false);
    ok := conn.Write(EncodePort(0), false);
    ReplyFrameBytes(rep);
    assert EncodePort(0) == [0, 0];
  }

  /** The greeting and the method reply, then the request stage on the bytes
      after the methods, whichever method byte was replied. */
  method ServeHandshake(conn: Conn, input: seq<byte>) returns (consumed: nat, outcome: Outcome)
    modifies conn
    ensures var hs := Handshake(input);
      conn.written == old(conn.written) + hs.output && consumed == hs.consumed && outcome == hs.outcome
    ensures conn.closed == old(conn.closed)
  {
    if |input| < 2 || |input| < 2 + input[1] as int {
      return |input|, Terminated(ShortRead);
    }
    var ver, nMethods := input[0], input[1];
    var methods := input[2..2 + nMethods as int];
    var pos := 2 + nMethods as int;
    var ok := conn.Write([VERSION], false);
    if ver != VERSION || nMethods != 1 || methods[0] != METHOD_NOT_REQUIRED {
      ok := conn.Write([METHOD_NO_ACCEPTABLE], false);
    } else {
      ok := conn.Write([METHOD_NOT_REQUIRED], false);
    }
    assert conn.written == old(conn.written) + MethodReply(ver, methods);
    var used;
    used, outcome := ServeRequest(conn, input[pos..]);
    AppendAssoc(old(conn.written), MethodReply(ver, methods), Request(input[pos..]).output);
    consumed := pos + used;
  }

  /** The request stage: the four header bytes, the address, the port and the
      dispatch on the command. */
  method ServeRequest(conn: Conn, s: seq<byte>) returns (consumed: nat, outcome: Outcome)
    modifies conn
    ensures var r := Request(s);
      conn.written == old(conn.written) + r.output && consumed == r.consumed && outcome == r.outcome
    ensures conn.closed == old(conn.closed)
  {
    if |s| < 4 {
      return |s|, Terminated(ShortRead);
    }
    var ver, cmd, reserved, addrType := s[0], s[1], s[2], s[3];
    var pos := 4;
    if ver != VERSION {
      return pos, Terminated(BadVersion);
    }
    if reserved != RESERVED {
      return pos, Terminated(BadReserved);
    }
    if addrType != ADDR_TYPE_IP && addrType != ADDR_TYPE_DOMAIN {
      WriteAck(conn, REP_ADDRESS_TYPE_NOT_SUPPORTED);
      return pos, Terminated(AddressTypeNotSupported);
    }
    var address: seq<byte>;
    if addrType == ADDR_TYPE_IP {
      if |s| < pos + 4 {
        return |s|, Terminated(ShortRead);
      }
      address := s[pos..pos + 4];
      assert DecodeAddress(addrType, s[4..]) == Some(Parsed(IPv4(address[0], address[1], address[2], address[3]), 4));
      pos := pos + 4;
    } else {
      if |s| < pos + 1 {
        return |s|, Terminated(ShortRead);
      }
      var domainLength := s[pos];
      pos := pos + 1;
      if |s| < pos + domainLength as int {
        return |s|, Terminated(ShortRead);
      }
      address := s[pos..pos + domainLength as int];
      assert s[4..][1..1 + domainLength as int] == address;
      assert DecodeAddress(addrType, s[4..]) == Some(Parsed(Domain(address), 1 + domainLength as int));
      pos := pos + domainLength as int;
    }
    if |s| < pos + 2 {
      return |s|, Terminated(ShortRead);
    }
    var port := BigEndian16(s[pos], s[pos + 1]);
    pos := pos + 2;
    ghost var target := if addrType == ADDR_TYPE_IP then IPv4(address[0], address[1], address[2], address[3])
                        else Domain(address);
    assert Request(s) == Dispatch(cmd, target, port, pos);
    if cmd == CMD_CONNECT {
      var hostPort;
      if addrType == ADDR_TYPE_IP {
        hostPort := JoinHostPort(DottedQuad(address[0], address[1], address[2], address[3]), Decimal(port));
      } else {
        hostPort := JoinHostPort(address, Decimal(port));
      }
      WriteAck(conn, REP_SUCCEED);
      return pos, Connect(hostPort);
    } else if cmd == CMD_BIND || cmd == CMD_UDP_ASSOCIATE {
      return pos, NoOp(cmd);
    } else {
      WriteAck(conn, REP_COMMAND_NOT_SUPPORTED);
      return pos, Terminated(CommandNotSupported);
    }
  }
}

# SOCKS5 bridge of the tunnel client, in Dafny

This project models the connection handler of the tunnel client
(`handleConnection` in `client/client.go`). The handler accepts a SOCKS5
(RFC 1928) conversation from a local program. It negotiates the
authentication method and reads the request. For a CONNECT request it opens
a logical session on the multiplexed transport and sends it the target as
host:port text. It waits for the remote end's dial acknowledgement, then
relays bytes both ways until one side stops.

The model has the following parts:

- `wire.dfy` (module `Wire`):
  - octets, and the protocol constants with their RFC 1928 values;
  - the big-endian 16-bit port that `read`/`write` decode and encode;
  - the decimal text of `strconv.Itoa`.
- `address.dfy` (module `Addresses`):
  - the address decoder (IPv4 or length-prefixed domain);
  - the host:port text sent to the remote end: IPv4 as dotted decimal, a domain verbatim, joined as `net.JoinHostPort` does since Go 1.9, including its brackets around a host that contains a colon.
- `handshake.dfy` (module `Protocol`):
  - the handshake as a pure function `Handshake` of the client's bytes. It returns the bytes written back, the bytes consumed, and the outcome: terminated with a reason, a BIND/UDP ASSOCIATE no-op, or CONNECT with a host:port payload.
  - the `writeAck` frame and a client-side reply decoder;
  - client-side encoders for greetings and requests, used to state round trips;
  - the imperative handler code (`ServeHandshake`, `ServeRequest`, `WriteAck`). It runs a cursor over the input and writes each reply to the socket as soon as it is decided, and is proved equal to the pure function.
- `transport.dfy` (module `Transport`): the socket (`Conn`) and the logical session (`Session`) as classes. They record what the handler does to them: bytes written, close, `Send` payloads, and the `FinishSend` and `FinishRead` calls. A session also records, as a ghost constant, the socket bytes already written when it was opened. This lets the model state the order of socket writes and session calls.
- `relay.dfy` (module `Relay`):
  - The `for { select { ... } }` loop is a method over a finite sequence of events: DATA messages (each carrying whether its socket write fails), stop signals, other session messages, local chunks, and the reader's error marker.
  - Its specification `RelayEffects` handles one event at a time.
  - An independent reference definition gives each effect as a filter over the events before the first one that ends the loop.
- `bridge.dfy` (module `Bridge`): the whole handler.
  - The handshake, then for CONNECT: a new session, `Send` of host:port, and the check of the acknowledgement's first byte.
  - Then the relay, and the deferred close of the socket once the handler returns.
  - `Connection` is its specification as a function of the client's bytes, the acknowledgement's data (absent while the handler still waits for it) and the relay events.
- `examples.dfy` (module `Examples`): the host:port payload for concrete targets.

The model keeps both of the source's departures from RFC 1928:

- After replying `METHOD_NO_ACCEPTABLE`, the handler still reads and processes the request (`Protocol.NegotiationDoesNotGateRequest`).
- The succeeded reply carries the bound address 0.0.0.0 and port 0 (`Protocol.ReplyFrameDecodes`).

The succeeded reply is written before the session is opened and before the dial outcome is known (`Bridge.HandleConnection`, `Bridge.SessionOpensAfterSucceededReply`). A rejected dial therefore leaves the client with a succeeded reply and a closed socket (`Bridge.ConnectOpensSession`).

## Model

| member | source | states |
|---|---|---|
| Wire.BigEndian16 | client/client.go:103-104 | a port read as a big-endian uint16 is below 65536 |
| Wire.EncodePortRoundTrip | client/client.go:176-182 | decoding the two bytes written for a port gives the port back |
| Wire.PortBytesRoundTrip | client/client.go:103-104 | encoding a decoded port gives back the two bytes that were read |
| Wire.EncodePort | client/client.go:173-182 | `binary.Write` of a uint16 is two bytes, and reading them back gives the port (with EncodePortRoundTrip) |
| Wire.Decimal | client/client.go:111 | the port text is non-empty, all decimal digits, and starts with '0' only for 0 |
| Wire.DecimalRoundTrip | client/client.go:111 | reading the decimal text back gives the number |
| Wire.DecimalHasNoSeparator | client/client.go:111 | decimal text contains neither ':' nor '.' |
| Addresses.DecodeAddress | client/client.go:93-102 | reads 4 bytes for IPv4 and 1 + length bytes for a domain, never past the input; the decoded address has the requested type |
| Addresses.AddressRoundTrip | client/client.go:93-102 | an encoded address decodes to itself and consumes exactly its encoding, whatever follows |
| Addresses.DecodedAddressReencodes | client/client.go:93-102 | the bytes a decode consumed encode its result; a decode fails only when the input is too short |
| Addresses.DottedQuad | client/client.go:110-111 | dotted-decimal IPv4 text has no colon, so it is never bracketed |
| Addresses.DottedQuadDeterminesAddress | client/client.go:110-111 | dotted-decimal text names exactly one IPv4 address |
| Addresses.HostPart | client/client.go:111-113 | the host part contains a colon exactly when the host does (brackets are added around such a host) |
| Addresses.JoinHostPort | client/client.go:111-113 | the joined text is the host part, one colon and the port text, with the port text after the last colon and a colon-free host kept verbatim at the front |
| Addresses.HostString | client/client.go:109-113 | the host of an IPv4 target is colon-free text; the host of a domain target is its bytes unchanged |
| Addresses.HostPort | client/client.go:108-114 | the payload is host, ':', decimal port, and the host is bracketed exactly when it contains a colon |
| Addresses.IPv4HostPort | client/client.go:109-111 | an IPv4 target is sent as dotted quad, ':', decimal port |
| Addresses.HostPortDeterminesTarget | client/client.go:108-114 | the host:port payload determines both the host text and the port |
| Protocol.ReplyFrame | client/client.go:167-174 | every reply frame is exactly 10 bytes |
| Protocol.ReplyFrameBytes | client/client.go:167-174 | the frame is VERSION, the code, RESERVED, ADDR_TYPE_IP, four zero bytes and a zero port |
| Protocol.ReplyFrameDecodes | client/client.go:167-174 | a SOCKS5 client parses each frame as a reply with the given code, bound address 0.0.0.0 and port 0 |
| Protocol.WriteAck | client/client.go:167-174 | the six writes put exactly the reply frame on the socket |
| Protocol.MethodReply | client/client.go:70-75 | the method reply is two bytes: VERSION, then METHOD_NOT_REQUIRED iff the version matches and the only method offered is METHOD_NOT_REQUIRED, else METHOD_NO_ACCEPTABLE |
| Protocol.Dispatch | client/client.go:106-163 | the switch on the command: CONNECT exactly when the command is CONNECT, with that target's host:port and the succeeded reply. BIND and UDP ASSOCIATE write nothing. Every other command writes one command-not-supported reply and ends the handler. The request's length is the amount consumed |
| Protocol.Request | client/client.go:77-163 | the request stage never consumes more than it was given |
| Protocol.Handshake | client/client.go:64-163 | the handshake never consumes more than the client sent |
| Protocol.ServeHandshake | client/client.go:64-81 | the cursor-based handler writes exactly Handshake's output, consumes as much and reaches the same outcome |
| Protocol.ServeRequest | client/client.go:77-163 | the request code writes exactly Request's output, consumes as much and reaches the same outcome |
| Protocol.CompleteGreeting | client/client.go:64-69 | the handshake gets past the greeting only when all of it arrived, and then it is the method reply followed by the request stage |
| Protocol.HandshakeSplits | client/client.go:64-81 | after any complete greeting the handler writes the method reply and runs the request stage on exactly the following bytes |
| Protocol.MethodNegotiation | client/client.go:66-75 | on every complete greeting the output starts with the two-byte method reply decided as above |
| Protocol.NegotiationDoesNotGateRequest | client/client.go:70-81 | accepted or rejected, two greetings followed by the same bytes lead to the same request processing and outcome |
| Protocol.RejectedNegotiationReadsHeader | client/client.go:70-81 | after METHOD_NO_ACCEPTABLE the four header bytes are still read |
| Protocol.BadHeaderEndsSilently | client/client.go:82-87 | a wrong version or reserved byte ends the handler after the method reply, with no more output and nothing read past the header |
| Protocol.UnsupportedAddressTypeRejected | client/client.go:88-91 | any other address type gets exactly one address-type-not-supported reply and nothing past the header is read |
| Protocol.RequestRoundTrip | client/client.go:77-163 | a well-formed request is consumed exactly. CONNECT writes the succeeded reply and yields its host:port. BIND and UDP ASSOCIATE write nothing. Any other command writes one command-not-supported reply |
| Protocol.RequestOfEncoded | client/client.go:93-163 | the request stage reads an encoded request exactly and dispatches on its command |
| Protocol.ConnectDecomposes | client/client.go:64-116 | every CONNECT outcome comes from a complete greeting and a well-formed CONNECT request, consumed exactly, with the succeeded reply last in the output |
| Protocol.RequestConnectDecomposes | client/client.go:77-116 | the request stage yields CONNECT only on a well-formed CONNECT request, which it consumes exactly |
| Protocol.RequestConnectHeader | client/client.go:77-104 | a CONNECT outcome implies a valid header, command CONNECT, a decodable address and two port bytes |
| Protocol.ConnectRequestBytes | client/client.go:93-104 | the bytes of such a request are the encoding of its decoded fields |
| Transport.Conn.Write | client/client.go:143 | a write reports failure exactly when it fails, and appends the data only on success |
| Transport.Conn.Close | client/client.go:59-62 | closing keeps the bytes already written |
| Transport.Session.constructor | client/client.go:118 | a new session has seen no payloads and no finish calls, and records the socket bytes written before it was opened |
| Transport.Session.Send | client/client.go:119 | Send appends one payload and changes nothing else |
| Transport.Session.FinishSend | client/client.go:152 | FinishSend is counted once and changes nothing else |
| Transport.Session.FinishRead | client/client.go:144 | FinishRead is counted once and changes nothing else |
| Relay.EventEffects | client/client.go:141-155 | one select case: an ending event writes and sends nothing and leaves the loop; any other event keeps the rest's exit and FinishRead count |
| Relay.RelayEffects | client/client.go:139-157 | the loop's specification: it is still waiting exactly when no event so far ends it, and FinishRead is called once exactly when it ended on a failed write |
| Relay.HandleEvent | client/client.go:141-155 | one select case: its write, Send, FinishSend or FinishRead, and whether the loop returns |
| Relay.Relay | client/client.go:139-157 | the loop's socket bytes, Send payloads, finish calls and exit are those of RelayEffects |
| Relay.EventEffectsCases | client/client.go:141-155 | an ending event has only its own effect; any other event puts its effect ahead of the rest |
| Relay.EndIndex | client/client.go:139-157 | the position of the first stop signal or failed write, with no such event before it |
| Relay.RelayEffectsIsFiltered | client/client.go:139-157 | the loop's effects equal the reference filters over the events before the first ending event |
| Relay.RelayPassesThrough | client/client.go:141-155 | until something ends the loop, DATA payloads are written and chunks are sent unchanged and in order, and every error marker calls FinishSend |
| Relay.RelayEffectsAppend | client/client.go:139-157 | the effects of events that do not end the loop come, in order, ahead of those of what follows |
| Relay.StopIsFinal | client/client.go:147-148 | after a stop signal nothing more is written, sent or finished, even with DATA queued behind it |
| Relay.WriteFailureEndsRelay | client/client.go:142-146 | a failed socket write calls FinishRead once, ends the loop, and counts none of its bytes |
| Relay.ReadErrorKeepsRelaying | client/client.go:150-153 | a local read error calls FinishSend once, and the events after it are handled as if it were absent |
| Relay.AtMostOneReadError | client/client.go:126-137 | a well-formed reader emits at most one error marker |
| Relay.FinishSendAtMostOnce | client/client.go:126-153 | FinishSend is called at most once |
| Relay.ForwardedBounded | client/client.go:129-135 | if every chunk among the events is at most 4096 bytes, as the reader's buffer ensures, then so is every chunk the loop forwards |
| Relay.SentChunksBounded | client/client.go:129-154 | every payload passed to Send by the loop is at most 4096 bytes |
| Relay.SentIsPrefixOfLocalBytes | client/client.go:126-157 | the bytes sent into the session are a prefix of the bytes the reader read, in order |
| Bridge.Connection | client/client.go:57-165 | the handler's specification: its socket bytes start with the handshake output, and it sends into a session exactly for CONNECT |
| Bridge.SessionTrace | client/client.go:118-157 | host:port is the session's first payload. The relay runs exactly when the acknowledgement reports DIAL_OK. Otherwise nothing is written and nothing else is sent or finished |
| Bridge.HandleConnection | client/client.go:57-165 | the handler's socket bytes, session payloads, finish calls and exit are those of Connection. A session exists exactly for CONNECT, and it opens when the socket holds exactly the earlier bytes plus the handshake output. The socket is closed exactly when the handler has returned, not while it waits for the acknowledgement or for a relay event |
| Bridge.SessionOpensAfterSucceededReply | client/client.go:116-118 | the socket bytes when the session opens end with the method reply and then the succeeded reply |
| Bridge.OpenSession | client/client.go:118-157 | the new session opens on the socket as it stands, gets the host:port payload first, and the relay runs only after a DIAL_OK acknowledgement |
| Bridge.NoSessionWithoutConnect | client/client.go:82-163 | without CONNECT only the handshake replies are written and nothing goes into a session |
| Bridge.NothingFlowsBeforeDial | client/client.go:118-123 | the relay runs exactly for CONNECT with DIAL_OK. Otherwise nothing is relayed either way and the session carries only host:port |
| Bridge.ConnectOpensSession | client/client.go:106-123 | a session exists only for a well-formed CONNECT request, the output holds the method reply and the succeeded reply, and the session's first payload is that request's host:port. After a dial that is not accepted nothing more is written |
| Bridge.BridgeForwardsClientBytes | client/client.go:126-157 | when the local reader reads the client's bytes that follow its request, the session receives, after host:port, a prefix of those bytes, in order |
| Bridge.ConnectRelaysUntilStop | client/client.go:64-157 | for a greeting, a CONNECT request, an accepted dial and events up to a stop: the client gets the two replies and then exactly the DATA before the stop, and the session gets host:port and then exactly the chunks before it |
| Examples.IPv4Example | client/client.go:109-111 | 93.184.216.34 port 80 is sent as "93.184.216.34:80" |
| Examples.DomainExample | client/client.go:112-113 | example.com port 443 is sent as "example.com:443" |
| Examples.BracketedExample | client/client.go:111-113 | a host "::1" with port 22 is joined as "[::1]:22" |

## Left out

- `main` (client/client.go:20-55): the listener, the accept loop and the heartbeat ticker are network I/O and timers.
- The connection counter (client/client.go:58, 61) is concurrency bookkeeping. Only the deferred close of the socket is modelled.
- The reader goroutine and the `fromConn` channel (client/client.go:126-137), and the `select`'s choice between its two sources, are not modelled. The relay takes the order in which the `select` picks events as an input sequence. `ReaderWellFormed` states what the reader guarantees about that sequence.
- The transport engine (`gnet`) is not part of this model. A session only records `Send`, `FinishSend` and `FinishRead`. The first inbound message, which acknowledges the dial, is a separate input (`ack`). The relay sees only the messages after it.
- Protocol.Handshake: a read that finds too few bytes ends the handshake with `ShortRead`. The source ignores `binary.Read` errors and carries on with zero or earlier values, and what the reader library does on short input is not visible here. The model does not follow those continuations.
- Protocol.ServeHandshake: writes to the socket during the handshake are taken to succeed. The source ignores their errors, so a failing socket there is not modelled.
- Transport.Conn.Write: a write either delivers all its bytes or none; partial writes are not modelled.
- Bridge.HandleConnection: an acknowledgement with no data byte makes the source index out of range and panic. The model ends that connection with exit `Crashed` after the deferred close, but does not model the effect of the panic on the rest of the process.
- The wait for the acknowledgement (client/client.go:120) has no timeout. An absent acknowledgement models a handler still blocked there (exit `AwaitingDial`), with the socket open. What happens if it never arrives is not modelled.
- Relay.Relay: the events are a finite sequence. A loop still waiting when they run out ends with exit `Running`, and the handler has not returned, so the socket stays open. Waiting forever is not modelled.
- Logging (client/client.go:124) and the empty `msg` helper (client/client.go:184-185).
- The protocol constants are defined in a file that is not part of this model. They take their RFC 1928 values.
- `ip.String()` is modelled only for IPv4 addresses, which is all the handler builds.
- Addresses.HostPart: follows `net.JoinHostPort` of Go 1.9 and later, which brackets a host only when it contains a colon. Earlier releases also bracketed a host containing '%'; that behaviour is not modelled.

/** The address decoder: the address-type-tagged target of a SOCKS5 request
    (RFC 1928, section 5) and the host:port text the bridge sends to the remote
    end (`net.IPv4(...).String()`, the domain bytes verbatim, `strconv.Itoa`
    for the port, joined by `net.JoinHostPort`). */
module Addresses {
  import opened Wire

  /** A decoded target: four IPv4 octets or the bytes of a domain name. */
  datatype Address = IPv4(a: byte, b: byte, c: byte, d: byte) | Domain(name: seq<byte>)

  /** A domain name fits behind its one length byte. */
  predicate ValidAddress(addr: Address) {
    addr.Domain? ==> |addr.name| < 256
  }

  function AddressType(addr: Address): byte {
    if addr.IPv4? then ADDR_TYPE_IP else ADDR_TYPE_DOMAIN
  }

  /** The bytes a client puts after the address-type byte. */
  function EncodeAddress(addr: Address): (r: seq<byte>)
    requires ValidAddress(addr)
  {
    match addr
    case IPv4(a, b, c, d) => [a, b, c, d]
    case Domain(name) => [|name|] + name
  }

  /** Reads an address of the given type from the front of `s`: four octets for
      IPv4, a length byte and that many bytes for a domain. None when `s` ends
      first. The caller has already rejected every other address type. */
  function DecodeAddress(addrType: byte, s: seq<byte>): (r: Option<Parsed<Address>>)
    requires addrType == ADDR_TYPE_IP || addrType == ADDR_TYPE_DOMAIN
    ensures r.Some? ==> r.value.used <= |s| && ValidAddress(r.value.value)
    ensures r.Some? ==> AddressType(r.value.value) == addrType
    ensures r.Some? && addrType == ADDR_TYPE_IP ==> r.value.used == 4
    ensures r.Some? && addrType == ADDR_TYPE_DOMAIN ==> |s| > 0 && r.value.used == 1 + s[0] as int
  {
    if addrType == ADDR_TYPE_IP then
      if |s| < 4 then None else Some(Parsed(IPv4(s[0], s[1], s[2], s[3]), 4))
    else
      if |s| == 0 || |s| < 1 + s[0] as int then None else Some(Parsed(Domain(s[1..1 + s[0] as int]), 1 + s[0] as int))
  }

  /** Decoding an encoded address gives it back and consumes exactly its encoding,
      whatever follows it. */
  lemma AddressRoundTrip(addr: Address, rest: seq<byte>)
    requires ValidAddress(addr)
    ensures DecodeAddress(AddressType(addr), EncodeAddress(addr) + rest)
         == Some(Parsed(addr, |EncodeAddress(addr)|))
  {
    var s := EncodeAddress(addr) + rest;
    if addr.Domain? {
      assert s[1..1 + |addr.name|] == addr.name;
    }
  }

  /** The bytes a successful decode consumed are the encoding of what it returned,
      and a decode fails only when the input is too short. */
  lemma DecodedAddressReencodes(addrType: byte, s: seq<byte>)
    requires addrType == ADDR_TYPE_IP || addrType == ADDR_TYPE_DOMAIN
    ensures DecodeAddress(addrType, s).Some? ==>
      var p := DecodeAddress(addrType, s).value; s[..p.used] == EncodeAddress(p.value)
    ensures DecodeAddress(addrType, s).None? ==>
      |s| < (if addrType == ADDR_TYPE_IP then 4 else if s == [] then 1 else 1 + s[0] as int)
  {
    if addrType == ADDR_TYPE_DOMAIN && DecodeAddress(addrType, s).Some? {
      var p := DecodeAddress(addrType, s).value;
      assert s[..p.used] == [s[0]] + s[1..1 + s[0] as int];
    }
  }

  /** `ip.String()` of an IPv4 address: dotted decimal. */
  function DottedQuad(a: byte, b: byte, c: byte, d: byte): (r: seq<byte>)
    ensures COLON !in r
  {
    DecimalHasNoSeparator(a);
    DecimalHasNoSeparator(b);
    DecimalHasNoSeparator(c);
    DecimalHasNoSeparator(d);
    Decimal(a) + [DOT] + Decimal(b) + [DOT] + Decimal(c) + [DOT] + Decimal(d)
  }

  /** Dotted decimal text names exactly one IPv4 address. */
  lemma DottedQuadDeterminesAddress(a1: byte, b1: byte, c1: byte, d1: byte,
                                    a2: byte, b2: byte, c2: byte, d2: byte)
    requires DottedQuad(a1, b1, c1, d1) == DottedQuad(a2, b2, c2, d2)
    ensures a1 == a2 && b1 == b2 && c1 == c2 && d1 == d2
  {
    DecimalHasNoSeparator(b1); DecimalHasNoSeparator(b2);
    DecimalHasNoSeparator(c1); DecimalHasNoSeparator(c2);
    DecimalHasNoSeparator(d1); DecimalHasNoSeparator(d2);
    SplitAtLast(Decimal(a1) + [DOT] + Decimal(b1) + [DOT] + Decimal(c1), Decimal(d1),
                Decimal(a2) + [DOT] + Decimal(b2) + [DOT] + Decimal(c2), Decimal(d2), DOT);
    SplitAtLast(Decimal(a1) + [DOT] + Decimal(b1), Decimal(c1),
                Decimal(a2) + [DOT] + Decimal(b2), Decimal(c2), DOT);
    SplitAtLast(Decimal(a1), Decimal(b1), Decimal(a2), Decimal(b2), DOT);
    DecimalRoundTrip(a1); DecimalRoundTrip(a2);
    DecimalRoundTrip(b1); DecimalRoundTrip(b2);
    DecimalRoundTrip(c1); DecimalRoundTrip(c2);
    DecimalRoundTrip(d1); DecimalRoundTrip(d2);
  }

  /** The host as it stands before the port separator: `net.JoinHostPort`
      (Go 1.9 and later) brackets a host that contains a colon (an IPv6
      literal). */
  function HostPart(host: seq<byte>): (r: seq<byte>)
    ensures COLON in r <==> COLON in host
  {
    if COLON in host then [LEFT_BRACKET] + host + [RIGHT_BRACKET] else host
  }

  /** `net.JoinHostPort`: the host part, a colon, then the port text, which
      stands after the last colon whenever it has none of its own. */
  function JoinHostPort(host: seq<byte>, port: seq<byte>): (r: seq<byte>)
    ensures |r| == |HostPart(host)| + 1 + |port|
    ensures r[|r| - |port| - 1] == COLON && r[|r| - |port|..] == port
    ensures COLON !in host ==> r[..|host|] == host
  {
    HostPart(host) + [COLON] + port
  }

  /** The host text of a decoded address. */
  function HostString(addr: Address): (r: seq<byte>)
    ensures addr.IPv4? ==> COLON !in r
    ensures addr.Domain? ==> r == addr.name
  {
    match addr
    case IPv4(a, b, c, d) => DottedQuad(a, b, c, d)
    case Domain(name) => name
  }

  /** The host:port payload the bridge sends as the first message of a session. */
  function HostPort(addr: Address, port: nat): (r: seq<byte>)
    ensures COLON !in HostString(addr) ==> r == HostString(addr) + [COLON] + Decimal(port)
    ensures COLON in HostString(addr) ==>
      r == [LEFT_BRACKET] + HostString(addr) + [RIGHT_BRACKET, COLON] + Decimal(port)
  {
    JoinHostPort(HostString(addr), Decimal(port))
  }

  /** An IPv4 target is never bracketed: its payload is the dotted quad, a
      colon, and the decimal port. */
  lemma IPv4HostPort(a: byte, b: byte, c: byte, d: byte, port: nat)
    ensures HostPort(IPv4(a, b, c, d), port) == DottedQuad(a, b, c, d) + [COLON] + Decimal(port)
  {
  }

  /** The host:port payload determines the host text and the port: the remote end
      can split it at its last colon. */
  lemma HostPortDeterminesTarget(h1: seq<byte>, p1: nat, h2: seq<byte>, p2: nat)
    requires JoinHostPort(h1, Decimal(p1)) == JoinHostPort(h2, Decimal(p2))
    ensures h1 == h2 && p1 == p2
  {
    DecimalHasNoSeparator(p1);
    DecimalHasNoSeparator(p2);
    SplitAtLast(HostPart(h1), Decimal(p1), HostPart(h2), Decimal(p2), COLON);
    DecimalRoundTrip(p1);
    DecimalRoundTrip(p2);
    if COLON in h1 {
      assert h1 == HostPart(h1)[1..|HostPart(h1)| - 1];
      assert h2 == HostPart(h2)[1..|HostPart(h2)| - 1];
    }
  }
}

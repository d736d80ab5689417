/** Octets on the wire, the SOCKS5 constants of RFC 1928, and the two integer
    encodings the bridge uses: a big-endian 16-bit port and decimal text. */
module Wire {

  /** One octet of the client stream or of a session payload. */
  type byte = x: int | 0 <= x < 256

  datatype Option<T> = None | Some(value: T)

  /** A value decoded from the front of a byte stream and the number of bytes it took. */
  datatype Parsed<T> = Parsed(value: T, used: nat)

  // SOCKS5 protocol constants (RFC 1928, sections 3 to 6).
  const VERSION: byte := 0x05
  const METHOD_NOT_REQUIRED: byte := 0x00
  const METHOD_NO_ACCEPTABLE: byte := 0xFF
  const RESERVED: byte := 0x00
  const ADDR_TYPE_IP: byte := 0x01
  const ADDR_TYPE_DOMAIN: byte := 0x03
  const CMD_CONNECT: byte := 0x01
  const CMD_BIND: byte := 0x02
  const CMD_UDP_ASSOCIATE: byte := 0x03
  const REP_SUCCEED: byte := 0x00
  const REP_COMMAND_NOT_SUPPORTED: byte := 0x07
  const REP_ADDRESS_TYPE_NOT_SUPPORTED: byte := 0x08

  /** First payload byte with which the remote end reports that it reached the target. */
  const DIAL_OK: byte := 1

  // ASCII characters of host:port text.
  const DOT: byte := 0x2E
  const COLON: byte := 0x3A
  const LEFT_BRACKET: byte := 0x5B
  const RIGHT_BRACKET: byte := 0x5D
  const DIGIT_ZERO: byte := 0x30

  /** Number of values of an unsigned 16-bit port. */
  const PORT_LIMIT: nat := 0x1_0000

  /** The port read by `binary.Read` into a uint16 in big-endian order. */
  function BigEndian16(hi: byte, lo: byte): (port: nat)
    ensures port < PORT_LIMIT
  {
    hi * 256 + lo
  }

  /** The two bytes `binary.Write` emits for a uint16 in big-endian order. */
  function EncodePort(port: nat): (r: seq<byte>)
    requires port < PORT_LIMIT
    ensures |r| == 2
  {
    [port / 256, port % 256]
  }

  /** Encoding then decoding a port gives it back. */
  lemma EncodePortRoundTrip(port: nat)
    requires port < PORT_LIMIT
    ensures BigEndian16(EncodePort(port)[0], EncodePort(port)[1]) == port
  {
  }

  /** Decoding then encoding a port gives back the two bytes. */
  lemma PortBytesRoundTrip(hi: byte, lo: byte)
    ensures EncodePort(BigEndian16(hi, lo)) == [hi, lo]
  {
    var p := BigEndian16(hi, lo);
    assert p / 256 == hi && p % 256 == lo;
  }

  predicate IsDigit(b: byte) {
    DIGIT_ZERO <= b < DIGIT_ZERO + 10
  }

  predicate AllDigits(s: seq<byte>) {
    forall i :: 0 <= i < |s| ==> IsDigit(s[i])
  }

  /** Decimal text of n as `strconv.Itoa` writes it: digits only, and a leading
      zero only for n == 0. */
  function Decimal(n: nat): (r: seq<byte>)
    ensures 1 <= |r| && AllDigits(r)
    ensures r[0] == DIGIT_ZERO ==> n == 0
    decreases n
  {
    if n < 10 then [DIGIT_ZERO + n] else Decimal(n / 10) + [DIGIT_ZERO + n % 10]
  }

  /** The number a string of decimal digits denotes (the reader's side of Decimal). */
  function DecimalValue(s: seq<byte>): nat
    requires AllDigits(s)
  {
    if s == [] then 0 else DecimalValue(s[..|s| - 1]) * 10 + (s[|s| - 1] - DIGIT_ZERO)
  }

  lemma {:induction false} DecimalRoundTrip(n: nat)
    ensures DecimalValue(Decimal(n)) == n
    decreases n
  {
    if n >= 10 {
      var r := Decimal(n);
      assert r[..|r| - 1] == Decimal(n / 10);
      DecimalRoundTrip(n / 10);
    }
  }

  /** Decimal text has no separator characters in it. */
  lemma DecimalHasNoSeparator(n: nat)
    ensures COLON !in Decimal(n) && DOT !in Decimal(n)
  {
  }

  /** A separator that does not occur after its last occurrence splits a
      sequence in exactly one way. */
  lemma SplitAtLast(x1: seq<byte>, t1: seq<byte>, x2: seq<byte>, t2: seq<byte>, c: byte)
    requires c !in t1 && c !in t2
    requires x1 + [c] + t1 == x2 + [c] + t2
    ensures x1 == x2 && t1 == t2
  {
    var s := x1 + [c] + t1;
    assert s == x2 + [c] + t2;
    assert s[|x1|] == c && s[|x2|] == c;
    assert |x1| == |x2|;
    assert x1 == s[..|x1|] == x2;
    assert t1 == s[|x1| + 1..] == t2;
  }

  lemma AppendAssoc<T>(a: seq<T>, b: seq<T>, c: seq<T>)
    ensures a + b + c == a + (b + c)
  {
  }
}

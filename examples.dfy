/** Worked examples of the host:port payload on concrete targets; the byte
    values are the ASCII codes of the text shown in each comment. */
module Examples {
  import opened Wire
  import opened Addresses

  /** The IPv4 target 93.184.216.34, port 80, is sent as "93.184.216.34:80". */
  lemma IPv4Example()
    ensures HostPort(IPv4(93, 184, 216, 34), 80)
         == [57, 51, 46, 49, 56, 52, 46, 50, 49, 54, 46, 51, 52, 58, 56, 48]
  {
    assert Decimal(93) == [57, 51];
    assert Decimal(184) == [49, 56, 52];
    assert Decimal(216) == [50, 49, 54];
    assert Decimal(34) == [51, 52];
    assert DottedQuad(93, 184, 216, 34) == [57, 51, 46, 49, 56, 52, 46, 50, 49, 54, 46, 51, 52];
    assert Decimal(80) == [56, 48];
    IPv4HostPort(93, 184, 216, 34, 80);
  }

  /** The domain target "example.com", port 443, is sent as "example.com:443". */
  lemma DomainExample()
    ensures HostPort(Domain([101, 120, 97, 109, 112, 108, 101, 46, 99, 111, 109]), 443)
         == [101, 120, 97, 109, 112, 108, 101, 46, 99, 111, 109, 58, 52, 52, 51]
  {
    var name: seq<byte> := [101, 120, 97, 109, 112, 108, 101, 46, 99, 111, 109];
    assert COLON !in name;
    assert Decimal(443) == [52, 52, 51];
  }

  /** An IPv6 literal host is bracketed: "::1" with port 22 becomes "[::1]:22". */
  lemma BracketedExample()
    ensures JoinHostPort([58, 58, 49], Decimal(22)) == [91, 58, 58, 49, 93, 58, 50, 50]
  {
    assert COLON in [58, 58, 49];
    assert Decimal(22) == [50, 50];
  }
}

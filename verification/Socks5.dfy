/** The SOCKS5 server handshake (sections 3 to 5 of RFC 1928) and the channel label
    that carries its target to the other peer. */
module Socks5 {
  import opened Basics
  import opened Bytes

  const Version: byte := 5
  const CmdConnect: byte := 1
  const AuthNone: byte := 0
  const AuthNoAccept: byte := 0xFF
  const TypeIPv4: byte := 1
  const TypeDomain: byte := 3
  const TypeIPv6: byte := 4

  datatype SocksError =
    | EndOfStream | UnsupportedVersion | NoAcceptableMethod | WriteFailed
    | UnsupportedCommand | UnsupportedAddressType

  /** What is outside the handshake: how an IP address prints, and whether the
      method selection can be written. */
  datatype Env = Env(ipText: seq<byte> -> seq<byte>, writable: bool)

  datatype Outcome = Outcome(target: Result<seq<byte>, SocksError>, consumed: nat, replies: seq<seq<byte>>)

  // ---------- text ----------

  const Colon: byte := 0x3A
  const Pipe: byte := 0x7C

  predicate IsDigit(c: byte) { 0x30 <= c <= 0x39 }

  function Decimal(n: nat): (s: seq<byte>)
    ensures s != [] && forall i :: 0 <= i < |s| ==> IsDigit(s[i])
  {
    if n < 10 then [0x30 + n] else Decimal(n / 10) + [0x30 + n % 10]
  }

  function DecimalValue(s: seq<byte>): nat
    requires forall i :: 0 <= i < |s| ==> IsDigit(s[i])
  {
    if s == [] then 0
    else
      var n := |s| - 1;
      assert IsDigit(s[n]);
      DecimalValue(s[..n]) * 10 + (s[n] as int - 0x30)
  }

  lemma {:induction false} DecimalRoundTrip(n: nat)
    ensures DecimalValue(Decimal(n)) == n
  {
    if n >= 10 {
      DecimalRoundTrip(n / 10);
      assert Decimal(n)[..|Decimal(n)| - 1] == Decimal(n / 10);
    } else {
      assert Decimal(n)[..0] == [];
    }
  }

  /** No leading zero: one text per number. */
  lemma {:induction false} DecimalCanonical(n: nat)
    ensures n >= 10 ==> |Decimal(n)| > 1
    ensures |Decimal(n)| > 1 ==> Decimal(n)[0] != 0x30
  {
    if n >= 10 {
      DecimalCanonical(n / 10);
      assert Decimal(n)[0] == Decimal(n / 10)[0];
    }
  }

  function JoinHostPort(host: seq<byte>, port: nat): (t: seq<byte>)
    ensures t != []
  {
    (if Colon in host then [0x5B] + host + [0x5D] else host) + [Colon] + Decimal(port)
  }

  /** The written form: brackets exactly around a host with a colon, as in an IPv6
      address, then a colon and the port in decimal digits. */
  lemma TargetTextExactly(host: seq<byte>, port: nat) returns (digits: seq<byte>)
    ensures forall i :: 0 <= i < |digits| ==> IsDigit(digits[i])
    ensures DecimalValue(digits) == port && (|digits| > 1 ==> digits[0] != 0x30)
    ensures 0x3A !in host ==> JoinHostPort(host, port) == host + [0x3A] + digits
    ensures 0x3A in host ==> JoinHostPort(host, port) == [0x5B] + host + [0x5D, 0x3A] + digits
  {
    digits := Decimal(port);
    DecimalRoundTrip(port);
    DecimalCanonical(port);
    assert [0x5B] + host + [0x5D] + [0x3A] == [0x5B] + host + [0x5D, 0x3A];
  }

  // ---------- the handshake as a function of the bytes that will arrive ----------

  datatype AddrOutcome = AddrOutcome(host: Result<seq<byte>, SocksError>, consumed: nat)

  function ReadAddr(bs: seq<byte>, addrType: byte, ipText: seq<byte> -> seq<byte>): (r: AddrOutcome)
    ensures r.consumed <= |bs|
  {
    if addrType == TypeIPv4 then
      if |bs| < 4 then AddrOutcome(Err(EndOfStream), |bs|) else AddrOutcome(Ok(ipText(bs[..4])), 4)
    else if addrType == TypeDomain then
      if |bs| < 1 || |bs| < 1 + bs[0] as int then AddrOutcome(Err(EndOfStream), |bs|)
      else AddrOutcome(Ok(bs[1..1 + bs[0] as int]), 1 + bs[0] as int)
    else if addrType == TypeIPv6 then
      if |bs| < 16 then AddrOutcome(Err(EndOfStream), |bs|) else AddrOutcome(Ok(ipText(bs[..16])), 16)
    else AddrOutcome(Err(UnsupportedAddressType), 0)
  }

  /** The request that follows the method selection. */
  function ReadRequest(bs: seq<byte>, ipText: seq<byte> -> seq<byte>): (r: AddrOutcome)
    ensures r.consumed <= |bs|
  {
    if |bs| < 4 then AddrOutcome(Err(EndOfStream), |bs|)
    else if bs[0] != Version then AddrOutcome(Err(UnsupportedVersion), 4)
    else if bs[1] != CmdConnect then AddrOutcome(Err(UnsupportedCommand), 4)
    else
      var a := ReadAddr(bs[4..], bs[3], ipText);
      if a.host.Err? then AddrOutcome(a.host, 4 + a.consumed)
      else ReadPort(bs, a.host.value, 4 + a.consumed)
  }

  function ReadPort(bs: seq<byte>, host: seq<byte>, at: nat): (r: AddrOutcome)
    requires at <= |bs|
    ensures r.consumed <= |bs|
  {
    if |bs| - at < 2 then AddrOutcome(Err(EndOfStream), |bs|)
    else AddrOutcome(Ok(JoinHostPort(host, BigEndianValue(bs[at..at + 2]))), at + 2)
  }

  function Handshake(bs: seq<byte>, env: Env): (r: Outcome)
    ensures r.consumed <= |bs|
  {
    if |bs| < 2 then Outcome(Err(EndOfStream), |bs|, [])
    else if bs[0] != Version then Outcome(Err(UnsupportedVersion), 2, [])
    else if |bs| < 2 + bs[1] as int then Outcome(Err(EndOfStream), |bs|, [])
    else
      var n := 2 + bs[1] as int;
      if AuthNone !in bs[2..n] then Outcome(Err(NoAcceptableMethod), n, [[Version, AuthNoAccept]])
      else if !env.writable then Outcome(Err(WriteFailed), n, [[Version, AuthNone]])
      else
        var r := ReadRequest(bs[n..], env.ipText);
        Outcome(r.host, n + r.consumed, [[Version, AuthNone]])
  }

  // ---------- well-formed clients ----------

  datatype Address = IPv4(octets: seq<byte>) | Domain(name: seq<byte>) | IPv6(octets: seq<byte>)

  datatype Client = Client(methods: seq<byte>, reserved: byte, address: Address, port: nat)

  predicate WellFormed(c: Client)
  {
    && AuthNone in c.methods && |c.methods| < 0x100
    && (match c.address
        case IPv4(o) => |o| == 4
        case Domain(n) => |n| < 0x100
        case IPv6(o) => |o| == 16)
    && c.port < 0x1_0000
  }

  function EncodeAddress(a: Address): seq<byte>
    requires a.Domain? ==> |a.name| < 0x100
  {
    match a
    case IPv4(o) => o
    case Domain(n) => [|n|] + n
    case IPv6(o) => o
  }

  function TypeOf(a: Address): byte
  {
    match a
    case IPv4(_) => TypeIPv4
    case Domain(_) => TypeDomain
    case IPv6(_) => TypeIPv6
  }

  function EncodeRequest(c: Client): seq<byte>
    requires WellFormed(c)
  {
    [Version, CmdConnect, c.reserved, TypeOf(c.address)] + EncodeAddress(c.address) + BigEndian(c.port, 2)
  }

  function Encode(c: Client): seq<byte>
    requires WellFormed(c)
  {
    [Version, |c.methods|] + c.methods + EncodeRequest(c)
  }

  function HostText(a: Address, ipText: seq<byte> -> seq<byte>): seq<byte>
  {
    if a.Domain? then a.name else ipText(a.octets)
  }

  function TargetOf(c: Client, ipText: seq<byte> -> seq<byte>): seq<byte>
  {
    JoinHostPort(HostText(c.address, ipText), c.port)
  }

  /** The client's bytes as RFC 1928 lays them out: sections 3 and 4 for the two
      headers, section 5 for the three address forms. */
  lemma ClientWireForm(c: Client)
    requires WellFormed(c)
    ensures var port := [c.port / 0x100, c.port % 0x100];
            Encode(c) == [5, |c.methods|] + c.methods
                         + match c.address
                           case IPv4(o) => [5, 1, c.reserved, 1] + o + port
                           case Domain(n) => [5, 1, c.reserved, 3] + ([|n|] + n) + port
                           case IPv6(o) => [5, 1, c.reserved, 4] + o + port
  {
    assert BigEndian(c.port / 0x100, 1) == [c.port / 0x100];
    assert BigEndian(c.port, 2) == [c.port / 0x100, c.port % 0x100];
  }

  /** What is refused, by its first wrong byte, and what the client is told. */
  lemma RefusalsExactly(bs: seq<byte>, env: Env)
    requires |bs| >= 2
    ensures var o := Handshake(bs, env);
            var n := 2 + bs[1] as int;
            && (bs[0] != 5 ==> o.target == Err(UnsupportedVersion) && o.replies == [])
            && (bs[0] == 5 && |bs| >= n ==>
                  && (0 !in bs[2..n] ==> o.target == Err(NoAcceptableMethod) && o.replies == [[5, 0xFF]])
                  && (0 in bs[2..n] ==> o.replies == [[5, 0]] && (!env.writable ==> o.target == Err(WriteFailed)))
                  && (0 in bs[2..n] && env.writable && |bs| >= n + 4 ==>
                        && (bs[n] != 5 ==> o.target == Err(UnsupportedVersion))
                        && (bs[n] == 5 && bs[n + 1] != 1 ==> o.target == Err(UnsupportedCommand))
                        && (bs[n] == 5 && bs[n + 1] == 1 && bs[n + 3] !in {1, 3, 4} ==>
                              o.target == Err(UnsupportedAddressType))))
  {
  }

  lemma PartialAddress(a: Address, port: seq<byte>, k: nat, ipText: seq<byte> -> seq<byte>)
    requires match a case IPv4(o) => |o| == 4 case Domain(n) => |n| < 0x100 case IPv6(o) => |o| == 16
    requires k < |EncodeAddress(a)|
    ensures ReadAddr((EncodeAddress(a) + port)[..k], TypeOf(a), ipText) == AddrOutcome(Err(EndOfStream), k)
  {
    var bs := (EncodeAddress(a) + port)[..k];
    assert a.Domain? && k > 0 ==> bs[0] == EncodeAddress(a)[0];
  }

  lemma PartialRequest(c: Client, k: nat, ipText: seq<byte> -> seq<byte>)
    requires WellFormed(c) && k < |EncodeRequest(c)|
    ensures ReadRequest(EncodeRequest(c)[..k], ipText).host == Err(EndOfStream)
  {
    var a, p := EncodeAddress(c.address), BigEndian(c.port, 2);
    var bs := EncodeRequest(c)[..k];
    if k >= 4 {
      var head: seq<byte> := [Version, CmdConnect, c.reserved, TypeOf(c.address)];
      CutParts(head, [], a + p, k);
      assert head + [] + (a + p) == EncodeRequest(c);
      assert bs[4..] == (a + p)[..k - 4];
      assert bs[0] == Version && bs[1] == CmdConnect && bs[3] == TypeOf(c.address);
      if k - 4 < |a| {
        PartialAddress(c.address, p, k - 4, ipText);
        assert ReadAddr(bs[4..], bs[3], ipText).host == Err(EndOfStream);
      } else {
        var rest := p[..k - 4 - |a|];
        assert (a + p)[..k - 4] == a + rest;
        AddressAccepted(c.address, rest, ipText);
        assert ReadAddr(bs[4..], bs[3], ipText).consumed == |a|;
      }
    }
  }

  /** A client that has not finished is neither refused nor misread: every proper
      prefix of its bytes ends in a missing-bytes error. */
  lemma PartialClientIncomplete(c: Client, k: nat, env: Env)
    requires WellFormed(c) && env.writable && k < |Encode(c)|
    ensures Handshake(Encode(c)[..k], env).target == Err(EndOfStream)
  {
    var bs, n := Encode(c)[..k], 2 + |c.methods|;
    assert k >= 2 ==> bs[0] == Version && bs[1] as int == |c.methods|;
    if k >= n {
      CutParts([Version, |c.methods|], c.methods, EncodeRequest(c), k);
      PartialRequest(c, k - n, env.ipText);
    }
  }

  lemma CutParts(a: seq<byte>, b: seq<byte>, c: seq<byte>, k: nat)
    requires |a| + |b| <= k <= |a + b + c|
    ensures var s, n := (a + b + c)[..k], |a| + |b|;
            s[|a|..n] == b && s[n..] == c[..k - n]
  {
    var s, n := (a + b + c)[..k], |a| + |b|;
    assert forall i :: 0 <= i < |b| ==> s[|a| + i] == b[i];
    assert forall i :: 0 <= i < k - n ==> s[n + i] == c[i];
  }

  lemma PortRoundTrip(n: nat)
    requires n < 0x1_0000
    ensures BigEndianValue(BigEndian(n, 2)) == n
  {
    assert Pow256(1) == 0x100;
    assert Pow256(2) == 0x1_0000;
    BigEndianRoundTrip(n, 2);
  }

  lemma AddressAccepted(a: Address, rest: seq<byte>, ipText: seq<byte> -> seq<byte>)
    requires match a case IPv4(o) => |o| == 4 case Domain(n) => |n| < 0x100 case IPv6(o) => |o| == 16
    ensures ReadAddr(EncodeAddress(a) + rest, TypeOf(a), ipText)
         == AddrOutcome(Ok(HostText(a, ipText)), |EncodeAddress(a)|)
  {
    var bs := EncodeAddress(a) + rest;
    match a
    case IPv4(o) => assert bs[..4] == o;
    case Domain(n) => assert bs[1..1 + bs[0] as int] == n;
    case IPv6(o) => assert bs[..16] == o;
  }

  lemma RequestAccepted(c: Client, rest: seq<byte>, ipText: seq<byte> -> seq<byte>)
    requires WellFormed(c)
    ensures ReadRequest(EncodeRequest(c) + rest, ipText) == AddrOutcome(Ok(TargetOf(c, ipText)), |EncodeRequest(c)|)
  {
    var a, p := EncodeAddress(c.address), BigEndian(c.port, 2);
    var bs := EncodeRequest(c) + rest;
    assert bs[4..] == a + (p + rest);
    AddressAccepted(c.address, p + rest, ipText);
    assert bs[4 + |a|..4 + |a| + 2] == p;
    PortRoundTrip(c.port);
  }

  /** Every well-formed client is understood, and exactly its bytes are consumed. */
  lemma ClientAccepted(c: Client, payload: seq<byte>, env: Env)
    requires WellFormed(c) && env.writable
    ensures Handshake(Encode(c) + payload, env)
         == Outcome(Ok(TargetOf(c, env.ipText)), |Encode(c)|, [[Version, AuthNone]])
  {
    var rest := EncodeRequest(c) + payload;
    var hello: seq<byte> := [Version, |c.methods|];
    Regroup(hello, c.methods, EncodeRequest(c), payload);
    RequestAccepted(c, payload, env.ipText);
    GreetingAccepted(c.methods, rest, Encode(c) + payload, env);
  }

  lemma Regroup(a: seq<byte>, b: seq<byte>, c: seq<byte>, d: seq<byte>)
    ensures a + b + c + d == a + b + (c + d)
  {
  }

  lemma GreetingAccepted(methods: seq<byte>, rest: seq<byte>, bs: seq<byte>, env: Env)
    requires |methods| < 0x100 && AuthNone in methods && env.writable
    requires bs == [Version, |methods|] + methods + rest
    ensures var r := ReadRequest(rest, env.ipText);
            Handshake(bs, env) == Outcome(r.host, 2 + |methods| + r.consumed, [[Version, AuthNone]])
  {
    var n := 2 + |methods|;
    assert bs[2..n] == methods && bs[n..] == rest;
  }

  lemma AddressSound(bs: seq<byte>, t: byte, ipText: seq<byte> -> seq<byte>) returns (a: Address)
    requires ReadAddr(bs, t, ipText).host.Ok?
    ensures match a case IPv4(o) => |o| == 4 case Domain(n) => |n| < 0x100 case IPv6(o) => |o| == 16
    ensures var r := ReadAddr(bs, t, ipText);
            TypeOf(a) == t && bs[..r.consumed] == EncodeAddress(a) && r.host.value == HostText(a, ipText)
  {
    if t == TypeIPv4 {
      a := IPv4(bs[..4]);
    } else if t == TypeDomain {
      a := Domain(bs[1..1 + bs[0] as int]);
      assert bs[..1 + bs[0] as int] == [bs[0]] + bs[1..1 + bs[0] as int];
    } else {
      a := IPv6(bs[..16]);
    }
  }

  /** Nothing else is: a target is returned only for the bytes of a well-formed client. */
  lemma OnlyClientsAccepted(bs: seq<byte>, env: Env) returns (c: Client)
    requires Handshake(bs, env).target.Ok?
    ensures WellFormed(c) && env.writable
    ensures var r := Handshake(bs, env);
            bs[..r.consumed] == Encode(c) && r.target.value == TargetOf(c, env.ipText)
  {
    var n := 2 + bs[1] as int;
    c := RequestSound(bs[n..], bs[2..n], env.ipText);
    var used := ReadRequest(bs[n..], env.ipText).consumed;
    GreetingParts(bs, n, used);
  }

  lemma GreetingParts(bs: seq<byte>, n: nat, used: nat)
    requires 2 <= n && n + used <= |bs|
    ensures bs[..n + used] == [bs[0], bs[1]] + bs[2..n] + bs[n..][..used]
  {
  }

  lemma RequestParts(req: seq<byte>, at: nat)
    requires 4 <= at && at + 2 <= |req|
    ensures req[..at + 2] == [req[0], req[1], req[2], req[3]] + req[4..][..at - 4] + req[at..at + 2]
  {
  }

  lemma RequestSound(req: seq<byte>, methods: seq<byte>, ipText: seq<byte> -> seq<byte>) returns (c: Client)
    requires ReadRequest(req, ipText).host.Ok? && |methods| < 0x100 && AuthNone in methods
    ensures WellFormed(c) && c.methods == methods
    ensures var r := ReadRequest(req, ipText);
            req[..r.consumed] == EncodeRequest(c) && r.host.value == TargetOf(c, ipText)
  {
    var a := AddressSound(req[4..], req[3], ipText);
    var at := 4 + ReadAddr(req[4..], req[3], ipText).consumed;
    var pb := req[at..at + 2];
    BigEndianOfValue(pb);
    PortValueBounded(pb);
    c := Client(methods, req[2], a, BigEndianValue(pb));
    RequestParts(req, at);
  }

  lemma PortValueBounded(b: seq<byte>)
    requires |b| == 2
    ensures BigEndianValue(b) < 0x1_0000
  {
    BigEndianOfValue(b);
    assert Pow256(1) == 0x100;
    assert Pow256(2) == 0x1_0000;
  }

  // ---------- a connection that fragments its bytes ----------

  class Conn {
    var fragments: seq<seq<byte>>   // still to arrive, in the pieces reads will see
    var written: seq<seq<byte>>
    const env: Env

    ghost function Incoming(): seq<byte>
      reads this
    {
      Flatten(fragments)
    }

    constructor (fragments: seq<seq<byte>>, env: Env)
      ensures this.fragments == fragments && this.env == env && written == []
    {
      this.fragments, this.env, written := fragments, env, [];
    }

    /** Delivers some of the next fragment into buf[off..]. */
    method Read(buf: array<byte>, off: nat) returns (n: nat, eof: bool)
      requires off < buf.Length
      modifies this`fragments, buf
      ensures n <= buf.Length - off && buf[..off] == old(buf[..off])
      ensures buf[off..off + n] + Incoming() == old(Incoming())
      ensures eof ==> n == 0 && old(Incoming()) == []
      ensures !eof ==> Pieces(fragments) < old(Pieces(fragments))
    {
      if fragments == [] {
        return 0, true;
      }
      var f := fragments[0];
      n := if |f| <= buf.Length - off then |f| else buf.Length - off;
      forall i | 0 <= i < n {
        buf[off + i] := f[i];
      }
      if n == |f| {
        assert f[..n] == f;
        fragments := fragments[1..];
      } else {
        FragmentCut(fragments, n);
        fragments := [f[n..]] + fragments[1..];
      }
      assert buf[off..off + n] == f[..n];
      return n, false;
    }

    method Write(b: seq<byte>) returns (ok: bool)
      modifies this`written
      ensures written == old(written) + [b] && ok == env.writable
    {
      written := written + [b];
      ok := env.writable;
    }
  }

  function Pieces(fs: seq<seq<byte>>): nat
  {
    if fs == [] then 0 else 1 + |fs[0]| + Pieces(fs[1..])
  }

  lemma FragmentCut(fs: seq<seq<byte>>, n: nat)
    requires fs != [] && 0 < n < |fs[0]|
    ensures var gs := [fs[0][n..]] + fs[1..];
            fs[0][..n] + Flatten(gs) == Flatten(fs) && Pieces(gs) < Pieces(fs)
  {
    var gs := [fs[0][n..]] + fs[1..];
    assert gs[1..] == fs[1..];
    Rejoin(fs[0], n, Flatten(fs[1..]));
  }

  lemma Rejoin(f: seq<byte>, n: nat, t: seq<byte>)
    requires n <= |f|
    ensures f[..n] + (f[n..] + t) == f + t
  {
  }

  /** io.ReadFull: however the bytes are cut into fragments, either the next
      buf.Length bytes are delivered, or the stream ends first and is used up. */
  method ReadFull(conn: Conn, buf: array<byte>) returns (ok: bool)
    modifies conn`fragments, buf
    ensures ok <==> |old(conn.Incoming())| >= buf.Length
    ensures ok ==> buf[..] == old(conn.Incoming())[..buf.Length]
                   && conn.Incoming() == old(conn.Incoming())[buf.Length..]
    ensures !ok ==> conn.Incoming() == []
  {
    var got: nat := 0;
    ghost var all := conn.Incoming();
    while got < buf.Length
      invariant got <= buf.Length && buf[..got] + conn.Incoming() == all
      decreases Pieces(conn.fragments)
    {
      var n, eof := conn.Read(buf, got);
      assert buf[..got + n][..got] == buf[..got] && buf[..got + n][got..] == buf[got..got + n];
      Rejoin(buf[..got + n], got, conn.Incoming());
      if eof {
        return false;
      }
      got := got + n;
    }
    assert buf[..got] == buf[..] == all[..got];
    return true;
  }

  method HasMethod(methods: seq<byte>, want: byte) returns (found: bool)
    ensures found <==> want in methods
  {
    for i := 0 to |methods|
      invariant want !in methods[..i]
    {
      if methods[i] == want {
        return true;
      }
    }
    return false;
  }

  method ReadAddrFrom(conn: Conn, addrType: byte) returns (host: Result<seq<byte>, SocksError>)
    modifies conn`fragments
    ensures var o := ReadAddr(old(conn.Incoming()), addrType, conn.env.ipText);
            host == o.host && conn.Incoming() == old(conn.Incoming())[o.consumed..]
  {
    ghost var bs := conn.Incoming();
    if addrType == TypeIPv4 || addrType == TypeIPv6 {
      var buf := new byte[if addrType == TypeIPv4 then 4 else 16];
      var ok := ReadFull(conn, buf);
      if !ok {
        return Err(EndOfStream);
      }
      return Ok(conn.env.ipText(buf[..]));
    }
    if addrType == TypeDomain {
      var lenBuf := new byte[1];
      var ok := ReadFull(conn, lenBuf);
      if !ok {
        return Err(EndOfStream);
      }
      assert bs[0] == lenBuf[..][0];
      var domain := new byte[lenBuf[0]];
      ok := ReadFull(conn, domain);
      if !ok {
        return Err(EndOfStream);
      }
      assert bs[1..1 + bs[0] as int] == domain[..];
      return Ok(domain[..]);
    }
    return Err(UnsupportedAddressType);
  }

  method ReadPortFrom(conn: Conn, host: seq<byte>) returns (target: Result<seq<byte>, SocksError>)
    modifies conn`fragments
    ensures var bs := old(conn.Incoming());
            if |bs| < 2 then target == Err(EndOfStream) && conn.Incoming() == []
            else target == Ok(JoinHostPort(host, BigEndianValue(bs[..2]))) && conn.Incoming() == bs[2..]
  {
    var portBuf := new byte[2];
    var ok := ReadFull(conn, portBuf);
    if !ok {
      return Err(EndOfStream);
    }
    return Ok(JoinHostPort(host, BigEndianValue(portBuf[..])));
  }

  /** The fixed part of the request; gives the address type. */
  method ReadCommand(conn: Conn) returns (r: Result<byte, SocksError>)
    modifies conn`fragments
    ensures var bs := old(conn.Incoming());
            if |bs| < 4 then r == Err(EndOfStream) && conn.Incoming() == []
            else
              && conn.Incoming() == bs[4..]
              && r == if bs[0] != Version then Err(UnsupportedVersion)
                      else if bs[1] != CmdConnect then Err(UnsupportedCommand)
                      else Ok(bs[3])
  {
    var req := new byte[4];
    var ok := ReadFull(conn, req);
    if !ok {
      return Err(EndOfStream);
    }
    assert req[0] == req[..][0] && req[1] == req[..][1] && req[3] == req[..][3];
    if req[0] != Version {
      return Err(UnsupportedVersion);
    }
    if req[1] != CmdConnect {
      return Err(UnsupportedCommand);
    }
    return Ok(req[3]);
  }

  lemma PartsOfTail(bs: seq<byte>, i: nat, n: nat)
    requires i + n <= |bs|
    ensures bs[i..][..n] == bs[i..i + n] && bs[i..][n..] == bs[i + n..]
  {
  }

  method ReadRequestFrom(conn: Conn) returns (target: Result<seq<byte>, SocksError>)
    modifies conn`fragments
    ensures var o := ReadRequest(old(conn.Incoming()), conn.env.ipText);
            target == o.host && conn.Incoming() == old(conn.Incoming())[o.consumed..]
  {
    ghost var bs := conn.Incoming();
    var addrType := ReadCommand(conn);
    if addrType.Err? {
      return Err(addrType.error);
    }
    var host := ReadAddrFrom(conn, addrType.value);
    ghost var used := ReadAddr(bs[4..], bs[3], conn.env.ipText).consumed;
    PartsOfTail(bs, 4, used);
    if host.Err? {
      return host;
    }
    if |bs| - (4 + used) >= 2 {
      PartsOfTail(bs, 4 + used, 2);
    }
    target := ReadPortFrom(conn, host.value);
  }

  /** The methods the client offers. */
  method ReadMethods(conn: Conn) returns (r: Result<seq<byte>, SocksError>)
    modifies conn`fragments
    ensures var bs := old(conn.Incoming());
            if |bs| < 2 then r == Err(EndOfStream) && conn.Incoming() == []
            else if bs[0] != Version then r == Err(UnsupportedVersion) && conn.Incoming() == bs[2..]
            else if |bs| < 2 + bs[1] as int then r == Err(EndOfStream) && conn.Incoming() == []
            else r == Ok(bs[2..2 + bs[1] as int]) && conn.Incoming() == bs[2 + bs[1] as int..]
  {
    ghost var bs := conn.Incoming();
    var header := new byte[2];
    var ok := ReadFull(conn, header);
    if !ok {
      return Err(EndOfStream);
    }
    assert header[0] == header[..][0] && header[1] == header[..][1];
    if header[0] != Version {
      return Err(UnsupportedVersion);
    }
    var methods := new byte[header[1]];
    ok := ReadFull(conn, methods);
    if !ok {
      return Err(EndOfStream);
    }
    assert methods[..] == bs[2..][..header[1] as int] == bs[2..2 + bs[1] as int];
    return Ok(methods[..]);
  }

  /** The method reads exactly what the function on the whole stream says, under
      any fragmentation, and leaves the rest unread. */
  method ServeHandshake(conn: Conn) returns (target: Result<seq<byte>, SocksError>)
    modifies conn
    ensures var o := Handshake(old(conn.Incoming()), conn.env);
            && target == o.target
            && conn.Incoming() == old(conn.Incoming())[o.consumed..]
            && conn.written == old(conn.written) + o.replies
  {
    var methods := ReadMethods(conn);
    if methods.Err? {
      return Err(methods.error);
    }
    var offered := HasMethod(methods.value, AuthNone);
    if !offered {
      var _ := conn.Write([Version, AuthNoAccept]);
      return Err(NoAcceptableMethod);
    }
    var ok := conn.Write([Version, AuthNone]);
    if !ok {
      return Err(WriteFailed);
    }
    target := ReadRequestFrom(conn);
  }

  // ---------- the channel label ----------

  const LabelPrefix: seq<byte> := Ascii("socks5-")

  function MakeLabel(streamId: nat, target: seq<byte>): seq<byte>
  {
    LabelPrefix + Decimal(streamId) + [Pipe] + target
  }

  /** strings.Index(label, "|") */
  method IndexOfPipe(labelText: seq<byte>) returns (idx: int)
    ensures -1 <= idx < |labelText|
    ensures idx < 0 ==> Pipe !in labelText
    ensures idx >= 0 ==> labelText[idx] == Pipe && Pipe !in labelText[..idx]
  {
    for i := 0 to |labelText|
      invariant Pipe !in labelText[..i]
    {
      if labelText[i] == Pipe {
        return i;
      }
    }
    return -1;
  }

  /** Everything after the first '|', if there is anything. */
  ghost predicate LabelTarget(labelText: seq<byte>, target: seq<byte>)
  {
    exists head :: Pipe !in head && target != [] && labelText == head + [Pipe] + target
  }

  method ParseLabel(labelText: seq<byte>) returns (r: Option<seq<byte>>)
    ensures r.Some? ==> LabelTarget(labelText, r.value)
    ensures r.None? ==> forall t :: !LabelTarget(labelText, t)
  {
    var idx := IndexOfPipe(labelText);
    if idx < 0 || idx == |labelText| - 1 {
      forall t
        ensures !LabelTarget(labelText, t)
      {
        if LabelTarget(labelText, t) {
          var head :| Pipe !in head && t != [] && labelText == head + [Pipe] + t;
          FirstPipe(labelText, head, t, idx);
        }
      }
      return None;
    }
    assert labelText == labelText[..idx] + [Pipe] + labelText[idx + 1..];
    return Some(labelText[idx + 1..]);
  }

  lemma FirstPipe(labelText: seq<byte>, head: seq<byte>, t: seq<byte>, idx: int)
    requires Pipe !in head && labelText == head + [Pipe] + t
    requires -1 <= idx < |labelText| && (idx < 0 ==> Pipe !in labelText)
    requires (idx >= 0 ==> labelText[idx] == Pipe && Pipe !in labelText[..idx])
    ensures idx == |head|
  {
    assert labelText[|head|] == Pipe;
    assert forall i :: 0 <= i < |head| ==> labelText[i] == head[i];
    assert forall i :: 0 <= i < idx ==> labelText[..idx][i] == labelText[i];
  }

  lemma LabelTargetUnique(labelText: seq<byte>, t: seq<byte>, u: seq<byte>)
    requires LabelTarget(labelText, t) && LabelTarget(labelText, u)
    ensures t == u
  {
    var h :| Pipe !in h && t != [] && labelText == h + [Pipe] + t;
    var g :| Pipe !in g && u != [] && labelText == g + [Pipe] + u;
    assert labelText[..|h|] == h && labelText[|h|] == Pipe && labelText[|h| + 1..] == t;
    FirstPipe(labelText, g, u, |h|);
    assert labelText[|g| + 1..] == u;
  }

  lemma LabelHeadHasNoPipe(streamId: nat)
    ensures Pipe !in LabelPrefix + Decimal(streamId)
  {
    var s := "socks5-";
    assert forall i :: 0 <= i < |s| ==> s[i] != '|';
    assert LabelPrefix == [0x73, 0x6F, 0x63, 0x6B, 0x73, 0x35, 0x2D];
  }

  /** The target comes out of the label unchanged, whatever the stream number and
      even if the host contains '|'. */
  lemma LabelCarriesTarget(streamId: nat, target: seq<byte>)
    requires target != []
    ensures LabelTarget(MakeLabel(streamId, target), target)
    ensures forall t :: LabelTarget(MakeLabel(streamId, target), t) ==> t == target
  {
    LabelHeadHasNoPipe(streamId);
    var labelText := MakeLabel(streamId, target);
    assert LabelTarget(labelText, target);
    forall t | LabelTarget(labelText, t)
      ensures t == target
    {
      LabelTargetUnique(labelText, t, target);
    }
  }

  /** Labels name their stream: different stream numbers or targets, different labels. */
  lemma LabelInjective(i: nat, t: seq<byte>, j: nat, u: seq<byte>)
    requires t != [] && u != [] && MakeLabel(i, t) == MakeLabel(j, u)
    ensures i == j && t == u
    ensures Ascii("socks5-") <= MakeLabel(i, t)
  {
    LabelCarriesTarget(i, t);
    LabelCarriesTarget(j, u);
    var a, b := MakeLabel(i, t), MakeLabel(j, u);
    assert |Decimal(i)| == |Decimal(j)|;
    assert a[7..7 + |Decimal(i)|] == Decimal(i);
    assert b[7..7 + |Decimal(j)|] == Decimal(j);
    DecimalRoundTrip(i);
    DecimalRoundTrip(j);
  }

  /** From the client's bytes, in whatever fragments, to the expose side's dial
      target: for every client, stream number and payload. */
  method CarryTarget(c: Client, payload: seq<byte>, conn: Conn, streamId: nat) returns (dialled: Option<seq<byte>>)
    requires WellFormed(c) && conn.env.writable && conn.Incoming() == Encode(c) + payload
    modifies conn
    ensures dialled == Some(TargetOf(c, conn.env.ipText)) && conn.Incoming() == payload
  {
    ClientAccepted(c, payload, conn.env);
    var target := ServeHandshake(conn);
    assert (Encode(c) + payload)[|Encode(c)|..] == payload;
    LabelCarriesTarget(streamId, target.value);
    dialled := ParseLabel(MakeLabel(streamId, target.value));
  }

  // ---------- the target names one host and one port ----------

  lemma SuffixAfterLastColon(x: seq<byte>, d: seq<byte>, y: seq<byte>, e: seq<byte>)
    requires Colon !in d && Colon !in e && x + [Colon] + d == y + [Colon] + e
    ensures x == y && d == e
  {
    var s := x + [Colon] + d;
    assert s[|x|] == Colon && s[|y|] == Colon;
    assert forall i :: |x| < i < |s| ==> s[i] == d[i - |x| - 1];
    assert forall i :: |y| < i < |s| ==> s[i] == e[i - |y| - 1];
    assert s[..|x|] == x && s[..|y|] == y;
    assert s[|x| + 1..] == d && s[|y| + 1..] == e;
  }

  /** Two targets with the same text have the same host and the same port. */
  lemma TargetTextInjective(h: seq<byte>, p: nat, g: seq<byte>, q: nat)
    requires JoinHostPort(h, p) == JoinHostPort(g, q)
    ensures h == g && p == q
  {
    var x := if Colon in h then [0x5B] + h + [0x5D] else h;
    var y := if Colon in g then [0x5B] + g + [0x5D] else g;
    SuffixAfterLastColon(x, Decimal(p), y, Decimal(q));
    DecimalRoundTrip(p);
    DecimalRoundTrip(q);
    if Colon in h {
      assert x[1..|x| - 1] == h && Colon in x;
    }
    if Colon in g {
      assert y[1..|y| - 1] == g && Colon in y;
    }
  }
}

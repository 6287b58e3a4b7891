/** The payloads of Hello and Close packets. */
module ProxyControl {
  import opened Bytes
  import opened ProxyPacket
  import opened ProxyCodec

  const NETWORK_TCP: byte := 0
  const NETWORK_UDP: byte := 1
  const IPV4: byte := 0
  const IPV6: byte := 1
  const MIN_HELLO_LENGTH := 12

  type IPv4Addr = a: bytes | |a| == 4 witness [0, 0, 0, 0]

  /** The proxy target. IPv6 is a stub on both sides, so addresses are IPv4. */
  datatype Target = ProxyTarget(network: byte, ip: IPv4Addr, port: u16)

  function HighSix(b: byte): byte {
    b / 4 * 4
  }

  /** Two random upper parts hide the low two bits; address bytes alternate with junk. */
  function HelloBytes(t: Target, junk: bytes): (r: bytes)
    requires |junk| == 8
    ensures |r| == 12
  {
    [Or8(HighSix(junk[0]), t.network), Or8(HighSix(junk[1]), IPV4)] + Le16(t.port) +
    [t.ip[0], junk[2], t.ip[1], junk[3], t.ip[2], junk[4], t.ip[3], junk[5]]
  }

  datatype HelloError = BadHelloSize | BadNetwork | BadAddrType

  // HelloPanic: the IPv6 branch is not implemented.
  datatype HelloResult = HelloOk(target: Target) | HelloFail(error: HelloError) | HelloPanic

  function HelloDecode(d: bytes): HelloResult {
    if |d| < MIN_HELLO_LENGTH then HelloFail(BadHelloSize)
    else if d[0] % 4 > NETWORK_UDP then HelloFail(BadNetwork)
    else if d[1] % 4 > IPV6 then HelloFail(BadAddrType)
    else if d[1] % 4 == IPV6 then HelloPanic
    else HelloOk(ProxyTarget(d[0] % 4, [d[4], d[6], d[8], d[10]], GetLe16(d, 2)))
  }

  /** `|` of a multiple of four and a value below four. */
  lemma OrFour(c: nat, low: nat)
    requires c < 64 && low < 4
    ensures Or8(c * 4, low) == c * 4 + low
  {
    assert Pow2(8) == 0x100 && Pow2(2) == 4;
    ShlIsTimes(c, 2);
    ShlIsTimes(0, 2);
    OrSplit(c, 0, 0, low, 2, 6, c * 4, low);
    OrBitsZero(c, 6);
    OrBitsZero(low, 2);
  }

  lemma OrLowTwo(j: byte, low: nat)
    requires low < 4
    ensures Or8(HighSix(j), low) == HighSix(j) + low
    ensures Or8(HighSix(j), low) % 4 == low
  {
    OrFour(j / 4, low);
  }

  /** A target survives, whatever the junk and whatever follows. */
  lemma HelloRoundTrip(t: Target, junk: bytes, more: bytes)
    requires |junk| == 8 && t.network <= NETWORK_UDP
    ensures HelloDecode(HelloBytes(t, junk) + more) == HelloOk(t)
  {
    HelloLaidOut(t, junk);
    var d := HelloBytes(t, junk);
    assert d[0] % 4 == t.network && d[1] % 4 == IPV4;
    HelloReads(HelloBytes(t, junk), HelloBytes(t, junk) + more);
    ReadLe16(HelloBytes(t, junk), 2, t.port);
    assert HelloBytes(t, junk)[2..4] == Le16(t.port);
  }

  /** Where everything is: the two low bits of the first two bytes, the port with its low byte first,
      address bytes and junk in turn. */
  lemma HelloLaidOut(t: Target, junk: bytes)
    requires |junk| == 8 && t.network <= 1
    ensures var d := HelloBytes(t, junk);
            && d[0] as int == junk[0] / 4 * 4 + t.network && d[1] as int == junk[1] / 4 * 4
            && d[2] as int + 0x100 * d[3] as int == t.port
            && [d[4], d[6], d[8], d[10]] == t.ip
            && [d[5], d[7], d[9], d[11]] == junk[2..6]
  {
    OrLowTwo(junk[0], t.network);
    OrLowTwo(junk[1], IPV4);
  }

  /** On every byte string, the first thing amiss: fewer than twelve bytes, a network that is not 0 or
      1, an address type that is not 0 or 1, and the stub for type 1. */
  lemma HelloErrors(d: bytes)
    ensures |d| < 12 ==> HelloDecode(d) == HelloFail(BadHelloSize)
    ensures |d| >= 12 && d[0] % 4 >= 2 ==> HelloDecode(d) == HelloFail(BadNetwork)
    ensures |d| >= 12 && d[0] % 4 < 2 && d[1] % 4 >= 2 ==> HelloDecode(d) == HelloFail(BadAddrType)
    ensures |d| >= 12 && d[0] % 4 < 2 && d[1] % 4 == 1 ==> HelloDecode(d) == HelloPanic
    ensures |d| >= 12 && d[0] % 4 < 2 && d[1] % 4 == 0 ==> HelloDecode(d).HelloOk?
  {
  }

  /** Only the first twelve bytes matter. */
  lemma HelloReads(d: bytes, more: bytes)
    requires |d| == 12 && d <= more
    ensures HelloDecode(more) == HelloDecode(d)
  {
    assert forall i :: 0 <= i < 12 ==> more[i] == d[i];
  }

  /** What an accepted Hello was encoded from. */
  lemma HelloSource(d: bytes) returns (t: Target, junk: bytes)
    requires |d| == 12 && HelloDecode(d).HelloOk?
    ensures |junk| == 8 && t.network <= NETWORK_UDP && HelloBytes(t, junk) == d
  {
    t := HelloDecode(d).target;
    junk := [d[0], d[1], d[5], d[7], d[9], d[11], 0, 0];
    OrLowTwo(d[0], d[0] % 4);
    OrLowTwo(d[1], 0);
    PortBytes(d);
  }

  lemma PortBytes(d: bytes)
    requires |d| == 12
    ensures Le16(GetLe16(d, 2)) == [d[2], d[3]]
  {
  }

  /** Twelve bytes are accepted exactly when they are the encoding of some TCP or UDP target. */
  lemma HelloAccepts(d: bytes)
    requires |d| == 12
    ensures HelloDecode(d).HelloOk? <==>
            exists t: Target, junk: bytes :: |junk| == 8 && t.network <= NETWORK_UDP && HelloBytes(t, junk) == d
  {
    if HelloDecode(d).HelloOk? {
      var t, junk := HelloSource(d);
    }
    if t: Target, junk: bytes :| |junk| == 8 && t.network <= NETWORK_UDP && HelloBytes(t, junk) == d {
      HelloRoundTrip(t, junk, []);
      assert d + [] == d;
    }
  }

  class Hello {
    var ip: IPv4Addr
    var port: u16
    var junk: bytes
    var network: byte
    var ok: bool

    constructor ()
      ensures !ok
    {
      ip, port, junk, network, ok := [0, 0, 0, 0], 0, [], 0, false;
    }

    function View(): Target
      reads this
    {
      ProxyTarget(network, ip, port)
    }

    method InitEncode(junk: bytes, network: byte, ip: IPv4Addr, port: u16)
      requires |junk| == 8
      modifies this
      ensures ok && this.junk == junk && View() == ProxyTarget(network, ip, port)
    {
      this.junk := junk;
      this.ip, this.port := ip, port;
      this.network := network;
      ok := true;
    }
  }

  /** The address, each byte followed by junk. */
  method PutAddress(c: Encoder, ip: IPv4Addr, junk: bytes)
    requires |junk| == 8
    modifies c
    ensures c.buf == old(c.buf) + [ip[0], junk[2], ip[1], junk[3], ip[2], junk[4], ip[3], junk[5]]
  {
    c.PutB(ip[0]);
    c.PutB(junk[2]);
    c.PutB(ip[1]);
    c.PutB(junk[3]);
    c.PutB(ip[2]);
    c.PutB(junk[4]);
    c.PutB(ip[3]);
    c.PutB(junk[5]);
  }

  /** Panics on a value that was not initialised. */
  method EncodeHello(h: Hello, buf: bytes) returns (out: bytes)
    requires h.ok && |h.junk| == 8
    ensures out == buf + HelloBytes(h.View(), h.junk)
  {
    var c := new Encoder(buf);
    c.PutB(Or8(HighSix(h.junk[0]), h.network));
    c.PutB(Or8(HighSix(h.junk[1]), IPV4));
    c.U16(h.port);
    PutAddress(c, h.ip, h.junk);
    return c.buf;
  }

  /** Makes p a Hello for a TCP target. */
  method PutHelloTCP(p: Packet, helloJunk: bytes, raw1: bytes, raw2: bytes, v: u64, salt: u32,
                     cid: ConnID, ip: IPv4Addr, port: u16)
    requires p.Valid() && |helloJunk| == 8 && |raw1| == 24 && |raw2| == 16
    modifies p
    ensures p.Valid() && p.ok
    ensures p.View() == Pkt(HelloBytes(ProxyTarget(NETWORK_TCP, ip, port), helloJunk), cid,
                            TextOf(raw1), TextOf(raw2), salt, PACKET_HELLO, v % 2)
  {
    var h := new Hello();
    h.InitEncode(helloJunk, NETWORK_TCP, ip, port);
    p.cid := cid;
    p.data := EncodeHello(h, []);
    p.kind := PACKET_HELLO;
    p.InitEncode(raw1, raw2, v, seq(64, _ => 0), salt);
  }

  /** Fills in h, or leaves it alone. */
  method DecodeHello(h: Hello, data: bytes) returns (r: HelloResult)
    modifies h
    ensures r == HelloDecode(data)
    ensures r.HelloOk? ==> h.View() == r.target
    ensures !r.HelloOk? ==> h.View() == old(h.View())
    ensures h.ok == old(h.ok) && h.junk == old(h.junk)
  {
    var d := new Decoder(data);
    if d.Len() < MIN_HELLO_LENGTH {
      return HelloFail(BadHelloSize);
    }
    var b0 := d.U8();
    var network: byte := b0 % 4;
    if network > NETWORK_UDP {
      return HelloFail(BadNetwork);
    }
    var b1 := d.U8();
    var typ := b1 % 4;
    if typ > IPV6 {
      return HelloFail(BadAddrType);
    }
    var port := d.U16();
    if typ == IPV6 {
      return HelloPanic;
    }
    var b := d.Bytes(8);
    h.ip, h.port := [b[0], b[2], b[4], b[6]], port;
    h.network := network;
    return HelloOk(h.View());
  }

  /* ---- close ---- */

  /** The code, least significant byte first, each byte followed by junk. */
  function CloseBytes(code: u32, junk: bytes): bytes
    requires |junk| == 4
  {
    var c := Le32(code);
    [c[0], junk[0], c[1], junk[1], c[2], junk[2], c[3], junk[3]]
  }

  datatype CloseResult = CloseOk(code: u32) | BadCloseSize

  function CloseDecode(d: bytes): CloseResult {
    if |d| != 8 then BadCloseSize else CloseOk(GetLe32([d[0], d[2], d[4], d[6]], 0))
  }

  lemma CloseRoundTrip(code: u32, junk: bytes)
    requires |junk| == 4
    ensures CloseDecode(CloseBytes(code, junk)) == CloseOk(code)
  {
    var d, c := CloseBytes(code, junk), Le32(code);
    assert [d[0], d[2], d[4], d[6]] == c && c[0..4] == c;
    ReadLe32(c, 0, code);
  }

  /** The code in the even bytes, the lowest first, and junk in the odd ones. */
  lemma CloseLaidOut(code: u32, junk: bytes)
    requires |junk| == 4
    ensures var d := CloseBytes(code, junk);
            && |d| == 8
            && Word4(d[6], d[4], d[2], d[0]) == code
            && [d[1], d[3], d[5], d[7]] == junk
  {
  }

  /** Exactly the strings of eight bytes are some close, and they encode back to themselves. */
  lemma CloseAccepts(d: bytes)
    ensures if |d| != 8 then CloseDecode(d) == BadCloseSize
            else CloseDecode(d).CloseOk? && CloseBytes(CloseDecode(d).code, [d[1], d[3], d[5], d[7]]) == d
  {
    if |d| == 8 {
      CloseEncodesBack(d);
    }
  }

  lemma CloseEncodesBack(d: bytes)
    requires |d| == 8
    ensures CloseDecode(d).CloseOk? && CloseBytes(CloseDecode(d).code, [d[1], d[3], d[5], d[7]]) == d
  {
    var c: bytes := [d[0], d[2], d[4], d[6]];
    Le32Surjective(c, 0);
    assert c[0..4] == c;
  }

  class Close {
    var code: u32
    var junk: bytes
    var ok: bool

    constructor ()
      ensures !ok
    {
      code, junk, ok := 0, [], false;
    }

    method InitEncode(junk: bytes, code: u32)
      requires |junk| == 4
      modifies this
      ensures ok && this.junk == junk && this.code == code
    {
      this.junk := junk;
      this.code := code;
      ok := true;
    }
  }

  method EncodeClose(s: Close, buf: bytes) returns (out: bytes)
    requires s.ok && |s.junk| == 4
    ensures out == buf + CloseBytes(s.code, s.junk)
  {
    var c := new Encoder(buf);
    var cc := Le32(s.code);
    c.PutB(cc[0]);
    c.PutB(s.junk[0]);
    c.PutB(cc[1]);
    c.PutB(s.junk[1]);
    c.PutB(cc[2]);
    c.PutB(s.junk[2]);
    c.PutB(cc[3]);
    c.PutB(s.junk[3]);
    return c.buf;
  }

  /** Makes p a Close with this code. */
  method PutClose(p: Packet, closeJunk: bytes, raw1: bytes, raw2: bytes, v: u64, salt: u32, cid: ConnID, code: u32)
    requires p.Valid() && |closeJunk| == 4 && |raw1| == 24 && |raw2| == 16
    modifies p
    ensures p.Valid() && p.ok
    ensures p.View() == Pkt(CloseBytes(code, closeJunk), cid,
                            TextOf(raw1), TextOf(raw2), salt, PACKET_CLOSE, v % 2)
  {
    var s := new Close();
    s.InitEncode(closeJunk, code);
    p.cid := cid;
    p.data := EncodeClose(s, []);
    p.kind := PACKET_CLOSE;
    p.InitEncode(raw1, raw2, v, seq(64, _ => 0), salt);
  }

  method DecodeClose(s: Close, data: bytes) returns (r: CloseResult)
    modifies s
    ensures r == CloseDecode(data)
    ensures s.code == if r.CloseOk? then r.code else old(s.code)
    ensures s.ok == old(s.ok) && s.junk == old(s.junk)
  {
    var d := new Decoder(data);
    if d.Len() != 8 {
      return BadCloseSize;
    }
    var b := d.Bytes(8);
    s.code := GetLe32([b[0], b[2], b[4], b[6]], 0);
    return CloseOk(s.code);
  }
}

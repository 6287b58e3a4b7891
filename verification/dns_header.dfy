/** Which headers survive: flags and codes against the bit positions of section 4.1.1 of RFC 1035. */
module DnsHeader {
  import opened Bytes
  import opened DnsMessage
  import opened DnsEncode
  import opened DnsRoundTrip

  /* ---- the twelve bytes of a message ---- */

  lemma OrTop(v: byte)
    ensures Or8(128, v) == 128 + v % 128
  {
    assert Pow2(8) == 0x100 && Pow2(7) == 128 && Pow2(1) == 2;
    var h, l := v / 128, v % 128;
    ShlIsTimes(1, 7);
    ShlIsTimes(h, 7);
    OrSplit(1, 0, h, l, 7, 1, 128, v);
    assert OrBits(1, h, 1) == 1;
    OrBitsZero(l, 7);
  }

  lemma OrBottom(v: byte)
    ensures Or8(v, 1) == v / 2 * 2 + 1
  {
    assert Pow2(8) == 0x100 && Pow2(7) == 128;
    OrBitsOf(v / 2, v % 2, 0, 1, 8);
    OrBitsZero(v / 2, 7);
  }

  lemma OrNone(v: byte)
    ensures Or8(v, 0) == Or8(0, v) == v
  {
    assert Pow2(8) == 0x100;
    OrBitsZero(v, 8);
  }

  lemma FlagsByte(resp: byte, opcode: byte)
    requires resp == 0 || resp == 128
    ensures Or8(Or8(Or8(Or8(resp, opcode), 0), 0), 1) ==
            (if resp == 128 || opcode >= 128 then 128 else 0) + opcode % 128 / 2 * 2 + 1
  {
    var first := Or8(resp, opcode);
    if resp == 128 {
      OrTop(opcode);
    } else {
      OrNone(opcode);
    }
    OrNone(first);
    OrBottom(first);
    TopAndRest(opcode);
  }

  lemma TopAndRest(opcode: byte)
    ensures (128 + opcode % 128) / 2 * 2 == 128 + opcode % 128 / 2 * 2
    ensures opcode / 2 * 2 == (if opcode >= 128 then 128 else 0) + opcode % 128 / 2 * 2
  {
  }

  lemma MessageFlags(h: Header)
    requires !h.auth && !h.trunc && h.recd
    ensures Flags1(h) == Or8(Or8(Or8(Or8(if h.resp then 128 else 0, h.opcode), 0), 0), 1)
  {
    assert Pow2(7) == 128 && Pow2(0) == 1;
  }

  /** Two bytes, the most significant first. */
  predicate BigEndian(b: bytes, i: nat, v: int) {
    i + 1 < |b| && b[i] as int * 0x100 + b[i + 1] as int == v
  }

  lemma WordIs(h: Header, b: bytes, i: nat, v: u16)
    requires HeaderBytes(h) <= b && i < 11
    requires HeaderBytes(h)[i] == HighByte(v) && HeaderBytes(h)[i + 1] == LowByte(v)
    ensures BigEndian(b, i, v)
  {
    assert b[i] == HeaderBytes(h)[i] && b[i + 1] == HeaderBytes(h)[i + 1];
  }

  /** A message with answers or a response code is a response. */
  predicate Responds(m: Msg) {
    m.answers != [] || m.rcode != 0
  }

  /** The header of an encoded message, byte by byte: the response flag is set for messages with
      answers or a response code, the opcode lies on the lowest bits, recursion is desired. */
  lemma WireHeader(m: Msg)
    ensures var b := Encoded(m);
            && |b| >= 12
            && BigEndian(b, 0, m.id)
            && b[2] as int == (if Responds(m) || m.opcode >= 128 then 128 else 0) + m.opcode % 128 / 2 * 2 + 1
            && b[3] == m.rcode
            && BigEndian(b, 4, |m.quests| % 0x1_0000) && BigEndian(b, 6, |m.answers| % 0x1_0000)
            && BigEndian(b, 8, 0) && BigEndian(b, 10, |m.records| % 0x1_0000)
  {
    var h, b := HeaderOf(m), Encoded(m);
    StartsWithHeader(m);
    WordIs(h, b, 0, h.id);
    WordIs(h, b, 4, h.quests);
    WordIs(h, b, 6, h.answers);
    WordIs(h, b, 8, h.servers);
    WordIs(h, b, 10, h.records);
    MessageFlags(h);
    FlagsByte(if h.resp then 128 else 0, h.opcode);
    OrNone(h.rcode);
    assert b[2] == HeaderBytes(h)[2] && b[3] == HeaderBytes(h)[3];
  }

  /** The fields that are read say all that the twelve bytes do. */
  lemma HeaderRecombines(b: bytes)
    requires |b| >= 12
    ensures var r := ReadHeader(b);
            && BigEndian(b, 0, r.id)
            && r.opcode < 16 && r.rezv < 8 && r.rcode < 16
            && b[2] as int == 128 * BitOf(r.resp) + 8 * r.opcode + 4 * BitOf(r.auth) + 2 * BitOf(r.trunc) + BitOf(r.recd)
            && b[3] as int == 128 * BitOf(r.reca) + 16 * r.rezv + r.rcode
            && BigEndian(b, 4, r.quests) && BigEndian(b, 6, r.answers)
            && BigEndian(b, 8, r.servers) && BigEndian(b, 10, r.records)
  {
    FlagsRecombine(b[2]);
    CodesRecombine(b[3]);
  }

  lemma FlagsRecombine(v: byte)
    ensures v as int == 128 * BitOf(v / 128 != 0) + 8 * (v / 8 % 16) + 4 * BitOf(v / 4 % 2 != 0) +
                        2 * BitOf(v / 2 % 2 != 0) + BitOf(v % 2 != 0)
  {
    FirstRecombines(v);
    BitIs(v / 128);
    BitIs(v / 4 % 2);
    BitIs(v / 2 % 2);
    BitIs(v % 2);
  }

  lemma BitIs(x: int)
    requires 0 <= x < 2
    ensures BitOf(x != 0) == x
  {
  }

  lemma CodesRecombine(v: byte)
    ensures v as int == 128 * BitOf(v / 128 != 0) + 16 * (v / 16 % 8) + v % 16
  {
    SecondRecombines(v);
  }

  lemma FirstRecombines(v: byte)
    ensures v == 128 * (v / 128) + 8 * (v / 8 % 16) + 4 * (v / 4 % 2) + 2 * (v / 2 % 2) + v % 2
  {
    assert v / 4 == v / 8 * 2 + v / 4 % 2 && v / 2 == v / 4 * 2 + v / 2 % 2;
    assert v / 8 == v / 128 * 16 + v / 8 % 16;
  }

  lemma SecondRecombines(v: byte)
    ensures v == 128 * (v / 128) + 16 * (v / 16 % 8) + v % 16
  {
  }

  /** What is read of the flags and codes of any encoded message. */
  lemma FlagsRead(m: Msg)
    ensures |Encoded(m)| >= 12
    ensures var r := ReadHeader(Encoded(m));
            && (r.resp <==> Responds(m) || m.opcode >= 128)
            && r.opcode == m.opcode / 8 % 16
            && (r.auth <==> m.opcode / 4 % 2 == 1) && (r.trunc <==> m.opcode / 2 % 2 == 1) && r.recd
            && (r.reca <==> m.rcode >= 128) && r.rezv == m.rcode / 16 % 8 && r.rcode == m.rcode % 16
  {
    WireHeader(m);
    FirstByteRead(Encoded(m), m.opcode, if Responds(m) || m.opcode >= 128 then 128 else 0);
  }

  lemma FirstByteRead(b: bytes, opcode: byte, top: int)
    requires |b| >= 12 && (top == 0 || top == 128) && b[2] as int == top + opcode % 128 / 2 * 2 + 1
    ensures var r := ReadHeader(b);
            && (r.resp <==> top == 128) && r.opcode == opcode / 8 % 16
            && (r.auth <==> opcode / 4 % 2 == 1) && (r.trunc <==> opcode / 2 % 2 == 1) && r.recd
  {
    OpcodeBits(opcode, top);
  }

  lemma OpcodeBits(opcode: byte, top: int)
    requires top == 0 || top == 128
    ensures var v := top + opcode % 128 / 2 * 2 + 1;
            && v / 128 == top / 128 && v / 8 % 16 == opcode / 8 % 16
            && v / 4 % 2 == opcode / 4 % 2 && v / 2 % 2 == opcode / 2 % 2 && v % 2 == 1
  {
    var h, a, b, c := opcode / 8 % 16, opcode / 4 % 2, opcode / 2 % 2, opcode % 2;
    FirstRecombines(opcode);
    LowBits(opcode / 128, h, a, b, c, opcode);
    FieldsOf(top / 128, h, a, b, 1);
  }

  lemma LowBits(t: int, h: int, a: int, b: int, c: int, v: int)
    requires 0 <= t < 2 && 0 <= h < 16 && 0 <= a < 2 && 0 <= b < 2 && 0 <= c < 2
    requires v == 128 * t + 8 * h + 4 * a + 2 * b + c
    ensures v % 128 / 2 * 2 == 8 * h + 4 * a + 2 * b
  {
    assert v % 128 == 8 * h + 4 * a + 2 * b + c;
    assert v % 128 / 2 == 4 * h + 2 * a + b;
  }

  lemma FieldsOf(t: int, h: int, a: int, b: int, c: int)
    requires 0 <= t < 2 && 0 <= h < 16 && 0 <= a < 2 && 0 <= b < 2 && 0 <= c < 2
    ensures var v := 128 * t + 8 * h + 4 * a + 2 * b + c;
            v / 128 == t && v / 8 % 16 == h && v / 4 % 2 == a && v / 2 % 2 == b && v % 2 == c
  {
    var v := 128 * t + 8 * h + 4 * a + 2 * b + c;
    assert v / 8 == 16 * t + h && v / 4 == 2 * (16 * t + h) + a && v / 2 == 2 * (2 * (16 * t + h) + a) + b;
  }

  /** The opcode is written where bits 0 to 7 of the flags are and read from bits 3 to 6: only
      a standard query survives. */
  lemma OpcodeSurvives(m: Msg)
    ensures |Encoded(m)| >= 12
    ensures ReadHeader(Encoded(m)).opcode == m.opcode <==> m.opcode == OPCODE_QUERY
  {
    FlagsRead(m);
    OnlyZero(m.opcode);
  }

  lemma OnlyZero(opcode: byte)
    ensures opcode / 8 % 16 == opcode <==> opcode == 0
  {
  }

  /* ---- any header ---- */

  lemma Powers()
    ensures Pow2(8) == 256 && Pow2(7) == 128 && Pow2(6) == 64 && Pow2(5) == 32 && Pow2(4) == 16
    ensures Pow2(3) == 8 && Pow2(2) == 4 && Pow2(1) == 2 && Pow2(0) == 1
  {
  }

  function BitOf(v: bool): nat {
    if v then 1 else 0
  }

  lemma FlagsSum(h: Header)
    requires h.opcode == 0
    ensures Flags1(h) == 128 * BitOf(h.resp) + 4 * BitOf(h.auth) + 2 * BitOf(h.trunc) + BitOf(h.recd)
  {
    assert Pow2(7) == 128 && Pow2(2) == 4 && Pow2(1) == 2 && Pow2(0) == 1;
    FirstFlags(BitBool(h.resp, 7), BitBool(h.auth, 2), BitBool(h.trunc, 1), BitBool(h.recd, 0));
  }

  lemma CodesSum(h: Header)
    requires h.rcode < 16
    ensures Flags2(h) == 128 * BitOf(h.reca) + h.rcode
  {
    assert Pow2(7) == 128;
    SecondFlags(BitBool(h.reca, 7), h.rcode);
  }

  lemma FirstFlags(r: byte, a: byte, t: byte, d: byte)
    requires r in {0, 128} && a in {0, 4} && t in {0, 2} && d in {0, 1}
    ensures Or8(Or8(Or8(Or8(r, 0), a), t), d) == r + a + t + d
  {
    RespFlag(r, a);
    TruncFlag(r + a, t);
    RecdFlag(r + a + t, d);
  }

  lemma RespFlag(r: byte, a: byte)
    requires r in {0, 128} && a in {0, 4}
    ensures Or8(Or8(r, 0), a) == r + a
  {
    Powers();
    OrBitsZero(r, 8);
    OrSumAt(r, a, r / 8, 3, 5, 8);
  }

  lemma TruncFlag(f: byte, t: byte)
    requires f in {0, 4, 128, 132} && t in {0, 2}
    ensures Or8(f, t) == f + t
  {
    Powers();
    OrSumAt(f, t, f / 4, 2, 6, 4);
  }

  lemma RecdFlag(f: byte, d: byte)
    requires f in {0, 2, 4, 6, 128, 130, 132, 134} && d in {0, 1}
    ensures Or8(f, d) == f + d
  {
    Powers();
    OrSumAt(f, d, f / 2, 1, 7, 2);
  }

  lemma SecondFlags(r: byte, code: byte)
    requires r in {0, 128} && code < 16
    ensures Or8(r, code) == r + code
  {
    Powers();
    OrSumAt(r, code, r / 128, 7, 1, 128);
  }

  lemma FlagsParse(h: Header, f1: byte, f2: byte)
    requires f1 == 128 * BitOf(h.resp) + 4 * BitOf(h.auth) + 2 * BitOf(h.trunc) + BitOf(h.recd)
    requires f2 == 128 * BitOf(h.reca) + h.rcode && h.rcode < 16
    ensures f1 / 128 == BitOf(h.resp) && f1 / 8 % 16 == 0
    ensures f1 / 4 % 2 == BitOf(h.auth) && f1 / 2 % 2 == BitOf(h.trunc) && f1 % 2 == BitOf(h.recd)
    ensures f2 / 128 == BitOf(h.reca) && f2 / 16 % 8 == 0 && f2 % 16 == h.rcode
  {
  }

  lemma HeaderExact(h: Header, buf: bytes)
    requires h.opcode == 0 && h.rezv == 0 && h.rcode < 16
    requires HeaderBytes(h) <= buf
    ensures ReadHeader(buf) == h
  {
    HeaderParses(h, buf);
    FlagsSum(h);
    CodesSum(h);
    FlagsParse(h, Flags1(h), Flags2(h));
    assert buf[2] == HeaderBytes(h)[2] == Flags1(h);
    assert buf[3] == HeaderBytes(h)[3] == Flags2(h);
  }

  /** Every field of the header is read back as it was meant, flags included, exactly when the
      opcode is 0 and the response code fits in four bits. */
  lemma HeaderRestored(m: Msg)
    ensures |Encoded(m)| >= 12
    ensures ReadHeader(Encoded(m)) ==
            Header(m.id, m.opcode, 0, m.rcode, Responds(m), false, false, true, false,
                   |m.quests| % WORD16, |m.answers| % WORD16, 0, |m.records| % WORD16) <==>
            m.opcode == OPCODE_QUERY && m.rcode < 16
  {
    OpcodeSurvives(m);
    FlagsRead(m);
    if m.opcode == OPCODE_QUERY && m.rcode < 16 {
      StartsWithHeader(m);
      HeaderExact(HeaderOf(m), Encoded(m));
    }
  }
}

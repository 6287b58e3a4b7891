/** The decoder accepts exactly what the encoder can produce, and what the control sum catches. */
module ProxyImage {
  import opened Bytes
  import opened ProxyHash
  import opened ProxyPacket
  import opened ProxyCodec

  /* ---- where the parts of an encoded packet are ---- */

  predicate At(w: bytes, i: int, part: bytes) {
    0 <= i && i + |part| <= |w| && w[i..i + |part|] == part
  }

  /** w is a packet made of these parts at the offsets of this layout. */
  predicate LaidOut(w: bytes, l: Layout, p: Pkt, sum: u32)
    requires Shaped(p) && l.len1 <= 8 && l.len2 <= 8
  {
    && |w| == l.size && l.DataLength() == |p.data|
    && LaidHead(w, l, p)
    && LaidTail(w, l, p, sum)
  }

  predicate LaidHead(w: bytes, l: Layout, p: Pkt)
    requires Shaped(p) && l.len1 <= 8
  {
    && At(w, 0, Opening(p.style))
    && At(w, 2, p.junk1[..8 + l.len1 + 3])
    && At(w, l.Kind(), [TypeByte(p)])
    && At(w, l.Cid(), p.cid)
  }

  predicate LaidTail(w: bytes, l: Layout, p: Pkt, sum: u32)
    requires Shaped(p) && l.len2 <= 8
  {
    && At(w, l.Data(), p.data)
    && At(w, l.Sum(), Le32(sum))
    && At(w, l.Sum() + 4, p.junk2[..8 + l.len2])
    && At(w, |w| - 2, Closing(p.style))
  }

  function Offset(ps: seq<bytes>, i: nat): nat
    requires i <= |ps|
  {
    if i == 0 then 0 else |ps[0]| + Offset(ps[1..], i - 1)
  }

  lemma {:induction false} FlattenAt(ps: seq<bytes>, i: nat)
    requires i < |ps|
    ensures At(Flatten(ps), Offset(ps, i), ps[i])
    ensures |Flatten(ps)| == Offset(ps, |ps|)
    decreases |ps|
  {
    var rest := Flatten(ps[1..]);
    if i == 0 {
      if ps[1..] != [] {
        FlattenAt(ps[1..], 0);
      }
    } else {
      FlattenAt(ps[1..], i - 1);
      var at, n := Offset(ps[1..], i - 1), |ps[i]|;
      assert Flatten(ps)[|ps[0]| + at..|ps[0]| + at + n] == rest[at..at + n];
    }
  }

  lemma {:induction false} OffsetStep(ps: seq<bytes>, i: nat)
    requires i < |ps|
    ensures Offset(ps, i + 1) == Offset(ps, i) + |ps[i]|
    decreases i
  {
    if i > 0 {
      OffsetStep(ps[1..], i - 1);
    }
  }

  lemma OffsetsOfEight(ps: seq<bytes>)
    requires |ps| == 8
    ensures Offset(ps, 1) == |ps[0]|
    ensures Offset(ps, 2) == Offset(ps, 1) + |ps[1]|
    ensures Offset(ps, 3) == Offset(ps, 2) + |ps[2]|
    ensures Offset(ps, 4) == Offset(ps, 3) + |ps[3]|
    ensures Offset(ps, 5) == Offset(ps, 4) + |ps[4]|
    ensures Offset(ps, 6) == Offset(ps, 5) + |ps[5]|
    ensures Offset(ps, 7) == Offset(ps, 6) + |ps[6]|
    ensures Offset(ps, 8) == Offset(ps, 7) + |ps[7]|
  {
    OffsetStep(ps, 0);
    OffsetStep(ps, 1);
    OffsetStep(ps, 2);
    OffsetStep(ps, 3);
    OffsetStep(ps, 4);
    OffsetStep(ps, 5);
    OffsetStep(ps, 6);
    OffsetStep(ps, 7);
  }

  function LayoutFor(p: Pkt): Layout
    requires Shaped(p)
  {
    var n1, n2 := Len1(p.salt, p.junk1[..8]), Len2(p.salt, p.junk1[..8]);
    Layout(n1, n2, 44 + |p.data| + n1 + n2)
  }

  /** The length of an encoded packet is 46 to 60 bytes more than its data. */
  lemma WireLaidOut(p: Pkt)
    requires Shaped(p)
    ensures LaidOut(Wire(p), LayoutFor(p), p, ControlSum(p))
    ensures 46 + |p.data| <= |Wire(p)| <= 60 + |p.data|
  {
    PartsLaidOut(p, LayoutFor(p), ControlSum(p), Parts(p));
  }

  lemma PartsLaidOut(p: Pkt, l: Layout, sum: u32, ps: seq<bytes>)
    requires Shaped(p) && 1 <= l.len1 <= 8 && 1 <= l.len2 <= 8
    requires l.size == 44 + |p.data| + l.len1 + l.len2
    requires ps == [Opening(p.style), p.junk1[..8 + l.len1 + 3], [TypeByte(p)], p.cid, p.data,
                    Le32(sum), p.junk2[..8 + l.len2], Closing(p.style)]
    ensures |Flatten(ps)| == l.size
    ensures LaidOut(Flatten(ps), l, p, sum)
  {
    OffsetsOfEight(ps);
    HeadParts(p, l, ps);
    TailParts(p, l, sum, ps);
  }

  lemma HeadParts(p: Pkt, l: Layout, ps: seq<bytes>)
    requires Shaped(p) && l.len1 <= 8
    requires |ps| == 8
    requires ps[0] == Opening(p.style) && ps[1] == p.junk1[..8 + l.len1 + 3] && ps[2] == [TypeByte(p)] && ps[3] == p.cid
    ensures LaidHead(Flatten(ps), l, p)
  {
    OffsetsOfEight(ps);
    FlattenAt(ps, 0);
    FlattenAt(ps, 1);
    FlattenAt(ps, 2);
    FlattenAt(ps, 3);
  }

  lemma TailParts(p: Pkt, l: Layout, sum: u32, ps: seq<bytes>)
    requires Shaped(p) && l.len1 <= 8 && l.len2 <= 8
    requires l.size == 44 + |p.data| + l.len1 + l.len2
    requires |ps| == 8 && Offset(ps, 4) == l.Data()
    requires ps[4] == p.data && ps[5] == Le32(sum) && ps[6] == p.junk2[..8 + l.len2] && ps[7] == Closing(p.style)
    ensures |Flatten(ps)| == l.size
    ensures LaidTail(Flatten(ps), l, p, sum)
  {
    OffsetsOfEight(ps);
    FlattenAt(ps, 4);
    FlattenAt(ps, 5);
    FlattenAt(ps, 6);
    FlattenAt(ps, 7);
  }

  /** Two byte strings with the same parts are the same. */
  lemma LaidOutOnce(w: bytes, v: bytes, l: Layout, p: Pkt, sum: u32)
    requires Shaped(p) && l.len1 <= 8 && l.len2 <= 8
    requires LaidOut(w, l, p, sum) && LaidOut(v, l, p, sum)
    ensures w == v
  {
    HeadOnce(w, v, l, p);
    Extend(w, v, l.Data(), p.data);
    Extend(w, v, l.Sum(), Le32(sum));
    Extend(w, v, l.Sum() + 4, p.junk2[..8 + l.len2]);
    Extend(w, v, |w| - 2, Closing(p.style));
    assert w[..|w|] == w && v[..|w|] == v;
  }

  lemma HeadOnce(w: bytes, v: bytes, l: Layout, p: Pkt)
    requires Shaped(p) && l.len1 <= 8 && |w| == |v|
    requires LaidHead(w, l, p) && LaidHead(v, l, p)
    ensures l.Data() <= |w| && w[..l.Data()] == v[..l.Data()]
  {
    Extend(w, v, 0, Opening(p.style));
    Extend(w, v, 2, p.junk1[..8 + l.len1 + 3]);
    Extend(w, v, l.Kind(), [TypeByte(p)]);
    Extend(w, v, l.Cid(), p.cid);
  }

  lemma Extend(w: bytes, v: bytes, i: nat, part: bytes)
    requires |w| == |v| && At(w, i, part) && At(v, i, part)
    requires w[..i] == v[..i]
    ensures w[..i + |part|] == v[..i + |part|]
  {
    assert w[..i + |part|] == w[..i] + w[i..i + |part|];
    assert v[..i + |part|] == v[..i] + v[i..i + |part|];
  }

  /* ---- what decoding such a packet gives ---- */

  lemma AtWithin(w: bytes, i: int, part: bytes, j: nat, k: nat)
    requires At(w, i, part) && j <= k <= |part|
    ensures w[i + j..i + k] == part[j..k]
  {
    SubAt(w, i, part, j, k);
  }

  lemma AtByte(w: bytes, i: int, part: bytes, j: nat)
    requires At(w, i, part) && j < |part|
    ensures w[i + j] == part[j]
  {
    assert w[i..i + |part|][j] == part[j];
  }

  lemma PrefixLaid(w: bytes, l: Layout, p: Pkt, sum: u32)
    requires Shaped(p) && l.len1 <= 8 && l.len2 <= 8
    requires LaidOut(w, l, p, sum)
    ensures w[2..10] == p.junk1[..8]
  {
    AtWithin(w, 2, p.junk1[..8 + l.len1 + 3], 0, 8);
  }

  lemma EndsLaid(w: bytes, l: Layout, p: Pkt, sum: u32)
    requires Encodable(p) && l.len1 <= 8 && l.len2 <= 8
    requires LaidOut(w, l, p, sum)
    ensures StyleOf(w[0], 123, 91) == StyleOf(w[|w| - 1], 125, 93) == p.style
    ensures w[1] == w[|w| - 2] == QUOTE
  {
    AtByte(w, 0, Opening(p.style), 0);
    AtByte(w, 0, Opening(p.style), 1);
    AtByte(w, |w| - 2, Closing(p.style), 0);
    AtByte(w, |w| - 2, Closing(p.style), 1);
  }

  lemma KindLaid(w: bytes, l: Layout, p: Pkt, sum: u32)
    requires Encodable(p) && l.len1 <= 8 && l.len2 <= 8
    requires LaidOut(w, l, p, sum)
    ensures w[l.Kind()] % 16 == p.kind
  {
    AtByte(w, l.Kind(), [TypeByte(p)], 0);
    Or8HighNibble(p.kind, p.junk1[20] / 16);
  }

  lemma SuffixLaid(w: bytes, l: Layout, p: Pkt, sum: u32)
    requires Shaped(p) && l.len1 <= 8 && l.len2 <= 8
    requires LaidOut(w, l, p, sum)
    ensures w[l.Suffix()..l.Suffix() + 8] == p.junk2[l.len2..l.len2 + 8]
    ensures GetLe32(w, l.Sum()) == sum
  {
    AtWithin(w, l.Sum() + 4, p.junk2[..8 + l.len2], l.len2, l.len2 + 8);
    assert p.junk2[..8 + l.len2][l.len2..l.len2 + 8] == p.junk2[l.len2..l.len2 + 8];
    ReadLe32(w, l.Sum(), sum);
  }

  lemma SlicesLaid(w: bytes, p: Pkt, sum: u32)
    requires Encodable(p) && LaidOut(w, LayoutFor(p), p, sum)
    ensures |w| >= MIN_PACKET_LENGTH && LayoutOf(p.salt, w) == LayoutFor(p)
    ensures var l := LayoutFor(p);
            w[2..10] == p.junk1[..8] && w[l.Cid()..l.Cid() + 16] == p.cid && w[l.Data()..l.Sum()] == p.data
  {
    PrefixLaid(w, LayoutFor(p), p, sum);
  }

  lemma FieldsLaid(w: bytes, p: Pkt, sum: u32)
    requires Encodable(p) && LaidOut(w, LayoutFor(p), p, sum)
    ensures |w| >= MIN_PACKET_LENGTH
    ensures DecodeFields(p.salt, w) ==
            if sum == ControlSum(p) then Good(p.cid, p.data, Collapse(p.kind)) else Bad(BadSum)
  {
    var n := LayoutFor(p).len2;
    SlicesLaid(w, p, sum);
    KindLaid(w, LayoutFor(p), p, sum);
    SuffixLaid(w, LayoutFor(p), p, sum);
    FieldsAre(p.salt, w, LayoutFor(p), p.cid, p.data, p.kind, p.junk1[..8], p.junk2[n..n + 8], sum);
    SumIs(p, p.junk1[..8], p.junk2[n..n + 8]);
  }

  lemma FieldsAre(salt: u32, w: bytes, l: Layout, cid: ConnID, data: bytes, kind: byte,
                  prefix: bytes, suffix: bytes, sum: u32)
    requires |w| >= MIN_PACKET_LENGTH && LayoutOf(salt, w) == l && l.DataLength() == |data|
    requires |prefix| == |suffix| == 8
    requires w[2..10] == prefix && w[l.Cid()..l.Cid() + 16] == cid && w[l.Data()..l.Sum()] == data
    requires w[l.Suffix()..l.Suffix() + 8] == suffix && GetLe32(w, l.Sum()) == sum && w[l.Kind()] % 16 == kind
    ensures DecodeFields(salt, w) ==
            if Sum(salt, Covered(prefix[prefix[0] % 8], cid, data, suffix[suffix[0] % 8])) != sum then Bad(BadSum)
            else Good(cid, data, Collapse(kind))
  {
  }

  lemma SumIs(p: Pkt, prefix: bytes, suffix: bytes)
    requires Shaped(p)
    requires var n := LayoutFor(p).len2; prefix == p.junk1[..8] && suffix == p.junk2[n..n + 8]
    ensures ControlSum(p) == Sum(p.salt, Covered(prefix[prefix[0] % 8], p.cid, p.data, suffix[suffix[0] % 8]))
  {
    assert prefix[prefix[0] % 8] == p.junk1[p.junk1[0] % 8];
  }

  /** A packet laid out from its own parts is accepted exactly when the sum in it is its own. */
  lemma LaidOutDecodes(w: bytes, p: Pkt, sum: u32)
    requires Encodable(p) && LaidOut(w, LayoutFor(p), p, sum)
    ensures PacketDecode(p.salt, w) ==
            if sum == ControlSum(p) then Good(p.cid, p.data, Collapse(p.kind)) else Bad(BadSum)
  {
    EndsLaid(w, LayoutFor(p), p, sum);
    FieldsLaid(w, p, sum);
  }

  /** Decoding undoes encoding. */
  lemma DecodeOfWire(p: Pkt)
    requires Encodable(p)
    ensures PacketDecode(p.salt, Wire(p)) == Good(p.cid, p.data, if p.kind >= 4 then 4 else p.kind)
  {
    WireLaidOut(p);
    LaidOutDecodes(Wire(p), p, ControlSum(p));
  }

  /** Whatever a packet holds when it is prepared and encoded is what the other side decodes; an
      empty junk packet has gained data. */
  lemma PreparedSurvives(p: Pkt, raw1: bytes, raw2: bytes, v: u64, noise: bytes, salt: u32)
    requires |raw1| == 24 && |raw2| == 16 && |noise| == 64
    ensures var q := Prepared(p, raw1, raw2, v, noise, salt);
            && Encodable(q)
            && PacketDecode(salt, Wire(q)) == Good(p.cid, q.data, Collapse(p.kind))
            && (p.kind < PACKET_JUNK || p.data != [] ==> q.data == p.data)
  {
    PreparedMeans(p, raw1, raw2, v, noise, salt);
    DecodeOfWire(Prepared(p, raw1, raw2, v, noise, salt));
  }

  /* ---- and back ---- */

  function Padded(b: bytes, n: nat): bytes
    requires |b| <= n
  {
    b + seq(n - |b|, _ => 0)
  }

  /** The packet an accepted byte string was encoded from, its unused junk set to zero. */
  function Source(salt: u32, w: bytes): (p: Pkt)
    requires PacketDecode(salt, w).Good?
    ensures Encodable(p) && p.salt == salt
  {
    var l, d := LayoutOf(salt, w), PacketDecode(salt, w);
    var kindByte := w[l.Kind()];
    Pkt(d.data, d.cid,
        Padded(w[2..l.Kind()], 24)[20 := kindByte / 16 * 16],
        Padded(w[l.Sum() + 4..l.Suffix() + 8], 16),
        salt, kindByte % 16, if w[0] == 123 then 0 else 1)
  }

  lemma SourceLaidOut(salt: u32, w: bytes)
    requires PacketDecode(salt, w).Good?
    ensures var p, l := Source(salt, w), LayoutOf(salt, w);
            && LaidOut(w, l, p, GetLe32(w, l.Sum()))
            && p.junk1[..8] == w[2..10] && p.junk2[l.len2..l.len2 + 8] == w[l.Suffix()..l.Suffix() + 8]
  {
    var p, l := Source(salt, w), LayoutOf(salt, w);
    var kindByte := w[l.Kind()];
    assert w[0..2] == Opening(p.style);
    assert p.junk1[..8 + l.len1 + 3] == w[2..l.Kind()];
    SourceKind(p, kindByte);
    assert w[l.Kind()..l.Kind() + 1] == [kindByte];
    Le32Surjective(w, l.Sum());
    assert p.junk2[..8 + l.len2] == w[l.Sum() + 4..l.Suffix() + 8];
    assert w[|w| - 2..|w|] == Closing(p.style);
  }

  lemma SourceKind(p: Pkt, kindByte: byte)
    requires Shaped(p) && p.kind == kindByte % 16 && p.junk1[20] == kindByte / 16 * 16
    ensures TypeByte(p) == kindByte
  {
    Or8HighNibble(kindByte % 16, kindByte / 16);
  }

  /** Encoding undoes decoding: an accepted byte string is the encoding of its source. */
  lemma WireOfSource(salt: u32, w: bytes)
    requires PacketDecode(salt, w).Good?
    ensures Wire(Source(salt, w)) == w
  {
    var p, l := Source(salt, w), LayoutOf(salt, w);
    SourceLaidOut(salt, w);
    SourceSum(salt, w);
    WireLaidOut(p);
    LaidOutOnce(w, Wire(p), l, p, ControlSum(p));
  }

  lemma SourceSum(salt: u32, w: bytes)
    requires PacketDecode(salt, w).Good?
    ensures LayoutFor(Source(salt, w)) == LayoutOf(salt, w)
    ensures GetLe32(w, LayoutOf(salt, w).Sum()) == ControlSum(Source(salt, w))
  {
    var p, l, d := Source(salt, w), LayoutOf(salt, w), PacketDecode(salt, w);
    var suffix := w[l.Suffix()..l.Suffix() + 8];
    SourceLaidOut(salt, w);
    SumIs(p, w[2..10], suffix);
    FieldsAre(salt, w, l, d.cid, d.data, w[l.Kind()] % 16, w[2..10], suffix, GetLe32(w, l.Sum()));
  }

  ghost predicate InImage(salt: u32, w: bytes) {
    exists p :: Encodable(p) && p.salt == salt && Wire(p) == w
  }

  /** The decoder accepts exactly the encoder's image. */
  lemma AcceptsExactlyTheImage(salt: u32, w: bytes)
    ensures PacketDecode(salt, w).Good? <==> InImage(salt, w)
  {
    if PacketDecode(salt, w).Good? {
      WireOfSource(salt, w);
    }
    if InImage(salt, w) {
      var p :| Encodable(p) && p.salt == salt && Wire(p) == w;
      DecodeOfWire(p);
    }
  }

  /** Whichever packet an accepted byte string came from, its connection, data and type are those
      that were decoded. */
  lemma ImageIsUnambiguous(p: Pkt, q: Pkt)
    requires Encodable(p) && Encodable(q) && p.salt == q.salt && Wire(p) == Wire(q)
    ensures p.cid == q.cid && p.data == q.data && Collapse(p.kind) == Collapse(q.kind)
  {
    DecodeOfWire(p);
    DecodeOfWire(q);
  }

  /** What is accepted is consumed whole. */
  lemma AcceptedLength(salt: u32, w: bytes)
    requires PacketDecode(salt, w).Good?
    ensures var l := LayoutOf(salt, w);
            |PacketDecode(salt, w).data| == |w| - 44 - l.len1 - l.len2 == l.DataLength()
  {
  }

  /* ---- the control sum ---- */

  /** p with the byte at j of its connection id and data replaced. */
  function Altered(p: Pkt, j: nat, b: byte): Pkt
    requires j < 16 + |p.data|
  {
    if j < 16 then p.(cid := p.cid[j := b]) else p.(data := p.data[j - 16 := b])
  }

  function Body(p: Pkt): bytes {
    p.cid + p.data[..Min(4, |p.data|)]
  }

  lemma AlteredBody(p: Pkt, j: nat, b: byte)
    requires j < |Body(p)|
    ensures Body(Altered(p, j, b)) == Body(p)[j := b]
  {
  }

  /** One altered byte under the sum gives another sum. */
  lemma AlteredSum(p: Pkt, j: nat, b: byte)
    requires Shaped(p) && j < |Body(p)| && b != Body(p)[j]
    ensures ControlSum(Altered(p, j, b)) != ControlSum(p)
  {
    var body := Body(p);
    var n := Len2(p.salt, p.junk1[..8]);
    var b1, b2 := p.junk1[p.junk1[0] % 8], p.junk2[n + p.junk2[n] % 8];
    AlteredBody(p, j, b);
    var a, rest := [b1] + body[..j], body[j + 1..] + [b2];
    assert [b1] + body + [b2] == a + [body[j]] + rest;
    assert [b1] + body[j := b] + [b2] == a + [b] + rest;
    ByteChangeDetected(Seeded(p.salt), a, body[j], b, rest);
  }

  lemma AlteredLaidOut(p: Pkt, j: nat, b: byte)
    requires Shaped(p) && j < 16 + |p.data|
    ensures var l := LayoutFor(p);
            && l.Cid() + j < |Wire(p)|
            && LayoutFor(Altered(p, j, b)) == l
            && LaidOut(Wire(p)[l.Cid() + j := b], l, Altered(p, j, b), ControlSum(p))
  {
    WireLaidOut(p);
    AlteredInPlace(Wire(p), LayoutFor(p), p, ControlSum(p), j, b);
  }

  lemma AlteredInPlace(w: bytes, l: Layout, p: Pkt, sum: u32, j: nat, b: byte)
    requires Shaped(p) && l.len1 <= 8 && l.len2 <= 8 && j < 16 + |p.data|
    requires LaidOut(w, l, p, sum)
    ensures l.Cid() + j < |w|
    ensures LaidOut(w[l.Cid() + j := b], l, Altered(p, j, b), sum)
  {
    AlteredHead(w, l, p, j, b);
    AlteredTail(w, l, p, sum, j, b);
  }

  lemma AlteredHead(w: bytes, l: Layout, p: Pkt, j: nat, b: byte)
    requires Shaped(p) && l.len1 <= 8 && j < 16 + |p.data| && l.Cid() + j < |w|
    requires LaidHead(w, l, p)
    ensures LaidHead(w[l.Cid() + j := b], l, Altered(p, j, b))
  {
    var k := l.Cid() + j;
    Undisturbed(w, k, b, 0, Opening(p.style));
    Undisturbed(w, k, b, 2, p.junk1[..8 + l.len1 + 3]);
    Undisturbed(w, k, b, l.Kind(), [TypeByte(p)]);
    if j < 16 {
      Disturbed(w, k, b, l.Cid(), p.cid);
    } else {
      Undisturbed(w, k, b, l.Cid(), p.cid);
    }
  }

  lemma AlteredTail(w: bytes, l: Layout, p: Pkt, sum: u32, j: nat, b: byte)
    requires Shaped(p) && l.len1 <= 8 && l.len2 <= 8 && j < 16 + |p.data|
    requires LaidOut(w, l, p, sum)
    ensures l.Cid() + j < |w|
    ensures LaidTail(w[l.Cid() + j := b], l, Altered(p, j, b), sum)
  {
    var k := l.Cid() + j;
    Undisturbed(w, k, b, l.Sum(), Le32(sum));
    Undisturbed(w, k, b, l.Sum() + 4, p.junk2[..8 + l.len2]);
    Undisturbed(w, k, b, |w| - 2, Closing(p.style));
    if j < 16 {
      Undisturbed(w, k, b, l.Data(), p.data);
    } else {
      Disturbed(w, k, b, l.Data(), p.data);
    }
  }

  /** A changed byte changes the part it is in, and no other. */
  lemma Disturbed(w: bytes, k: nat, b: byte, i: nat, part: bytes)
    requires At(w, i, part) && i <= k < i + |part|
    ensures At(w[k := b], i, part[k - i := b])
  {
    assert w[k := b][i..i + |part|] == w[i..i + |part|][k - i := b];
  }

  lemma Undisturbed(w: bytes, k: nat, b: byte, i: nat, part: bytes)
    requires At(w, i, part) && k < |w| && (k < i || i + |part| <= k)
    ensures At(w[k := b], i, part)
  {
    assert w[k := b][i..i + |part|] == w[i..i + |part|];
  }

  /** Changing one byte of the connection id, or one of the first four of the data, is always
      reported as a bad sum. */
  lemma SingleByteErrorDetected(p: Pkt, j: nat, b: byte)
    requires Encodable(p) && j < |Body(p)| && b != Body(p)[j]
    ensures var at := LayoutFor(p).Cid() + j;
            && at < |Wire(p)| && Wire(p)[at] == Body(p)[j]
            && PacketDecode(p.salt, Wire(p)[at := b]) == Bad(BadSum)
  {
    AlteredLaidOut(p, j, b);
    AlteredIsRefused(p, j, b, Wire(p)[LayoutFor(p).Cid() + j := b]);
    WireLaidOut(p);
    BodyAt(Wire(p), LayoutFor(p), p, ControlSum(p), j);
  }

  lemma AlteredIsRefused(p: Pkt, j: nat, b: byte, w: bytes)
    requires Encodable(p) && j < |Body(p)| && b != Body(p)[j]
    requires LaidOut(w, LayoutFor(Altered(p, j, b)), Altered(p, j, b), ControlSum(p))
    ensures PacketDecode(p.salt, w) == Bad(BadSum)
  {
    AlteredSum(p, j, b);
    LaidOutDecodes(w, Altered(p, j, b), ControlSum(p));
  }

  lemma BodyAt(w: bytes, l: Layout, p: Pkt, sum: u32, j: nat)
    requires Shaped(p) && l.len1 <= 8 && l.len2 <= 8 && j < |Body(p)|
    requires LaidOut(w, l, p, sum)
    ensures w[l.Cid() + j] == Body(p)[j]
  {
    if j < 16 {
      AtByte(w, l.Cid(), p.cid, j);
    } else {
      AtByte(w, l.Data(), p.data, j - 16);
    }
  }
}

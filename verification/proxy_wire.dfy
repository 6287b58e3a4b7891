/** The bytes of an encoded packet and the errors of the decoder, spelled out: hash, hidden lengths,
    offsets and control sum in closed form. */
module ProxyWire {
  import opened Bytes
  import opened ProxyHash
  import opened ProxyPacket
  import opened ProxyImage

  /* ---- the hash ---- */

  /** 5381 and then the salt, least significant byte first, and the data, each byte with its power
      of 33. */
  function ClosedHash(salt: u32, data: bytes): nat {
    var all: bytes :=
      [salt % 0x100, salt / 0x100 % 0x100, salt / 0x100 / 0x100 % 0x100, salt / 0x100 / 0x100 / 0x100] + data;
    (Pow33(|all|) * 5381 + Poly(all)) % 0x1_0000_0000_0000_0000
  }

  lemma HashIsClosed(salt: u32, data: bytes)
    ensures Absorb(Seeded(salt), data) == ClosedHash(salt, data)
  {
    AbsorbAppended(5381, Le32(salt), data);
    AbsorbClosedForm(5381, Le32(salt) + data);
  }

  /** The two halves of the hash, added. */
  function ClosedSum(salt: u32, data: bytes): nat {
    var h := ClosedHash(salt, data);
    (h % 0x1_0000_0000 + h / 0x1_0000_0000) % 0x1_0000_0000
  }

  lemma SumIsClosed(salt: u32, data: bytes)
    ensures Sum(salt, data) == ClosedSum(salt, data)
  {
    HashIsClosed(salt, data);
  }

  /* ---- an encoded packet ---- */

  /** What goes under the control sum of a packet whose second hidden length is n. */
  function Summed(p: Pkt, n: nat): bytes
    requires Shaped(p) && 1 <= n <= 8
  {
    [p.junk1[p.junk1[0] % 8]] + (p.cid + p.data[..Min(4, |p.data|)]) + [p.junk2[n + p.junk2[n] % 8]]
  }

  /** The four bytes of a word, least significant first. */
  function FourBytes(v: nat): bytes
    requires v < 0x1_0000_0000
  {
    [v % 0x100, v / 0x100 % 0x100, v / 0x100 / 0x100 % 0x100, v / 0x100 / 0x100 / 0x100]
  }

  /** The bytes of a packet, by its hash alone. */
  lemma WireSpelled(p: Pkt)
    requires Shaped(p) && p.style <= 1
    ensures var h := ClosedHash(p.salt, p.junk1[..8]);
            var w, n1, n2 := Wire(p), 1 + h % 8, 1 + h / 8 % 8;
            && |w| == 44 + |p.data| + n1 + n2
            && At(w, 0, if p.style == 0 then [123, 34] else [91, 34])
            && At(w, 2, p.junk1[..11 + n1])
            && At(w, 13 + n1, [Or8(p.kind, p.junk1[20] / 16 * 16)])
            && At(w, 14 + n1, p.cid)
            && At(w, 30 + n1, p.data)
            && At(w, 30 + n1 + |p.data|, FourBytes(ClosedSum(p.salt, Summed(p, n2))))
            && At(w, 34 + n1 + |p.data|, p.junk2[..8 + n2])
            && At(w, |w| - 2, if p.style == 0 then [34, 125] else [34, 93])
  {
    WireLaidOut(p);
    HashIsClosed(p.salt, p.junk1[..8]);
    SumIsClosed(p.salt, Summed(p, Len2(p.salt, p.junk1[..8])));
  }

  /** The type byte: the type below, junk above. */
  lemma TypeByteIs(kind: byte, j: byte)
    requires kind < 16
    ensures Or8(kind, j / 16 * 16) % 16 == kind && Or8(kind, j / 16 * 16) / 16 == j / 16
  {
    Or8HighNibble(kind, j / 16);
    Nibbles(kind, j / 16);
  }

  lemma Nibbles(low: int, high: int)
    requires 0 <= low < 16
    ensures (high * 16 + low) % 16 == low && (high * 16 + low) / 16 == high
  {
  }

  /* ---- what the decoder refuses ---- */

  /** The opening is one of the two styles, and which. */
  predicate Opens(w: bytes, style: byte)
    requires |w| >= 46
  {
    w[1] == 34 && ((style == 0 && w[0] == 123) || (style == 1 && w[0] == 91))
  }

  predicate Closes(w: bytes, style: byte)
    requires |w| >= 46
  {
    w[|w| - 2] == 34 && ((style == 0 && w[|w| - 1] == 125) || (style == 1 && w[|w| - 1] == 93))
  }

  /** The sum in a packet whose hidden lengths are n1 and n2 is that of its other parts. */
  predicate SumFits(salt: u32, w: bytes, n1: nat, n2: nat)
    requires |w| >= 44 + n1 + n2 && n1 >= 1 && 1 <= n2 <= 8
  {
    var m := |w| - 44 - n1 - n2;
    var at := 30 + n1 + m;
    var tail := w[at + 4 + n2..at + 12 + n2];
    w[at..at + 4] == FourBytes(ClosedSum(salt, [w[2 + w[2] % 8]] + (w[14 + n1..30 + n1] + w[30 + n1..30 + n1 + Min(4, m)]) +
                                               [tail[tail[0] % 8]]))
  }

  /** What comes of a packet that is opened in this style. */
  predicate Judged(salt: u32, w: bytes, style: byte, d: Decoded)
    requires |w| >= 46
  {
    var h := ClosedHash(salt, w[2..10]);
    var n1, n2 := 1 + h % 8, 1 + h / 8 % 8;
    if |w| < 44 + n1 + n2 then d == Bad(BadSize)
    else if !SumFits(salt, w, n1, n2) then d == Bad(BadSum)
    else if !Closes(w, style) then d == Bad(BadStyle)
    else d.Good?
  }

  /** On every byte string the error is that of the first thing amiss: too short for any packet; not
      opened in either style; too short for its own hidden lengths; a wrong sum; not closed as it was
      opened. */
  lemma ErrorsSpelled(salt: u32, w: bytes)
    ensures |w| < 46 ==> PacketDecode(salt, w) == Bad(BadSize)
    ensures |w| >= 46 && !Opens(w, 0) && !Opens(w, 1) ==> PacketDecode(salt, w) == Bad(BadStyle)
    ensures |w| >= 46 && Opens(w, 0) ==> Judged(salt, w, 0, PacketDecode(salt, w))
    ensures |w| >= 46 && Opens(w, 1) ==> Judged(salt, w, 1, PacketDecode(salt, w))
  {
    if |w| >= 46 && Opens(w, 0) {
      OpenedSpelled(salt, w, 0);
    }
    if |w| >= 46 && Opens(w, 1) {
      OpenedSpelled(salt, w, 1);
    }
  }

  lemma OpenedSpelled(salt: u32, w: bytes, style: byte)
    requires |w| >= 46 && Opens(w, style)
    ensures Judged(salt, w, style, PacketDecode(salt, w))
  {
    HashIsClosed(salt, w[2..10]);
    FieldsSpelled(salt, w, LayoutOf(salt, w));
    OpenedDecode(salt, w, style);
  }

  lemma OpenedDecode(salt: u32, w: bytes, style: byte)
    requires |w| >= 46 && Opens(w, style)
    ensures PacketDecode(salt, w) ==
            if DecodeFields(salt, w).Bad? || Closes(w, style) then DecodeFields(salt, w) else Bad(BadStyle)
  {
  }

  lemma FieldsSpelled(salt: u32, w: bytes, l: Layout)
    requires |w| >= 46 && LayoutOf(salt, w) == l
    ensures 1 <= l.len1 <= 8 && 1 <= l.len2 <= 8
    ensures if |w| < 44 + l.len1 + l.len2 then DecodeFields(salt, w) == Bad(BadSize)
            else if SumFits(salt, w, l.len1, l.len2) then DecodeFields(salt, w).Good?
            else DecodeFields(salt, w) == Bad(BadSum)
  {
    if l.DataLength() >= 0 {
      var n1, n2 := l.len1, l.len2;
      var at := l.Sum();
      var cid, data, tail := w[14 + n1..30 + n1], w[30 + n1..at], w[at + 4 + n2..at + 12 + n2];
      FieldsAre(salt, w, l, cid, data, w[l.Kind()] % 16, w[2..10], tail, GetLe32(w, at));
      CoveredSpelled(w, cid, n1, l.DataLength(), tail);
      SumSpelled(salt, w, n1, n2, Covered(w[2..10][w[2..10][0] % 8], cid, data, tail[tail[0] % 8]));
    }
  }

  lemma SumSpelled(salt: u32, w: bytes, n1: nat, n2: nat, covered: bytes)
    requires |w| >= 44 + n1 + n2 && 1 <= n1 && 1 <= n2 <= 8
    requires var m := |w| - 44 - n1 - n2;
             var tail := w[30 + n1 + m + 4 + n2..30 + n1 + m + 12 + n2];
             covered == [w[2 + w[2] % 8]] + (w[14 + n1..30 + n1] + w[30 + n1..30 + n1 + Min(4, m)]) + [tail[tail[0] % 8]]
    ensures Sum(salt, covered) == GetLe32(w, |w| - 14 - n2) <==> SumFits(salt, w, n1, n2)
  {
    SumIsClosed(salt, covered);
    SumBytes(w, |w| - 14 - n2, Sum(salt, covered));
  }

  lemma CoveredSpelled(w: bytes, cid: ConnID, n1: nat, m: nat, tail: bytes)
    requires |w| >= 44 + n1 + m && |tail| == 8
    ensures Covered(w[2..10][w[2..10][0] % 8], cid, w[30 + n1..30 + n1 + m], tail[tail[0] % 8]) ==
            [w[2 + w[2] % 8]] + (cid + w[30 + n1..30 + n1 + Min(4, m)]) + [tail[tail[0] % 8]]
  {
    assert w[30 + n1..30 + n1 + m][..Min(4, m)] == w[30 + n1..30 + n1 + Min(4, m)];
  }

  lemma SumBytes(w: bytes, at: nat, sum: u32)
    requires at + 4 <= |w|
    ensures GetLe32(w, at) == sum <==> w[at..at + 4] == FourBytes(sum)
  {
    Le32Surjective(w, at);
    if w[at..at + 4] == FourBytes(sum) {
      ReadLe32(w, at, sum);
    }
  }
}

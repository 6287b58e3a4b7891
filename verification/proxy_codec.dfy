/** The packet encoder and decoder as they run: a growing buffer, a cursor, and a reused hasher. */
module ProxyCodec {
  import opened Bytes
  import opened ProxyHash
  import opened ProxyPacket

  /** The 64 characters text junk is made of: digits, letters, '_' and ':'. */
  function MapByteAlphanum(b: byte): byte {
    var v := b % 64;
    if v < 10 then 48 + v
    else if v < 36 then 65 + (v - 10)
    else if v < 62 then 97 + (v - 36)
    else if v == 62 then 95
    else 58
  }

  const DIGITS := "0123456789"
  const CAPITALS := "ABCDEFGHIJKLMNOPQRSTUVWXYZ"
  const SMALL := "abcdefghijklmnopqrstuvwxyz"
  const ALPHABET := DIGITS + CAPITALS + SMALL + "_:"

  lemma Letters(i: nat)
    ensures i < 10 ==> DIGITS[i] as int == 48 + i
    ensures i < 26 ==> CAPITALS[i] as int == 65 + i && SMALL[i] as int == 97 + i
  {
  }

  /** Which of the 64 is picked by the low six bits. */
  lemma AlphabetIs(b: byte)
    ensures |ALPHABET| == 64 && MapByteAlphanum(b) == ALPHABET[b % 64] as int
  {
    var v := b % 64;
    if v < 10 {
      Letters(v);
    } else if v < 36 {
      Letters(v - 10);
    } else if v < 62 {
      Letters(v - 36);
    }
  }

  predicate IsText(b: bytes) {
    forall i :: 0 <= i < |b| ==> 48 <= b[i] <= 58 || 65 <= b[i] <= 90 || b[i] == 95 || 97 <= b[i] <= 122
  }

  function TextOf(raw: bytes): (b: bytes)
    ensures |b| == |raw| && IsText(b)
  {
    seq(|raw|, i requires 0 <= i < |raw| => MapByteAlphanum(raw[i]))
  }

  /** Random bytes as text. */
  method TextJunk(raw: bytes) returns (b: bytes)
    ensures b == TextOf(raw)
  {
    b := raw;
    for i := 0 to |raw|
      invariant |b| == |raw| && b[i..] == raw[i..]
      invariant b[..i] == TextOf(raw)[..i]
    {
      b := b[i := MapByteAlphanum(raw[i])];
    }
  }

  /** Three random numbers of 1, 2 and 3 bits reach every junk type. */
  function JunkKind(v: u64): (kind: byte)
    ensures PACKET_JUNK <= kind < 16
  {
    PACKET_JUNK + v / 0x100 % 2 + v / 0x1_0000 % 4 + v / 0x100_0000 % 8
  }

  /** The three are bit 8, bits 16 and 17, and bits 24 to 26; the others do not matter. */
  lemma JunkKindIs(v: u64, a: nat, x1: nat, b: nat, x2: nat, c: nat, x3: nat, d: nat)
    requires a < 0x100 && x1 < 2 && b < 0x80 && x2 < 4 && c < 0x40 && x3 < 8
    requires v == a + 0x100 * x1 + 0x200 * b + 0x1_0000 * x2 + 0x4_0000 * c + 0x100_0000 * x3 + 0x800_0000 * d
    ensures JunkKind(v) as int == 4 + x1 + x2 + x3
  {
    assert v / 0x100 == x1 + 2 * (b + 0x80 * (x2 + 4 * (c + 0x40 * (x3 + 8 * d))));
    assert v / 0x1_0000 == x2 + 4 * (c + 0x40 * (x3 + 8 * d));
    assert v / 0x100_0000 == x3 + 8 * d;
  }

  /** A packet prepared for encoding with the caller's random numbers: two arrays of junk, v for
      the style and a junk type, and noise for the data of an empty junk packet. */
  function Prepared(p: Pkt, raw1: bytes, raw2: bytes, v: u64, noise: bytes, salt: u32): Pkt
    requires |noise| == 64
  {
    var junk := p.kind >= PACKET_JUNK;
    Pkt(if junk && p.data == [] then noise[..1 + v / WORD32 % 64] else p.data,
        p.cid, TextOf(raw1), TextOf(raw2), salt, if junk then JunkKind(v) else p.kind, v % 2)
  }

  /** It is one the codec takes, for the same connection, and means what it meant. */
  lemma PreparedMeans(p: Pkt, raw1: bytes, raw2: bytes, v: u64, noise: bytes, salt: u32)
    requires |raw1| == 24 && |raw2| == 16 && |noise| == 64
    ensures var q := Prepared(p, raw1, raw2, v, noise, salt);
            && Encodable(q) && IsText(q.junk1) && IsText(q.junk2)
            && q.cid == p.cid && q.salt == salt && q.style as int == v % 2
            && (if p.kind >= 4 then 4 <= q.kind else q.kind == p.kind)
            && (if p.kind >= 4 && p.data == [] then |q.data| == 1 + v / 0x1_0000_0000 % 64 && q.data <= noise
                else q.data == p.data)
  {
  }

  class Packet {
    var data: bytes
    var cid: ConnID
    var junk1: bytes
    var junk2: bytes
    var salt: u32
    var kind: byte
    var style: byte
    var ok: bool

    constructor ()
      ensures Valid() && !ok && data == []
    {
      data := [];
      cid := seq(16, _ => 0);
      junk1, junk2 := seq(24, _ => 0), seq(16, _ => 0);
      salt, kind, style, ok := 0, 0, 0, false;
    }

    /** The array sizes. */
    predicate Valid()
      reads this
    {
      |junk1| == 24 && |junk2| == 16
    }

    function View(): Pkt
      reads this
    {
      Pkt(data, cid, junk1, junk2, salt, kind, style)
    }

    method InitEncode(raw1: bytes, raw2: bytes, v: u64, noise: bytes, salt: u32)
      requires Valid() && |raw1| == 24 && |raw2| == 16 && |noise| == 64
      modifies this
      ensures Valid() && ok && View() == Prepared(old(View()), raw1, raw2, v, noise, salt)
    {
      junk1 := TextJunk(raw1);
      junk2 := TextJunk(raw2);
      style := v % 2;
      if kind >= PACKET_JUNK {
        var x1 := v / 0x100 % 2;
        var x2 := v / 0x1_0000 % 4;
        var x3 := v / 0x100_0000 % 8;
        kind := PACKET_JUNK + x1 + x2 + x3;
        if |data| == 0 {
          var n := 1 + v / WORD32 % 64;
          data := noise[..n];
        }
      }
      this.salt := salt;
      ok := true;
    }

    method InitDecode(salt: u32)
      requires Valid()
      modifies this
      ensures Valid() && ok && View() == old(View()).(salt := salt)
    {
      this.salt := salt;
      ok := true;
    }

    method PutData(raw1: bytes, raw2: bytes, v: u64, salt: u32, cid: ConnID, data: bytes)
      requires Valid() && |raw1| == 24 && |raw2| == 16
      modifies this
      ensures Valid() && ok
      ensures View() == Pkt(data, cid, TextOf(raw1), TextOf(raw2), salt, PACKET_DATA, v % 2)
    {
      this.cid := cid;
      this.data := data;
      kind := PACKET_DATA;
      InitEncode(raw1, raw2, v, seq(64, _ => 0), salt);
    }

    method PutJunk(raw1: bytes, raw2: bytes, v: u64, noise: bytes, salt: u32, cid: ConnID)
      requires Valid() && |raw1| == 24 && |raw2| == 16 && |noise| == 64
      modifies this
      ensures Valid() && ok
      ensures View() == Prepared(old(View()).(cid := cid, kind := PACKET_JUNK), raw1, raw2, v, noise, salt)
    {
      this.cid := cid;
      kind := PACKET_JUNK;
      InitEncode(raw1, raw2, v, noise, salt);
    }
  }

  /* ---- encoder ---- */

  class Encoder {
    var buf: bytes

    constructor (buf: bytes)
      ensures this.buf == buf
    {
      this.buf := buf;
    }

    method Put(data: bytes)
      modifies this
      ensures buf == old(buf) + data
    {
      buf := buf + data;
    }

    method PutB(b: byte)
      modifies this
      ensures buf == old(buf) + [b]
    {
      buf := buf + [b];
    }

    method U16(v: u16)
      modifies this
      ensures buf == old(buf) + Le16(v)
    {
      buf := buf + [v % 0x100, v / 0x100];
    }

    method U32(v: u32)
      modifies this
      ensures buf == old(buf) + Le32(v)
    {
      buf := buf + [v % 0x100, v / 0x100 % 0x100, v / 0x100 / 0x100 % 0x100, v / 0x100 / 0x100 / 0x100];
    }

    method Start(style: byte)
      requires style <= 1
      modifies this
      ensures buf == old(buf) + Opening(style)
    {
      if style == 0 {
        Put([123, QUOTE]);
      } else {
        Put([91, QUOTE]);
      }
    }

    method End(style: byte)
      requires style <= 1
      modifies this
      ensures buf == old(buf) + Closing(style)
    {
      if style == 0 {
        Put([QUOTE, 125]);
      } else {
        Put([QUOTE, 93]);
      }
    }

    method Packet(p: Packet)
      requires p.Valid() && p.style <= 1
      modifies this
      ensures buf == old(buf) + Wire(p.View())
    {
      ghost var view := p.View();
      var hasher := new Hasher();
      var len1, len2 := HiddenLengths(hasher, p.salt, p.junk1[..8]);
      var typ := Or8(p.kind, p.junk1[20] / 16 * 16);

      var i1 := p.junk1[0] % 8;
      var i2 := len2 + p.junk2[len2] % 8;
      var csum := SumOf(hasher, p.salt, p.junk1[i1], p.cid, p.data, p.junk2[i2]);
      assert csum == ControlSum(view);

      Start(p.style);
      Put(p.junk1[..8 + len1 + 3]);
      PutB(typ);
      Put(p.cid);
      ghost var ps := Parts(view);
      assert buf == old(buf) + ps[0] + ps[1] + ps[2] + ps[3];
      Put(p.data);
      U32(csum);
      Put(p.junk2[..8 + len2]);
      End(p.style);
      FlattenEight(old(buf), ps);
    }
  }

  lemma FlattenEight(buf: bytes, ps: seq<bytes>)
    requires |ps| == 8
    ensures buf + ps[0] + ps[1] + ps[2] + ps[3] + ps[4] + ps[5] + ps[6] + ps[7] == buf + Flatten(ps)
  {
    FlattenFour(buf, ps);
    FlattenFour(buf + ps[0] + ps[1] + ps[2] + ps[3], ps[4..]);
    assert ps[4..][4..] == [];
    assert buf + ps[0] + ps[1] + ps[2] + ps[3] + Flatten(ps[4..]) == buf + Flatten(ps);
  }

  lemma FlattenFour(buf: bytes, ps: seq<bytes>)
    requires |ps| >= 4
    ensures buf + Flatten(ps) == buf + ps[0] + ps[1] + ps[2] + ps[3] + Flatten(ps[4..])
  {
    FlattenStep(buf, ps);
    FlattenStep(buf + ps[0], ps[1..]);
    FlattenStep(buf + ps[0] + ps[1], ps[2..]);
    FlattenStep(buf + ps[0] + ps[1] + ps[2], ps[3..]);
  }

  lemma FlattenStep(buf: bytes, ps: seq<bytes>)
    requires ps != []
    ensures buf + Flatten(ps) == buf + ps[0] + Flatten(ps[1..])
  {
  }

  method HiddenLengths(hasher: Hasher, salt: u32, head: bytes) returns (len1: nat, len2: nat)
    modifies hasher
    ensures len1 == Len1(salt, head) && len2 == Len2(salt, head)
  {
    hasher.Reset(salt);
    hasher.Put(head);
    var h := hasher.val;
    len1 := 1 + h % 8;
    len2 := 1 + h / 8 % 8;
  }

  /** The control sum, fed to the hasher piece by piece. */
  method SumOf(hasher: Hasher, salt: u32, b1: byte, cid: ConnID, data: bytes, b2: byte) returns (csum: u32)
    modifies hasher
    ensures csum == Sum(salt, Covered(b1, cid, data, b2))
  {
    var head := data[..Min(4, |data|)];
    hasher.Reset(salt);
    hasher.PutB(b1);
    hasher.Put(cid);
    hasher.Put(head);
    hasher.PutB(b2);
    csum := hasher.Get32();
    CoveredInPieces(Seeded(salt), b1, cid, head, b2);
  }

  lemma CoveredInPieces(v: u64, b1: byte, cid: bytes, head: bytes, b2: byte)
    ensures Absorb(v, [b1] + (cid + head) + [b2]) == Mix(Absorb(Absorb(Mix(v, b1), cid), head), b2)
  {
    AbsorbAppended(v, [b1] + (cid + head), [b2]);
    AbsorbAppended(v, [b1], cid + head);
    AbsorbAppended(Mix(v, b1), cid, head);
    AbsorbOne(v, b1);
    AbsorbOne(Absorb(Absorb(Mix(v, b1), cid), head), b2);
  }

  /** Encode panics on a packet that was not initialised or has no such style. */
  method Encode(p: Packet, buf: bytes) returns (out: bytes)
    requires p.ok && p.Valid() && p.style <= 1
    ensures out == buf + Wire(p.View())
  {
    var c := new Encoder(buf);
    c.Packet(p);
    return c.buf;
  }

  /* ---- decoder ---- */

  datatype Outcome = Accepted | Refused(error: Error)

  class Decoder {
    const buf: bytes
    var pos: nat

    constructor (buf: bytes)
      ensures this.buf == buf && pos == 0
    {
      this.buf := buf;
      pos := 0;
    }

    function Len(): int
      reads this
    {
      |buf| - pos
    }

    method U8() returns (v: byte)
      requires Len() >= 1
      modifies this
      ensures v == buf[old(pos)] && pos == old(pos) + 1
    {
      v := buf[pos];
      pos := pos + 1;
    }

    method U16() returns (v: u16)
      requires Len() >= 2
      modifies this
      ensures v == GetLe16(buf, old(pos)) && pos == old(pos) + 2
    {
      v := Word2(buf[pos + 1], buf[pos]);
      pos := pos + 2;
    }

    method U32() returns (v: u32)
      requires Len() >= 4
      modifies this
      ensures v == GetLe32(buf, old(pos)) && pos == old(pos) + 4
    {
      v := Word4(buf[pos + 3], buf[pos + 2], buf[pos + 1], buf[pos]);
      pos := pos + 4;
    }

    method Bytes(n: nat) returns (b: bytes)
      requires Len() >= n
      modifies this
      ensures b == buf[old(pos)..old(pos) + n] && pos == old(pos) + n
    {
      b := buf[pos..pos + n];
      pos := pos + n;
    }

    method Skip(n: nat)
      modifies this
      ensures pos == old(pos) + n
    {
      pos := pos + n;
    }

    /** The style prefix, if there is one. */
    method Start() returns (style: int)
      requires pos == 0 && Len() >= 2
      modifies this
      ensures style == if buf[1] == QUOTE then StyleOf(buf[0], 123, 91) else -1
      ensures style >= 0 ==> pos == 2
    {
      var open1 := U8();
      if open1 != 123 && open1 != 91 {
        return -1;
      }
      var open2 := U8();
      if open2 != QUOTE {
        return -1;
      }
      return if open1 == 123 then 0 else 1;
    }

    /** The style suffix, if there is one. */
    method End() returns (style: int)
      requires pos == |buf| - 2
      modifies this
      ensures style == if buf[|buf| - 2] == QUOTE then StyleOf(buf[|buf| - 1], 125, 93) else -1
      ensures style >= 0 ==> pos == |buf|
    {
      var close1 := U8();
      if close1 != QUOTE {
        return -1;
      }
      var close2 := U8();
      if close2 != 125 && close2 != 93 {
        return -1;
      }
      return if close2 == 125 then 0 else 1;
    }

    /** From the first junk to the connection id. */
    method Head(hasher: Hasher, salt: u32) returns (prefix: bytes, len2: nat, typ: byte, cid: ConnID)
      requires pos == 2 && |buf| >= MIN_PACKET_LENGTH
      modifies this, hasher
      ensures var l := LayoutOf(salt, buf);
              && pos == l.Data() && prefix == buf[2..10] && len2 == l.len2
              && typ == Collapse(buf[l.Kind()] % 16) && cid == buf[l.Cid()..l.Cid() + 16]
    {
      var len1;
      prefix := Bytes(8);
      len1, len2 := HiddenLengths(hasher, salt, prefix);
      Skip(len1 + 3);
      typ := U8();
      typ := typ % 16;
      if typ >= PACKET_JUNK {
        typ := PACKET_JUNK;
      }
      cid := Bytes(16);
    }

    /** From the first junk to the last. Every read is in range. */
    method Fields(salt: u32) returns (r: Decoded)
      requires pos == 2 && |buf| >= MIN_PACKET_LENGTH
      modifies this
      ensures r == DecodeFields(salt, buf)
      ensures r.Good? ==> pos == |buf| - 2
    {
      ghost var l := LayoutOf(salt, buf);
      var hasher := new Hasher();
      var prefix, len2, typ, cid := Head(hasher, salt);

      var dlen := Len() - 4 - len2 - 8 - 2;
      if dlen < 0 {
        return Bad(BadSize);
      }
      var data := Bytes(dlen);
      assert pos == l.Sum();
      var csum := U32();
      Skip(len2);
      assert pos == l.Suffix();
      var suffix := Bytes(8);
      var sum := SumOf(hasher, salt, prefix[prefix[0] % 8], cid, data, suffix[suffix[0] % 8]);
      if sum != csum {
        return Bad(BadSum);
      }
      return Good(cid, data, typ);
    }

    /** The packet is written to only on success, and then the whole input has been read. */
    method Packet(p: Packet) returns (r: Outcome)
      requires pos == 0
      modifies this, p
      ensures match PacketDecode(old(p.salt), buf)
              case Bad(e) => r == Refused(e) && p.View() == old(p.View())
              case Good(cid, data, kind) =>
                && r == Accepted && pos == |buf|
                && p.View() == old(p.View()).(cid := cid, data := data, kind := kind)
      ensures p.ok == old(p.ok)
    {
      if Len() < MIN_PACKET_LENGTH {
        return Refused(BadSize);
      }
      var s1 := Start();
      if s1 < 0 {
        return Refused(BadStyle);
      }
      var fields := Fields(p.salt);
      if fields.Bad? {
        return Refused(fields.error);
      }
      var s2 := End();
      if s2 < 0 || s1 != s2 {
        return Refused(BadStyle);
      }
      p.data := fields.data;
      p.cid := fields.cid;
      p.kind := fields.kind;
      return Accepted;
    }
  }

  method Decode(p: Packet, data: bytes) returns (r: Outcome)
    requires p.ok
    modifies p
    ensures match PacketDecode(old(p.salt), data)
            case Bad(e) => r == Refused(e) && p.View() == old(p.View())
            case Good(cid, payload, kind) =>
              r == Accepted && p.View() == old(p.View()).(cid := cid, data := payload, kind := kind)
    ensures p.ok
  {
    var d := new Decoder(data);
    r := d.Packet(p);
  }
}

/** The packet layout: an inner part between text junk of hidden lengths, dressed as JSON. */
module ProxyPacket {
  import opened Bytes
  import opened ProxyHash

  type ConnID = c: bytes | |c| == 16 witness seq(16, _ => 0)

  const PACKET_PING: byte := 0
  const PACKET_HELLO: byte := 1
  const PACKET_CLOSE: byte := 2
  const PACKET_DATA: byte := 3
  const PACKET_JUNK: byte := 4

  const QUOTE: byte := 34
  const MIN_PACKET_LENGTH := 46

  /** Every type from PACKET_JUNK on means junk. */
  function Collapse(kind: byte): byte {
    if kind >= PACKET_JUNK then PACKET_JUNK else kind
  }

  /** All that goes into an encoded packet. */
  datatype Pkt = Pkt(data: bytes, cid: ConnID, junk1: bytes, junk2: bytes, salt: u32, kind: byte, style: byte)

  /** The sizes of the two junk arrays. */
  predicate Shaped(p: Pkt) {
    |p.junk1| == 24 && |p.junk2| == 16
  }

  /** What Encode asks of its caller beyond initialised fields: one of the two styles, and a type
      that fits in four bits. */
  predicate Encodable(p: Pkt) {
    Shaped(p) && p.style <= 1 && p.kind < 16
  }

  // The two hidden lengths, from the salted hash of the first 8 inner bytes.
  function Len1(salt: u32, head: bytes): (n: nat)
    ensures 1 <= n <= 8
  {
    1 + Absorb(Seeded(salt), head) % 8
  }

  function Len2(salt: u32, head: bytes): (n: nat)
    ensures 1 <= n <= 8
  {
    1 + Absorb(Seeded(salt), head) / 8 % 8
  }

  /** The bytes under the control sum. */
  function Covered(b1: byte, cid: ConnID, data: bytes, b2: byte): bytes {
    [b1] + (cid + data[..Min(4, |data|)]) + [b2]
  }

  function Sum(salt: u32, covered: bytes): u32 {
    Fold32(Absorb(Seeded(salt), covered))
  }

  function Opening(style: byte): bytes {
    [if style == 0 then 123 else 91, QUOTE]
  }

  function Closing(style: byte): bytes {
    [QUOTE, if style == 0 then 125 else 93]
  }

  function TypeByte(p: Pkt): byte
    requires Shaped(p)
  {
    Or8(p.kind, p.junk1[20] / 16 * 16)
  }

  function ControlSum(p: Pkt): u32
    requires Shaped(p)
  {
    var n := Len2(p.salt, p.junk1[..8]);
    Sum(p.salt, Covered(p.junk1[p.junk1[0] % 8], p.cid, p.data, p.junk2[n + p.junk2[n] % 8]))
  }

  /** The parts of an encoded packet, in order. */
  function Parts(p: Pkt): (ps: seq<bytes>)
    requires Shaped(p)
    ensures |ps| == 8
  {
    var n1, n2 := Len1(p.salt, p.junk1[..8]), Len2(p.salt, p.junk1[..8]);
    [Opening(p.style), p.junk1[..8 + n1 + 3], [TypeByte(p)], p.cid, p.data,
     Le32(ControlSum(p)), p.junk2[..8 + n2], Closing(p.style)]
  }

  function Flatten(ps: seq<bytes>): bytes
    decreases |ps|
  {
    if ps == [] then [] else ps[0] + Flatten(ps[1..])
  }

  function Wire(p: Pkt): bytes
    requires Shaped(p)
  {
    Flatten(Parts(p))
  }

  /* ---- decoding ---- */

  datatype Error = BadSize | BadStyle | BadSum

  datatype Decoded = Bad(error: Error) | Good(cid: ConnID, data: bytes, kind: byte)

  /** Offsets of the fields, from the hidden lengths. */
  datatype Layout = Layout(len1: nat, len2: nat, size: int) {
    function Kind(): nat { 2 + 8 + len1 + 3 }
    function Cid(): nat { Kind() + 1 }
    function Data(): nat { Cid() + 16 }
    function DataLength(): int { size - Data() - 4 - len2 - 8 - 2 }
    function Sum(): int { Data() + DataLength() }
    function Suffix(): int { Sum() + 4 + len2 }
  }

  function LayoutOf(salt: u32, w: bytes): Layout
    requires |w| >= MIN_PACKET_LENGTH
  {
    Layout(Len1(salt, w[2..10]), Len2(salt, w[2..10]), |w|)
  }

  function StyleOf(opening: byte, first: byte, second: byte): int {
    if opening == first then 0 else if opening == second then 1 else -1
  }

  /** Everything between the two styles. */
  function DecodeFields(salt: u32, w: bytes): Decoded
    requires |w| >= MIN_PACKET_LENGTH
  {
    var l := LayoutOf(salt, w);
    if l.DataLength() < 0 then Bad(BadSize)
    else
      var prefix, suffix := w[2..10], w[l.Suffix()..l.Suffix() + 8];
      var cid := w[l.Cid()..l.Cid() + 16];
      var data := w[l.Data()..l.Sum()];
      var covered := Covered(prefix[prefix[0] % 8], cid, data, suffix[suffix[0] % 8]);
      if Sum(salt, covered) != GetLe32(w, l.Sum()) then Bad(BadSum)
      else Good(cid, data, Collapse(w[l.Kind()] % 16))
  }

  function PacketDecode(salt: u32, w: bytes): Decoded {
    if |w| < MIN_PACKET_LENGTH then Bad(BadSize)
    else if StyleOf(w[0], 123, 91) < 0 || w[1] != QUOTE then Bad(BadStyle)
    else
      var fields := DecodeFields(salt, w);
      if fields.Bad? then fields
      else if w[|w| - 2] != QUOTE || StyleOf(w[|w| - 1], 125, 93) < 0 then Bad(BadStyle)
      else if StyleOf(w[0], 123, 91) != StyleOf(w[|w| - 1], 125, 93) then Bad(BadStyle)
      else fields
  }
}

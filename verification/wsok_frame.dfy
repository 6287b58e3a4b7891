/** WebSocket frames: sections 5.2 and 5.3 of RFC 6455. */
module WsokFrame {
  import opened Bytes

  const CHUNK := 0x4000

  type Mask = m: bytes | |m| == 4 witness [0, 0, 0, 0]

  const NO_MASK: Mask := [0, 0, 0, 0]

  datatype Frame = Frame(data: bytes, op: byte, mask: Mask, ext: byte, fin: bool, useMask: bool)

  /** Section 5.3: byte i is combined with byte i mod 4 of the mask. */
  function Masked(data: bytes, mask: Mask): (r: bytes)
    ensures |r| == |data|
  {
    seq(|data|, i requires 0 <= i < |data| => Xor(data[i], mask[i % 4]))
  }

  lemma UnmaskMasked(data: bytes, mask: Mask)
    ensures Masked(Masked(data, mask), mask) == data
  {
    forall i | 0 <= i < |data|
      ensures Masked(Masked(data, mask), mask)[i] == data[i]
    {
      XorInvolution(data[i], mask[i % 4]);
    }
  }

  function BoolBit(v: bool): byte {
    if v then 1 else 0
  }

  /** The seven length bits and the number of length bytes after them. */
  function SizeBits(size: u64): (byte, nat) {
    if size <= 125 then (size, 0)
    else if size <= 0xFFFF then (126, 2)
    else (127, 8)
  }

  function ExtraSize(useMask: bool, sizeBits: byte): nat {
    (if useMask then 4 else 0) +
    (if sizeBits == 126 then 2 else if sizeBits == 127 then 8 else 0)
  }

  // Section 5.2: one bit, three bits and four bits; one bit and seven bits.
  function Head0(f: Frame): byte {
    BoolBit(f.fin) * 128 + f.ext % 8 * 16 + f.op % 16
  }

  function Head1(f: Frame): byte
    requires |f.data| < WORD64
  {
    BoolBit(f.useMask) * 128 + SizeBits(|f.data|).0
  }

  function SizeBytes(size: u64): (r: bytes)
    ensures |r| == SizeBits(size).1
  {
    BeBytes(size, SizeBits(size).1)
  }

  function HeadBytes(f: Frame): bytes
    requires |f.data| < WORD64
  {
    [Head0(f), Head1(f)] + SizeBytes(|f.data|) + (if f.useMask then f.mask else [])
  }

  function Payload(f: Frame): bytes {
    if f.useMask then Masked(f.data, f.mask) else f.data
  }

  function FrameBytes(f: Frame): bytes
    requires |f.data| < WORD64
  {
    HeadBytes(f) + Payload(f)
  }

  /* ---- decoding ---- */

  datatype Error = EndOfStream | ShortHeader | UnexpectedEnd

  /** next: how many bytes the frame took. */
  datatype Decoded = FrameFail(error: Error) | FrameOk(frame: Frame, next: nat)

  // t: what follows the first two bytes
  function SizeOf(sizeBits: byte, t: bytes): nat
    requires |t| >= ExtraSize(false, sizeBits)
  {
    if sizeBits == 126 then BeValue(t[..2]) else if sizeBits == 127 then BeValue(t[..8]) else sizeBits
  }

  function FrameDecode(s: bytes): Decoded {
    if |s| == 0 then FrameFail(EndOfStream)
    else if |s| < 2 then FrameFail(ShortHeader)
    else BodyDecode(s[0], s[1], s[2..])
  }

  /** What follows the first two bytes of a header: length bytes and mask. */
  datatype Extra = NoExtra(error: Error) | Extra(size: nat, mask: Mask)

  function ExtraDecode(useMask: bool, sizeBits: byte, t: bytes): Extra {
    var extra := ExtraSize(useMask, sizeBits);
    if extra > 0 && |t| == 0 then NoExtra(EndOfStream)
    else if |t| < extra then NoExtra(ShortHeader)
    else Extra(SizeOf(sizeBits, t), if useMask then t[extra - 4..extra] else NO_MASK)
  }

  /** The frame that starts with b0 and b1 and goes on with t. */
  function BodyDecode(b0: byte, b1: byte, t: bytes): Decoded {
    var useMask, sizeBits := b1 / 128 == 1, b1 % 128;
    match ExtraDecode(useMask, sizeBits, t)
    case NoExtra(e) => FrameFail(e)
    case Extra(size, mask) =>
      var extra := ExtraSize(useMask, sizeBits);
      PayloadDecode(Frame([], b0 % 16, mask, b0 / 16 % 8, b0 / 128 == 1, useMask), size, t[extra..], 2 + extra)
  }

  /** The frame with this header and `size` bytes of u as payload. */
  function PayloadDecode(f: Frame, size: nat, u: bytes, header: nat): Decoded {
    if size > 0 && |u| == 0 then FrameFail(EndOfStream)
    else if |u| < size then FrameFail(UnexpectedEnd)
    else FrameOk(f.(data := if f.useMask then Masked(u[..size], f.mask) else u[..size]), header + size)
  }

  /* ---- one frame ---- */

  /** What a frame becomes on the wire: a 4-bit opcode, 3 extension bits, no mask unless used. */
  function Normal(f: Frame): Frame {
    f.(op := f.op % 16, ext := f.ext % 8, mask := if f.useMask then f.mask else NO_MASK)
  }

  lemma HeadFields(f: Frame)
    requires |f.data| < WORD64
    ensures Head0(f) % 16 == f.op % 16 && Head0(f) / 16 % 8 == f.ext % 8 && Head0(f) / 128 == BoolBit(f.fin)
    ensures Head1(f) / 128 == BoolBit(f.useMask) && Head1(f) % 128 == SizeBits(|f.data|).0
  {
    var e, o := f.ext % 8, f.op % 16;
    var low := e * 16 + o;
    assert low / 16 == e && low % 16 == o;
    assert Head0(f) == BoolBit(f.fin) * 128 + low;
  }

  /** Where a frame leaves its parts, whatever follows. */
  ghost predicate Laid(f: Frame, s: bytes)
    requires |f.data| < WORD64
  {
    var bits := SizeBits(|f.data|).0;
    var extra := ExtraSize(f.useMask, bits);
    && |s| >= 2 + extra + |f.data|
    && s[0] == Head0(f) && s[1] == Head1(f)
    && SizeOf(bits, s[2..]) == |f.data|
    && (f.useMask ==> s[2..][extra - 4..extra] == f.mask)
    && s[2..][extra..][..|f.data|] == Payload(f)
  }

  lemma PartsLaid(f: Frame, rest: bytes)
    requires |f.data| < WORD64
    ensures Laid(f, FrameBytes(f) + rest)
    ensures |FrameBytes(f)| == 2 + ExtraSize(f.useMask, SizeBits(|f.data|).0) + |f.data|
  {
    var size := SizeBytes(|f.data|);
    var mask: bytes := if f.useMask then f.mask else [];
    var head := [Head0(f), Head1(f)];
    RawParts(head, size, mask, Payload(f), rest);
    SizeLaid(|f.data|, mask + Payload(f) + rest);
    assert FrameBytes(f) + rest == head + size + mask + Payload(f) + rest;
  }

  lemma RawParts(head: bytes, size: bytes, mask: bytes, payload: bytes, rest: bytes)
    requires |head| == 2
    ensures var s, extra := head + size + mask + payload + rest, |size| + |mask|;
            && s[0] == head[0] && s[1] == head[1]
            && s[2..] == size + (mask + payload + rest)
            && s[2..][|size|..extra] == mask
            && s[2..][extra..][..|payload|] == payload
  {
    var s, t := head + size + mask + payload + rest, size + mask + payload + rest;
    assert s == head + t;
    assert s[2..] == t == size + (mask + payload + rest);
    ThreeParts(size, mask, payload, rest);
  }

  lemma ThreeParts(a: bytes, b: bytes, c: bytes, d: bytes)
    ensures var t := a + b + c + d;
            && t[|a|..|a| + |b|] == b
            && t[|a| + |b|..][..|c|] == c
  {
  }

  lemma SizeLaid(n: u64, more: bytes)
    ensures SizeOf(SizeBits(n).0, SizeBytes(n) + more) == n
  {
    var size := SizeBytes(n);
    WordSizes();
    if |size| > 0 {
      BeRoundTrip(n, |size|);
      assert (size + more)[..|size|] == size;
    }
  }

  /** Decoding a frame at the front of a stream gives it back and takes exactly its bytes. */
  lemma FrameRoundTrip(f: Frame, rest: bytes)
    requires |f.data| < WORD64
    ensures FrameDecode(FrameBytes(f) + rest) == FrameOk(Normal(f), |FrameBytes(f)|)
    ensures |FrameBytes(f)| == 2 + SizeBits(|f.data|).1 + (if f.useMask then 4 else 0) + |f.data|
  {
    PartsLaid(f, rest);
    HeadFields(f);
    UnmaskMasked(f.data, f.mask);
  }

  /** A frame comes back unchanged exactly when its fields fit the wire. */
  lemma FrameUnchanged(f: Frame, rest: bytes)
    requires |f.data| < WORD64
    ensures FrameDecode(FrameBytes(f) + rest) == FrameOk(f, |FrameBytes(f)|) <==>
            f.op < 16 && f.ext < 8 && (f.useMask || f.mask == NO_MASK)
  {
    FrameRoundTrip(f, rest);
    NormalIs(f);
  }

  lemma NormalIs(f: Frame)
    ensures Normal(f) == f <==> f.op < 16 && f.ext < 8 && (f.useMask || f.mask == NO_MASK)
  {
  }

  /** A decoded frame does not depend on what follows it. */
  lemma FrameStable(s: bytes, more: bytes)
    requires FrameDecode(s).FrameOk?
    ensures FrameDecode(s + more) == FrameDecode(s)
    ensures 2 <= FrameDecode(s).next <= |s|
  {
    assert (s + more)[2..] == s[2..] + more;
    BodyStable(s[0], s[1], s[2..], more);
  }

  lemma BodyStable(b0: byte, b1: byte, t: bytes, more: bytes)
    requires BodyDecode(b0, b1, t).FrameOk?
    ensures BodyDecode(b0, b1, t + more) == BodyDecode(b0, b1, t)
    ensures 2 <= BodyDecode(b0, b1, t).next <= |t| + 2
  {
    var sizeBits := b1 % 128;
    var extra := ExtraSize(b1 / 128 == 1, sizeBits);
    TailStable(t, more, sizeBits, extra, BodyDecode(b0, b1, t).next - 2 - extra);
  }

  lemma TailStable(t: bytes, more: bytes, sizeBits: byte, extra: nat, size: nat)
    requires ExtraSize(false, sizeBits) <= extra && extra + size <= |t|
    ensures var t' := t + more;
            && SizeOf(sizeBits, t') == SizeOf(sizeBits, t)
            && t'[..extra] == t[..extra]
            && (extra >= 4 ==> t'[extra - 4..extra] == t[extra - 4..extra])
            && t'[extra..][..size] == t[extra..][..size]
  {
    var t', n := t + more, ExtraSize(false, sizeBits);
    assert t'[..n] == t[..n];
  }

  /** No proper prefix of a frame is a frame: streams need no other marks between frames. */
  lemma SelfDelimiting(f: Frame, k: nat)
    requires |f.data| < WORD64 && k < |FrameBytes(f)|
    ensures FrameDecode(FrameBytes(f)[..k]).FrameFail?
  {
    var b := FrameBytes(f);
    if FrameDecode(b[..k]).FrameOk? {
      FrameStable(b[..k], b[k..]);
      assert b[..k] + b[k..] == b + [];
      FrameRoundTrip(f, []);
      assert false;
    }
  }

  /** How many header bytes follow the first two. */
  function HeaderRest(f: Frame): nat {
    (if f.useMask then 4 else 0) + (if |f.data| <= 125 then 0 else if |f.data| <= 0xFFFF then 2 else 8)
  }

  /** What is reported of a frame that stops short: the end of the stream where one of the three
      reads finds nothing, a short header within one of the first two, and an unexpected end within
      the payload. */
  lemma PrefixError(f: Frame, k: nat)
    requires |f.data| < WORD64 && k < |FrameBytes(f)|
    ensures |FrameBytes(f)| == 2 + HeaderRest(f) + |f.data|
    ensures FrameDecode(FrameBytes(f)[..k]) ==
            FrameFail(if k == 0 then EndOfStream
                      else if k == 1 then ShortHeader
                      else if k < 2 + HeaderRest(f) then if k == 2 then EndOfStream else ShortHeader
                      else if k == 2 + HeaderRest(f) then EndOfStream
                      else UnexpectedEnd)
  {
    var b := FrameBytes(f);
    PartsLaid(f, []);
    HeadFields(f);
    assert b + [] == b;
    if k >= 2 {
      var t := b[2..k];
      assert b[..k][2..] == t;
      assert b[..k][0] == b[0] && b[..k][1] == b[1];
      assert t + b[k..] == b[2..];
      PrefixBody(b[0], b[1], t, b[k..], f);
    }
  }

  lemma PrefixBody(b0: byte, b1: byte, t: bytes, more: bytes, f: Frame)
    requires |f.data| < WORD64 && |t| < HeaderRest(f) + |f.data|
    requires b1 / 128 == BoolBit(f.useMask) && b1 % 128 == SizeBits(|f.data|).0
    requires |t + more| >= HeaderRest(f) && SizeOf(b1 % 128, t + more) == |f.data|
    ensures BodyDecode(b0, b1, t) ==
            FrameFail(if |t| < HeaderRest(f) then if |t| == 0 then EndOfStream else ShortHeader
                      else if |t| == HeaderRest(f) then EndOfStream
                      else UnexpectedEnd)
  {
    var sizeBits := b1 % 128;
    assert ExtraSize(b1 / 128 == 1, sizeBits) == HeaderRest(f);
    if |t| >= HeaderRest(f) {
      TailStable(t, more, sizeBits, HeaderRest(f), 0);
    }
  }

  /** The length is written in the shortest of the three forms: no accepted bytes that mean the
      same frame are fewer. */
  lemma ShortestForm(s: bytes)
    requires FrameDecode(s).FrameOk?
    ensures |FrameDecode(s).frame.data| < WORD64
    ensures FrameDecode(s).next >= |FrameBytes(FrameDecode(s).frame)|
  {
    var f, bits := FrameDecode(s).frame, s[1] % 128;
    WordSizes();
    BeBound(s[2..][..ExtraSize(false, bits)]);
    FrameRoundTrip(f, []);
  }

  /* ---- streams ---- */

  predicate Sized(fs: seq<Frame>) {
    forall i :: 0 <= i < |fs| ==> |fs[i].data| < WORD64
  }

  function StreamBytes(fs: seq<Frame>): bytes
    requires Sized(fs)
    decreases |fs|
  {
    if fs == [] then [] else FrameBytes(fs[0]) + StreamBytes(fs[1..])
  }

  function Normals(fs: seq<Frame>): seq<Frame> {
    seq(|fs|, i requires 0 <= i < |fs| => Normal(fs[i]))
  }

  /** Decoding until the first error: the frames before it, and the error. */
  function DecodeAll(s: bytes): (seq<Frame>, Error)
    decreases |s|
  {
    match FrameDecode(s)
    case FrameFail(e) => ([], e)
    case FrameOk(f, next) =>
      FrameStable(s, []);
      var (fs, e) := DecodeAll(s[next..]);
      ([f] + fs, e)
  }

  /** A stream of frames decodes to those frames and then ends. */
  lemma {:induction false} StreamRoundTrip(fs: seq<Frame>)
    requires Sized(fs)
    ensures DecodeAll(StreamBytes(fs)) == (Normals(fs), EndOfStream)
    decreases |fs|
  {
    if fs == [] {
      assert Normals(fs) == [];
    } else {
      FrameThenRest(fs[0], StreamBytes(fs[1..]));
      StreamRoundTrip(fs[1..]);
      NormalsCons(fs);
    }
  }

  lemma NormalsCons(fs: seq<Frame>)
    requires fs != []
    ensures Normals(fs) == [Normal(fs[0])] + Normals(fs[1..])
  {
  }

  lemma FrameThenRest(f: Frame, rest: bytes)
    requires |f.data| < WORD64
    ensures DecodeAll(FrameBytes(f) + rest) == ([Normal(f)] + DecodeAll(rest).0, DecodeAll(rest).1)
  {
    FrameRoundTrip(f, rest);
    assert (FrameBytes(f) + rest)[|FrameBytes(f)|..] == rest;
  }

  /* ---- the encoder ---- */

  /** Of what is written, what a writer with this much room takes. */
  function Taken(b: bytes, room: nat): bytes {
    b[..Min(|b|, room)]
  }

  /** Takes `room` more bytes, and then fails. */
  class Writer {
    var out: bytes
    var room: nat

    constructor (room: nat)
      ensures out == [] && this.room == room
    {
      out := [];
      this.room := room;
    }

    method Write(b: bytes) returns (ok: bool)
      modifies this
      ensures ok <==> |b| <= old(room)
      ensures out == old(out) + Taken(b, old(room)) && room == old(room) - |Taken(b, old(room))|
    {
      var n := Min(|b|, room);
      ok := n == |b|;
      out := out + b[..n];
      room := room - n;
    }
  }

  /** One run of the masking loop: n bytes of data from pos, with mask bytes counted from the
      start of the buffer. */
  method MaskInto(buf: array<byte>, n: nat, data: bytes, pos: nat, mask: Mask)
    requires n <= buf.Length && pos + n <= |data| && pos % 4 == 0
    modifies buf
    ensures buf[..n] == Masked(data, mask)[pos..pos + n]
  {
    ghost var all := Masked(data, mask);
    for i := 0 to n
      invariant buf[..i] == all[pos..pos + i]
    {
      MaskedAt(data, mask, pos, i);
      buf[i] := Xor(data[pos + i], mask[i % 4]);
      assert buf[..i + 1] == buf[..i] + [all[pos + i]];
    }
  }

  /** Counting mask bytes from a multiple of four is counting them from the start. */
  lemma MaskedAt(data: bytes, mask: Mask, pos: nat, i: nat)
    requires pos % 4 == 0 && pos + i < |data|
    ensures Masked(data, mask)[pos + i] == Xor(data[pos + i], mask[i % 4])
  {
    MaskIndex(pos, i);
  }

  lemma MaskIndex(pos: nat, k: nat)
    requires pos % 4 == 0
    ensures (pos + k) % 4 == k % 4
  {
  }

  /** A writer that had this output and room has taken the first pos bytes. */
  predicate Sent(w: Writer, out: bytes, room: nat, b: bytes, pos: nat)
    reads w
    requires pos <= |b|
  {
    pos <= room && w.out == out + b[..pos] && w.room == room - pos
  }

  /** It has taken what it could. */
  predicate SentAll(w: Writer, out: bytes, room: nat, b: bytes)
    reads w
  {
    w.out == out + Taken(b, room) && w.room == room - |Taken(b, room)|
  }

  /** Masks the next n bytes into the buffer and writes them. */
  method WriteChunk(w: Writer, buf: array<byte>, n: nat, data: bytes, pos: nat, mask: Mask,
                    ghost out: bytes, ghost room: nat)
    returns (ok: bool)
    requires n <= buf.Length && pos + n <= |data| && pos % 4 == 0
    requires Sent(w, out, room, Masked(data, mask), pos)
    modifies w, buf
    ensures ok <==> pos + n <= room
    ensures if ok then Sent(w, out, room, Masked(data, mask), pos + n) else SentAll(w, out, room, Masked(data, mask))
  {
    MaskInto(buf, n, data, pos, mask);
    ok := w.Write(buf[..n]);
    TakenPieces(Masked(data, mask), pos, pos + n, room);
  }

  /** The payload is masked in chunks, until a write fails. */
  method WriteMasked(w: Writer, data: bytes, mask: Mask) returns (ok: bool)
    modifies w
    ensures ok <==> |data| <= old(w.room)
    ensures SentAll(w, old(w.out), old(w.room), Masked(data, mask))
  {
    ghost var all, out, room := Masked(data, mask), w.out, w.room;
    var buf := new byte[CHUNK];
    var pos, chunks := 0, |data| / CHUNK;
    Chunks(|data|);
    for j := 0 to chunks
      invariant pos == j * CHUNK <= |data| && Sent(w, out, room, all, pos)
    {
      ChunkFits(j, chunks, |data|);
      ok := WriteChunk(w, buf, CHUNK, data, pos, mask, out, room);
      if !ok {
        return;
      }
      pos := pos + CHUNK;
    }
    if pos < |data| {
      ok := WriteChunk(w, buf, |data| % CHUNK, data, pos, mask, out, room);
      if !ok {
        return;
      }
    }
    assert all[..|data|] == all;
    return true;
  }

  lemma Chunks(n: nat)
    ensures n == n / CHUNK * CHUNK + n % CHUNK
    ensures n / CHUNK * CHUNK % 4 == 0
  {
    assert n / CHUNK * CHUNK == n / CHUNK * (CHUNK / 4) * 4;
  }

  lemma ChunkFits(j: nat, chunks: nat, n: nat)
    requires j < chunks && chunks * CHUNK <= n
    ensures j * CHUNK + CHUNK <= n && j * CHUNK % 4 == 0
  {
    assert j * CHUNK == j * (CHUNK / 4) * 4;
  }

  /** What is taken of a whole when its first part has been. */
  lemma TakenPieces(b: bytes, i: nat, j: nat, room: nat)
    requires i <= j <= |b| && i <= room
    ensures b[..i] + Taken(b[i..j], room - i) == Taken(b[..j], room)
    ensures j > room ==> Taken(b[..j], room) == Taken(b, room)
  {
  }

  /** Fields that do not overlap are added by `|`. */
  lemma OrThree(b: nat, e: nat, o: nat)
    requires b < 2 && e < 8 && o < 16
    ensures Or8(Or8(b * 128, e * 16), o) == b * 128 + e * 16 + o
  {
    assert Pow2(7) == 128 && Pow2(4) == 16 && Pow2(1) == 2;
    OrSumAt(b * 128, e * 16, b, 7, 1, 128);
    OrSumAt(b * 128 + e * 16, o, b * 8 + e, 4, 4, 16);
  }

  lemma OrTwo(b: nat, bits: nat)
    requires b < 2 && bits < 128
    ensures Or8(b * 128, bits) == b * 128 + bits
  {
    assert Pow2(7) == 128 && Pow2(1) == 2;
    OrSumAt(b * 128, bits, b, 7, 1, 128);
  }

  method FirstByte(fin: bool, ext: byte, op: byte) returns (b: byte)
    ensures b == BoolBit(fin) * 128 + ext % 8 * 16 + op % 16
  {
    OrThree(BoolBit(fin), ext % 8, op % 16);
    b := Or8(Or8(BoolBit(fin) * 128, ext % 8 * 16), op % 16);
  }

  method SecondByte(useMask: bool, sizeBits: byte) returns (b: byte)
    requires sizeBits < 128
    ensures b == BoolBit(useMask) * 128 + sizeBits
  {
    OrTwo(BoolBit(useMask), sizeBits);
    b := Or8(BoolBit(useMask) * 128, sizeBits);
  }

  method Header(f: Frame) returns (h: bytes)
    requires |f.data| < WORD64
    ensures h == HeadBytes(f)
  {
    var (sizeBits, extraSize) := SizeBits(|f.data|);
    var b0 := FirstByte(f.fin, f.ext, f.op);
    var b1 := SecondByte(f.useMask, sizeBits);
    h := [b0, b1] + BeBytes(|f.data|, extraSize);
    if f.useMask {
      h := h + f.mask;
    }
  }

  method WritePayload(w: Writer, f: Frame) returns (ok: bool)
    modifies w
    ensures ok <==> |f.data| <= old(w.room)
    ensures SentAll(w, old(w.out), old(w.room), Payload(f))
  {
    if |f.data| == 0 {
      return true;
    }
    if !f.useMask {
      ok := w.Write(f.data);
    } else {
      ok := WriteMasked(w, f.data, f.mask);
    }
  }

  /** Writes the frame, or as much of it as the writer takes. */
  method Encode(w: Writer, f: Frame) returns (ok: bool)
    requires |f.data| < WORD64
    modifies w
    ensures ok <==> |FrameBytes(f)| <= old(w.room)
    ensures w.out == old(w.out) + Taken(FrameBytes(f), old(w.room))
  {
    var h := Header(f);
    TwoWrites(h, Payload(f), w.room);
    ok := w.Write(h);
    if ok {
      ok := WritePayload(w, f);
    }
  }

  lemma TwoWrites(a: bytes, b: bytes, room: nat)
    ensures Taken(a + b, room) == if |a| <= room then a + Taken(b, room - |a|) else Taken(a, room)
    ensures |a| <= room ==> Taken(a, room) == a
  {
  }

  /* ---- the decoder ---- */

  /** How many of n bytes the next read gives at most: at least one, and all when the list of
      what reads give has run out. */
  function Given(gives: seq<nat>, n: nat): nat {
    if gives == [] then n else Min(n, if gives[0] == 0 then 1 else gives[0])
  }

  function Later(gives: seq<nat>): seq<nat> {
    if gives == [] then [] else gives[1..]
  }

  class Reader {
    var rest: bytes
    var gives: seq<nat>

    constructor (rest: bytes, gives: seq<nat>)
      ensures this.rest == rest && this.gives == gives
    {
      this.rest := rest;
      this.gives := gives;
    }

    /** Gives nothing only at the end of the stream. */
    method Read(n: nat) returns (b: bytes)
      requires n > 0
      modifies this
      ensures b == old(rest)[..Min(Given(old(gives), n), |old(rest)|)] && old(rest) == b + rest
      ensures gives == Later(old(gives))
    {
      var k := Min(Given(gives, n), |rest|);
      b := rest[..k];
      rest := rest[k..];
      gives := Later(gives);
    }

    /** Reads on until there are n bytes or the stream ends. */
    method ReadFull(n: nat) returns (b: bytes)
      modifies this
      ensures b == old(rest)[..Min(n, |old(rest)|)] && old(rest) == b + rest
      ensures old(gives) == [] ==> gives == []
    {
      b := [];
      while |b| < n
        invariant |b| <= n && old(rest) == b + rest
        invariant old(gives) == [] ==> gives == []
        decreases n - |b|
      {
        ghost var before := rest;
        var more := Read(n - |b|);
        if |more| == 0 {
          break;
        }
        Regroup(b, more, rest, before);
        b := b + more;
      }
      Front(b, rest, n);
    }
  }

  lemma Regroup(a: bytes, b: bytes, c: bytes, bc: bytes)
    requires bc == b + c
    ensures a + bc == a + b + c
  {
  }

  lemma Front(b: bytes, rest: bytes, n: nat)
    requires |b| <= n && (|b| < n ==> rest == [])
    ensures (b + rest)[..Min(n, |b + rest|)] == b
  {
  }

  method Unmask(raw: bytes, mask: Mask) returns (data: bytes)
    ensures data == Masked(raw, mask)
  {
    data := raw;
    for i := 0 to |data|
      invariant |data| == |raw| && data[i..] == raw[i..]
      invariant data[..i] == Masked(raw, mask)[..i]
    {
      data := data[i := Xor(data[i], mask[i % 4])];
    }
  }

  /** The length bytes and the mask, unless the read is cut short. */
  method ReadExtra(r: Reader, useMask: bool, sizeBits: byte) returns (x: Extra)
    requires sizeBits < 128
    modifies r
    ensures var t, extra := old(r.rest), ExtraSize(useMask, sizeBits);
            && x == (if |t| >= extra > Given(old(r.gives), extra) then NoExtra(ShortHeader)
                     else ExtraDecode(useMask, sizeBits, t))
            && (x.Extra? ==> |t| >= extra && r.rest == t[extra..])
    ensures old(r.gives) == [] ==> r.gives == [] && (x.NoExtra? ==> r.rest == [])
  {
    var extra := ExtraSize(useMask, sizeBits);
    if extra == 0 {
      return Extra(sizeBits, NO_MASK);
    }
    ghost var t := r.rest;
    var buf := r.Read(extra);
    if |buf| == 0 {
      return NoExtra(EndOfStream);
    }
    if |buf| != extra {
      return NoExtra(ShortHeader);
    }
    assert t[..extra] == buf && t[extra..] == r.rest;
    var size, pos := sizeBits as nat, 0;
    if sizeBits == 126 {
      size := BeValue(buf[..2]);
      assert buf[..2] == t[..2];
      pos := 2;
    } else if sizeBits == 127 {
      size := BeValue(buf[..8]);
      assert buf[..8] == t[..8];
      pos := 8;
    }
    var mask := NO_MASK;
    if useMask {
      mask := buf[pos..extra];
      assert mask == t[extra - 4..extra];
    }
    return Extra(size, mask);
  }

  /** A read of the header gives less than it was asked for although there is more. */
  predicate CutShort(s: bytes, gives: seq<nat>) {
    && |s| >= 2
    && (|| Given(gives, 2) < 2
        || (var extra := ExtraSize(s[1] / 128 == 1, s[1] % 128);
            |s| >= 2 + extra && Given(Later(gives), extra) < extra))
  }

  /** The payload, after a header that took this many bytes. */
  method ReadPayload(r: Reader, f: Frame, size: nat, header: nat) returns (d: Decoded)
    modifies r
    ensures d == PayloadDecode(f, size, old(r.rest), header)
    ensures d.FrameOk? ==> size <= |old(r.rest)| && r.rest == old(r.rest)[size..]
    ensures old(r.gives) == [] ==> r.gives == [] && (d.FrameFail? ==> r.rest == [])
  {
    var data: bytes := [];
    if size != 0 {
      data := r.ReadFull(size);
      if |data| == 0 {
        return FrameFail(EndOfStream);
      }
      if |data| < size {
        return FrameFail(UnexpectedEnd);
      }
    }
    if f.useMask {
      data := Unmask(data, f.mask);
    }
    return FrameOk(f.(data := data), header + size);
  }

  /** Exactly when one of the first two reads gives less than it is asked for, although there is more:
      the first is for two bytes, the second for what the length and the mask take. */
  lemma CutsShort(s: bytes, gives: seq<nat>)
    ensures CutShort(s, gives) <==>
            && |s| >= 2 && gives != []
            && (|| gives[0] <= 1
                || (var rest := (if s[1] >= 128 then 4 else 0) +
                                (if s[1] % 128 == 126 then 2 else if s[1] % 128 == 127 then 8 else 0);
                    |s| >= 2 + rest && |gives| >= 2 && rest >= 2 && gives[1] < rest))
  {
  }

  method DecodeBody(r: Reader, b0: byte, b1: byte) returns (d: Decoded)
    modifies r
    ensures var extra := ExtraSize(b1 / 128 == 1, b1 % 128);
            d == if |old(r.rest)| >= extra > Given(old(r.gives), extra) then FrameFail(ShortHeader)
                 else BodyDecode(b0, b1, old(r.rest))
    ensures d.FrameOk? ==> 2 <= d.next <= |old(r.rest)| + 2 && r.rest == old(r.rest)[d.next - 2..]
    ensures old(r.gives) == [] ==> r.gives == [] && (d.FrameFail? ==> r.rest == [])
  {
    var fin, ext, op := b0 / 128 == 1, b0 / 16 % 8, b0 % 16;
    var useMask, sizeBits := b1 / 128 == 1, b1 % 128;
    var extra := ExtraSize(useMask, sizeBits);
    ghost var t := r.rest;
    var x := ReadExtra(r, useMask, sizeBits);
    if x.NoExtra? {
      return FrameFail(x.error);
    }
    d := ReadPayload(r, Frame([], op, x.mask, ext, fin, useMask), x.size, 2 + extra);
    if d.FrameOk? {
      DropTwice(t, extra, x.size);
    }
  }

  lemma DropTwice(b: bytes, i: nat, j: nat)
    requires i + j <= |b|
    ensures b[i..][j..] == b[i + j..]
  {
  }

  /** The first frame of the stream, unless a read of its header is cut short. On success the
      reader is left right after the frame; a reader that fills requests is left at the end of the
      stream on failure. */
  method Decode(r: Reader) returns (d: Decoded)
    modifies r
    ensures d == if CutShort(old(r.rest), old(r.gives)) then FrameFail(ShortHeader) else FrameDecode(old(r.rest))
    ensures d.FrameOk? ==> d.next <= |old(r.rest)| && r.rest == old(r.rest)[d.next..]
    ensures old(r.gives) == [] ==> r.gives == [] && (d.FrameFail? ==> r.rest == [])
  {
    ghost var s := r.rest;
    var buf := r.Read(2);
    if |buf| == 0 {
      return FrameFail(EndOfStream);
    }
    if |buf| != 2 {
      return FrameFail(ShortHeader);
    }
    d := DecodeBody(r, buf[0], buf[1]);
  }
}

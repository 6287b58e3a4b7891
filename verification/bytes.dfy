/** Machine integers, bitwise operators and the fixed-width integer layouts shared by the codecs.

    Bytes and words are integers with a range, so every shift, mask and truncation of the
    original is written out: `x << k` is `x * 2^k`, `x & (2^k - 1)` is `x % 2^k`. The operators
    whose operands may overlap, `|` and `^`, are defined bit by bit. */
module Bytes {
  const BYTE := 0x100
  const WORD16 := 0x1_0000
  const WORD32 := 0x1_0000_0000
  const WORD64 := 0x1_0000_0000_0000_0000

  type byte = b: int | 0 <= b < BYTE
  type u16 = v: int | 0 <= v < WORD16
  type u32 = v: int | 0 <= v < WORD32
  type u64 = v: int | 0 <= v < WORD64

  type bytes = seq<byte>

  function Min(a: int, b: int): int {
    if a <= b then a else b
  }

  /* ---- powers of two ---- */

  function Pow2(k: nat): (p: nat)
    ensures p >= 1
  {
    if k == 0 then 1 else 2 * Pow2(k - 1)
  }

  lemma MultipleInside(p: int, d: int)
    requires p > 0 && -p < p * d < p
    ensures d == 0
  {
    assert d <= 0 by {
      assert d >= 1 ==> p * d >= p * 1;
    }
    assert d >= 0 by {
      assert d <= -1 ==> p * d <= p * -1;
    }
  }

  lemma QuotientUnique(a: int, p: int, q: int, r: int)
    requires p > 0 && 0 <= r < p && a == p * q + r
    ensures a / p == q && a % p == r
  {
    var d := a / p - q;
    assert p * d == r - a % p by {
      assert a == p * (a / p) + a % p;
      assert p * (a / p) == p * q + p * d;
    }
    MultipleInside(p, d);
  }

  /* ---- bitwise or of bytes ---- */

  function OrBits(a: nat, b: nat, k: nat): (r: nat)
    requires a < Pow2(k) && b < Pow2(k)
    ensures r < Pow2(k)
  {
    if k == 0 then 0
    else 2 * OrBits(a / 2, b / 2, k - 1) + (if a % 2 == 0 && b % 2 == 0 then 0 else 1)
  }

  /** `a | b` */
  function Or8(a: byte, b: byte): byte {
    assert Pow2(8) == 0x100;
    OrBits(a, b, 8)
  }

  lemma {:induction false} OrBitsZero(a: nat, k: nat)
    requires a < Pow2(k)
    ensures OrBits(a, 0, k) == OrBits(0, a, k) == a
  {
    if k > 0 {
      OrBitsZero(a / 2, k - 1);
    }
  }

  // Shift left by n, the bits from n up, and the bits below n, one bit at a time.
  function Shl(v: nat, n: nat): nat {
    if n == 0 then v else 2 * Shl(v, n - 1)
  }

  function High(v: nat, n: nat): nat {
    if n == 0 then v else High(v / 2, n - 1)
  }

  function Low(v: nat, n: nat): nat {
    if n == 0 then 0 else 2 * Low(v / 2, n - 1) + v % 2
  }

  lemma {:induction false} PartsFit(v: nat, n: nat, k: nat)
    requires v < Pow2(n + k)
    ensures High(v, n) < Pow2(k) && Low(v, n) < Pow2(n)
  {
    if n > 0 {
      PartsFit(v / 2, n - 1, k);
    }
  }

  /** `|` acts separately on the bits above and below any position. */
  lemma {:induction false} OrBitsSplit(a: nat, b: nat, n: nat, k: nat)
    requires a < Pow2(n + k) && b < Pow2(n + k)
    ensures High(a, n) < Pow2(k) && High(b, n) < Pow2(k)
    ensures Low(a, n) < Pow2(n) && Low(b, n) < Pow2(n)
    ensures OrBits(a, b, n + k) ==
            Shl(OrBits(High(a, n), High(b, n), k), n) + OrBits(Low(a, n), Low(b, n), n)
    decreases n, 1
  {
    PartsFit(a, n, k);
    PartsFit(b, n, k);
    if n > 0 {
      OrBitsSplitStep(a, b, n, k, a / 2, b / 2);
    }
  }

  lemma {:induction false} OrBitsSplitStep(a: nat, b: nat, n: nat, k: nat, x: nat, y: nat)
    requires n > 0 && x == a / 2 && y == b / 2
    requires a < Pow2(n + k) && b < Pow2(n + k)
    ensures x < Pow2(n - 1 + k) && y < Pow2(n - 1 + k)
    ensures High(a, n) < Pow2(k) && High(b, n) < Pow2(k)
    ensures Low(a, n) < Pow2(n) && Low(b, n) < Pow2(n)
    ensures OrBits(a, b, n + k) ==
            Shl(OrBits(High(a, n), High(b, n), k), n) + OrBits(Low(a, n), Low(b, n), n)
    decreases n, 0
  {
    PartsFit(a, n, k);
    PartsFit(b, n, k);
    OrBitsSplit(x, y, n - 1, k);
    OrBitsOf(Low(x, n - 1), a % 2, Low(y, n - 1), b % 2, n);
  }

  lemma OrBitsOf(x: nat, i: nat, y: nat, j: nat, k: nat)
    requires k > 0 && i < 2 && j < 2
    requires 2 * x + i < Pow2(k) && 2 * y + j < Pow2(k)
    ensures OrBits(2 * x + i, 2 * y + j, k) == 2 * OrBits(x, y, k - 1) + (if i == 0 && j == 0 then 0 else 1)
  {
  }

  lemma {:induction false} ShlIsTimes(v: nat, n: nat)
    ensures Shl(v, n) == v * Pow2(n)
  {
    if n > 0 {
      ShlIsTimes(v, n - 1);
    }
  }

  lemma {:induction false} HighLowAre(v: nat, n: nat, h: nat, l: nat)
    requires l < Pow2(n) && v == Shl(h, n) + l
    ensures High(v, n) == h && Low(v, n) == l
  {
    if n > 0 {
      HighLowAre(v / 2, n - 1, h, l / 2);
    }
  }

  /** The same for values given by their two parts. */
  lemma OrSplit(ah: nat, al: nat, bh: nat, bl: nat, n: nat, k: nat, a: nat, b: nat)
    requires al < Pow2(n) && bl < Pow2(n)
    requires a == Shl(ah, n) + al && a < Pow2(n + k)
    requires b == Shl(bh, n) + bl && b < Pow2(n + k)
    ensures ah < Pow2(k) && bh < Pow2(k)
    ensures OrBits(a, b, n + k) == Shl(OrBits(ah, bh, k), n) + OrBits(al, bl, n)
  {
    HighLowAre(a, n, ah, al);
    HighLowAre(b, n, bh, bl);
    OrBitsSplit(a, b, n, k);
  }

  /** Bits apart are added. */
  lemma OrSum(high: byte, low: byte, c: nat, n: nat, k: nat)
    requires n + k == 8 && high == Shl(c, n) && c < Pow2(k) && low < Pow2(n)
    ensures Or8(high, low) == high + low
  {
    assert Pow2(8) == 0x100;
    ShlIsTimes(0, n);
    OrSplit(c, 0, 0, low, n, k, high, low);
    OrBitsZero(c, k);
    OrBitsZero(low, n);
  }

  lemma OrSumAt(high: byte, low: byte, c: nat, n: nat, k: nat, p: nat)
    requires n + k == 8 && p == Pow2(n) && high == c * p && c < Pow2(k) && low < p
    ensures Or8(high, low) == high + low
  {
    ShlIsTimes(c, n);
    OrSum(high, low, c, n, k);
  }

  /** Or-ing a high nibble onto a value that fits in the low one adds them. */
  lemma Or8HighNibble(low: byte, j: nat)
    requires low < 16 && j < 16
    ensures Or8(low, j * 16) == j * 16 + low
  {
    assert Pow2(8) == 0x100 && Pow2(4) == 16;
    ShlIsTimes(j, 4);
    ShlIsTimes(0, 4);
    OrSplit(0, low, j, 0, 4, 4, low, j * 16);
    OrBitsZero(j, 4);
    OrBitsZero(low, 4);
  }

  lemma OrAllOnes(h: nat)
    requires h < 4
    ensures Pow2(2) == 4 && OrBits(h, 3, 2) == 3
  {
    assert Pow2(2) == 4 && Pow2(1) == 2;
    assert OrBits(h / 2, 1, 1) == 1;
  }

  /** Setting the two top bits keeps the other six. */
  lemma Or8TopTwo(v: byte)
    ensures Or8(v, 0xC0) == 0xC0 + v % 64
  {
    assert Pow2(8) == 0x100 && Pow2(6) == 64;
    var h, l := v / 64, v % 64;
    ShlIsTimes(h, 6);
    ShlIsTimes(3, 6);
    OrSplit(h, l, 3, 0, 6, 2, v, 0xC0);
    OrAllOnes(h);
    OrBitsZero(l, 6);
  }

  /* ---- bitwise exclusive or of bytes ---- */

  function XorBits(a: nat, b: nat, k: nat): (r: nat)
    requires a < Pow2(k) && b < Pow2(k)
    ensures r < Pow2(k)
  {
    if k == 0 then 0
    else 2 * XorBits(a / 2, b / 2, k - 1) + (if a % 2 == b % 2 then 0 else 1)
  }

  lemma {:induction false} XorBitsInvolution(a: nat, b: nat, k: nat)
    requires a < Pow2(k) && b < Pow2(k)
    ensures XorBits(XorBits(a, b, k), b, k) == a
  {
    if k > 0 {
      var x, i := XorBits(a / 2, b / 2, k - 1), if a % 2 == b % 2 then 0 else 1;
      XorBitsInvolution(a / 2, b / 2, k - 1);
      assert XorBits(a, b, k) == 2 * x + i;
      XorBitsOf(x, i, b, k);
    }
  }

  lemma XorBitsOf(x: nat, i: nat, b: nat, k: nat)
    requires k > 0 && i < 2
    requires 2 * x + i < Pow2(k) && b < Pow2(k)
    ensures XorBits(2 * x + i, b, k) == 2 * XorBits(x, b / 2, k - 1) + (if i == b % 2 then 0 else 1)
  {
  }

  function Xor(a: byte, b: byte): byte {
    assert Pow2(8) == 0x100;
    XorBits(a, b, 8)
  }

  lemma XorInvolution(a: byte, b: byte)
    ensures Xor(Xor(a, b), b) == a
  {
    assert Pow2(8) == 0x100;
    XorBitsInvolution(a, b, 8);
  }

  /* ---- bit by bit ---- */

  function Bit(v: nat, i: nat): nat {
    v / Pow2(i) % 2
  }

  lemma HalfFirst(v: nat, p: nat)
    requires p > 0
    ensures v / (2 * p) == v / 2 / p
  {
    var q, r := v / 2 / p, v / 2 % p;
    assert v / 2 == p * q + r;
    assert v == 2 * (p * q + r) + v % 2;
    assert 2 * (p * q) == 2 * p * q;
    QuotientUnique(v, 2 * p, q, 2 * r + v % 2);
  }

  lemma BitZero(v: nat)
    ensures Bit(v, 0) == v % 2
  {
  }

  lemma BitHalved(v: nat, i: nat)
    requires i > 0
    ensures Bit(v, i) == Bit(v / 2, i - 1)
  {
    HalfFirst(v, Pow2(i - 1));
  }

  lemma {:induction false} OrBitsAt(a: nat, b: nat, k: nat, i: nat)
    requires a < Pow2(k) && b < Pow2(k) && i < k
    ensures Bit(OrBits(a, b, k), i) == if Bit(a, i) == 1 || Bit(b, i) == 1 then 1 else 0
  {
    var r := OrBits(a / 2, b / 2, k - 1);
    assert OrBits(a, b, k) / 2 == r;
    if i == 0 {
      BitZero(a);
      BitZero(b);
      BitZero(OrBits(a, b, k));
    } else {
      OrBitsAt(a / 2, b / 2, k - 1, i - 1);
      BitHalved(a, i);
      BitHalved(b, i);
      BitHalved(OrBits(a, b, k), i);
    }
  }

  lemma {:induction false} XorBitsAt(a: nat, b: nat, k: nat, i: nat)
    requires a < Pow2(k) && b < Pow2(k) && i < k
    ensures Bit(XorBits(a, b, k), i) == if Bit(a, i) != Bit(b, i) then 1 else 0
  {
    var r := XorBits(a / 2, b / 2, k - 1);
    assert XorBits(a, b, k) / 2 == r;
    if i == 0 {
      BitZero(a);
      BitZero(b);
      BitZero(XorBits(a, b, k));
    } else {
      XorBitsAt(a / 2, b / 2, k - 1, i - 1);
      BitHalved(a, i);
      BitHalved(b, i);
      BitHalved(XorBits(a, b, k), i);
    }
  }

  /** `|` sets the bits that either sets; `^` those that one of them sets. */
  lemma OperatorsBitwise(a: byte, b: byte, i: nat)
    requires i < 8
    ensures Bit(Or8(a, b), i) == if Bit(a, i) == 1 || Bit(b, i) == 1 then 1 else 0
    ensures Bit(Xor(a, b), i) == if Bit(a, i) != Bit(b, i) then 1 else 0
  {
    assert Pow2(8) == 0x100;
    OrBitsAt(a, b, 8, i);
    XorBitsAt(a, b, 8, i);
  }

  /* ---- integer layouts ---- */

  // Both words are written with the most significant byte first.
  function Word2(b1: int, b0: int): int {
    b1 * 0x100 + b0
  }

  function Word4(b3: int, b2: int, b1: int, b0: int): int {
    ((b3 * 0x100 + b2) * 0x100 + b1) * 0x100 + b0
  }

  function HighByte(v: u16): byte {
    v / 0x100
  }

  function LowByte(v: u16): byte {
    v % 0x100
  }

  function Be16(v: u16): bytes {
    [v / 0x100, v % 0x100]
  }

  function Be32(v: u32): bytes {
    [v / 0x100 / 0x100 / 0x100, v / 0x100 / 0x100 % 0x100, v / 0x100 % 0x100, v % 0x100]
  }

  /** Big-endian words of any width. */
  function BeBytes(v: nat, n: nat): (r: bytes)
    ensures |r| == n
  {
    if n == 0 then [] else BeBytes(v / 0x100, n - 1) + [v % 0x100]
  }

  function BeValue(b: bytes): nat
    decreases |b|
  {
    if b == [] then 0 else BeValue(b[..|b| - 1]) * 0x100 + b[|b| - 1]
  }

  function Pow256(n: nat): (p: nat)
    ensures p >= 1
  {
    if n == 0 then 1 else 0x100 * Pow256(n - 1)
  }

  lemma {:induction false} BeRoundTrip(v: nat, n: nat)
    requires v < Pow256(n)
    ensures BeValue(BeBytes(v, n)) == v
    decreases n
  {
    if n > 0 {
      BeRoundTrip(v / 0x100, n - 1);
      assert BeBytes(v, n)[..n - 1] == BeBytes(v / 0x100, n - 1);
    }
  }

  lemma {:induction false} BeBound(b: bytes)
    ensures BeValue(b) < Pow256(|b|)
    decreases |b|
  {
    if b != [] {
      BeBound(b[..|b| - 1]);
    }
  }

  lemma WordSizes()
    ensures Pow256(2) == WORD16 && Pow256(8) == WORD64
  {
    assert Pow256(1) == 0x100 && Pow256(2) == WORD16 && Pow256(3) == 0x100_0000 && Pow256(4) == WORD32;
    assert Pow256(5) == 0x100_0000_0000 && Pow256(6) == 0x1_0000_0000_0000 && Pow256(7) == 0x100_0000_0000_0000;
  }

  function GetBe16(b: bytes, i: nat): u16
    requires i + 2 <= |b|
  {
    Word2(b[i], b[i + 1])
  }

  function GetBe32(b: bytes, i: nat): u32
    requires i + 4 <= |b|
  {
    Word4(b[i], b[i + 1], b[i + 2], b[i + 3])
  }

  function Le16(v: u16): bytes {
    [v % 0x100, v / 0x100]
  }

  function Le32(v: u32): bytes {
    [v % 0x100, v / 0x100 % 0x100, v / 0x100 / 0x100 % 0x100, v / 0x100 / 0x100 / 0x100]
  }

  function GetLe16(b: bytes, i: nat): u16
    requires i + 2 <= |b|
  {
    Word2(b[i + 1], b[i])
  }

  function GetLe32(b: bytes, i: nat): u32
    requires i + 4 <= |b|
  {
    Word4(b[i + 3], b[i + 2], b[i + 1], b[i])
  }

  lemma SubAt(b: bytes, p: nat, part: bytes, i: nat, j: nat)
    requires p + |part| <= |b| && b[p..p + |part|] == part
    requires i <= j <= |part|
    ensures b[p + i..p + j] == part[i..j]
  {
    assert forall k :: i <= k < j ==> b[p + k] == b[p..p + |part|][k] == part[k];
  }

  /** Reading back a big-endian word from wherever it was written. */
  lemma ReadBe16(b: bytes, i: nat, v: u16)
    requires i + 2 <= |b| && b[i..i + 2] == Be16(v)
    ensures GetBe16(b, i) == v
  {
    assert b[i] == b[i..i + 2][0] && b[i + 1] == b[i..i + 2][1];
  }

  lemma ReadBe32(b: bytes, i: nat, v: u32)
    requires i + 4 <= |b| && b[i..i + 4] == Be32(v)
    ensures GetBe32(b, i) == v
  {
    var s := b[i..i + 4];
    assert b[i] == s[0] && b[i + 1] == s[1] && b[i + 2] == s[2] && b[i + 3] == s[3];
  }

  lemma ReadLe16(b: bytes, i: nat, v: u16)
    requires i + 2 <= |b| && b[i..i + 2] == Le16(v)
    ensures GetLe16(b, i) == v
  {
    assert b[i] == b[i..i + 2][0] && b[i + 1] == b[i..i + 2][1];
  }

  lemma ReadLe32(b: bytes, i: nat, v: u32)
    requires i + 4 <= |b| && b[i..i + 4] == Le32(v)
    ensures GetLe32(b, i) == v
  {
    var s := b[i..i + 4];
    assert b[i] == s[0] && b[i + 1] == s[1] && b[i + 2] == s[2] && b[i + 3] == s[3];
  }

  /** The little-endian layout reaches every four bytes. */
  lemma Le32Surjective(b: bytes, i: nat)
    requires i + 4 <= |b|
    ensures Le32(GetLe32(b, i)) == b[i..i + 4]
  {
    BytesOfWord4(b[i + 3], b[i + 2], b[i + 1], b[i]);
    assert b[i..i + 4] == [b[i], b[i + 1], b[i + 2], b[i + 3]];
  }

  lemma BytesOfWord4(b3: byte, b2: byte, b1: byte, b0: byte)
    ensures Le32(Word4(b3, b2, b1, b0)) == [b0, b1, b2, b3]
  {
    var v3 := b3 as int * 0x100 + b2;
    var v2 := v3 * 0x100 + b1;
    assert v3 / 0x100 == b3 && v3 % 0x100 == b2;
    assert v2 / 0x100 == v3 && v2 % 0x100 == b1;
    assert Word4(b3, b2, b1, b0) / 0x100 == v2;
  }
}

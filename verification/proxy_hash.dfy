/** The salted djb2 hash: modulo 2^64, folded to 32 bits for the control sum. */
module ProxyHash {
  import opened Bytes

  const MAGIC: u64 := 5381

  // v + (v << 5) + b, all modulo 2^64
  function Mix(v: u64, b: byte): u64 {
    (33 * v + b) % WORD64
  }

  function Absorb(v: u64, data: bytes): u64
    decreases |data|
  {
    if data == [] then v else Absorb(Mix(v, data[0]), data[1..])
  }

  function Seeded(salt: u32): u64 {
    Absorb(MAGIC, Le32(salt))
  }

  function Fold32(v: u64): u32 {
    (v % WORD32 + v / WORD32) % WORD32
  }

  /* ---- arithmetic modulo m ---- */

  lemma AddMultiple(a: int, q: int, m: int)
    requires m > 0
    ensures (a + m * q) % m == a % m
  {
    QuotientUnique(a + m * q, m, a / m + q, a % m) by {
      assert m * (a / m + q) == m * (a / m) + m * q;
    }
  }

  /** A factor or a term may be reduced before the whole is. */
  lemma ReduceFirst(a: int, p: int, c: int, m: int)
    requires m > 0
    ensures (p * (a % m) + c) % m == (p * a + c) % m
  {
    var r, q := a % m, a / m;
    assert p * a + c == (p * r + c) + m * (p * q) by {
      assert a == m * q + r;
      assert p * (m * q + r) == p * (m * q) + p * r;
      assert p * (m * q) == m * (p * q);
    }
    AddMultiple(p * r + c, p * q, m);
  }

  /* ---- the hash in closed form ---- */

  function Pow33(n: nat): (p: nat)
    ensures p >= 1
  {
    if n == 0 then 1 else 33 * Pow33(n - 1)
  }

  /** Sum of data[i] * 33^(n-1-i). */
  function Poly(data: bytes): nat
    decreases |data|
  {
    if data == [] then 0 else data[0] as int * Pow33(|data| - 1) + Poly(data[1..])
  }

  lemma {:induction false} AbsorbClosedForm(v: u64, data: bytes)
    ensures Absorb(v, data) == (Pow33(|data|) * v + Poly(data)) % WORD64
    decreases |data|
  {
    if data != [] {
      AbsorbClosedForm(Mix(v, data[0]), data[1..]);
      ClosedStep(Pow33(|data| - 1), v, data[0], Poly(data[1..]));
    }
  }

  lemma ClosedStep(p: nat, v: u64, b: byte, rest: nat)
    ensures (p * Mix(v, b) + rest) % WORD64 == (33 * p * v + (b as int * p + rest)) % WORD64
  {
    ReduceFirst(33 * v + b, p, rest, WORD64);
    assert p * (33 * v + b) == 33 * p * v + b as int * p;
  }

  lemma {:induction false} AbsorbAppended(v: u64, a: bytes, b: bytes)
    ensures Absorb(v, a + b) == Absorb(Absorb(v, a), b)
    decreases |a|
  {
    if a == [] {
      assert a + b == b;
    } else {
      assert (a + b)[1..] == a[1..] + b;
      AbsorbAppended(Mix(v, a[0]), a[1..], b);
    }
  }

  lemma AbsorbOne(v: u64, b: byte)
    ensures Absorb(v, [b]) == Mix(v, b)
  {
    assert Absorb(Mix(v, b), [b][1..]) == Mix(v, b);
  }

  /* ---- what a difference becomes ---- */

  /** Values d apart are d * 33^n apart after n more bytes. */
  lemma {:induction false} Drift(v: u64, v': u64, d: int, data: bytes)
    requires v' == (v + d) % WORD64
    ensures Absorb(v', data) == (Absorb(v, data) + Pow33(|data|) * d) % WORD64
    decreases |data|
  {
    if data != [] {
      MixDrift(v, v', d, data[0]);
      Drift(Mix(v, data[0]), Mix(v', data[0]), 33 * d, data[1..]);
      PowStep(|data| - 1, d);
    }
  }

  lemma MixDrift(v: u64, v': u64, d: int, b: byte)
    requires v' == (v + d) % WORD64
    ensures Mix(v', b) == (Mix(v, b) + 33 * d) % WORD64
  {
    ReduceFirst(v + d, 33, b, WORD64);
    ReduceFirst(33 * v + b, 1, 33 * d, WORD64);
  }

  lemma PowStep(n: nat, d: int)
    ensures Pow33(n) * (33 * d) == Pow33(n + 1) * d
  {
  }

  /** A difference of less than 2^32 - 1 is still one after folding: the carry into the high half
      adds at most one to it. */
  lemma FoldSeparates(v: u64, v': u64, d: int)
    requires 0 < d < WORD32 - 1
    requires v' == (v + d) % WORD64
    ensures Fold32(v) != Fold32(v')
  {
    var lo, hi := v % WORD32, v / WORD32;
    if lo + d < WORD32 {
      QuotientUnique(v + d, WORD64, 0, v + d);
      QuotientUnique(v', WORD32, hi, lo + d);
      SumsDiffer(lo + hi, d);
    } else {
      var hi' := if hi + 1 < WORD32 then hi + 1 else 0;
      var low' := lo + d - WORD32;
      QuotientUnique(v + d, WORD64, if hi + 1 < WORD32 then 0 else 1, WORD32 * hi' + low');
      QuotientUnique(v', WORD32, hi', low');
      SumsDiffer(lo + hi, d + 1);
      AddMultiple(lo + hi + d + 1, if hi + 1 < WORD32 then -1 else -2, WORD32);
    }
  }

  lemma SumsDiffer(s: int, d: int)
    requires 0 < d < WORD32
    ensures s % WORD32 != (s + d) % WORD32
  {
    var r := s % WORD32;
    if r + d < WORD32 {
      QuotientUnique(s + d, WORD32, s / WORD32, r + d);
    } else {
      QuotientUnique(s + d, WORD32, s / WORD32 + 1, r + d - WORD32);
    }
  }

  /* ---- larger differences ---- */

  // 2^32 and 2^64 are both 1 modulo this.
  const FOLD := WORD32 - 1

  /** Folding keeps a value modulo FOLD, but for a carry. */
  lemma FoldResidue(v: u64) returns (q: int, carry: int)
    ensures v == FOLD * q + Fold32(v) + carry && 0 <= carry <= 1
  {
    var lo, hi := v % WORD32, v / WORD32;
    carry := (lo + hi) / WORD32;
    q := hi + carry;
  }

  /** Values that fold to the same sum are close to a multiple of FOLD apart. */
  lemma EqualFolds(v: u64, v': u64, d: u64) returns (z: int, j: int)
    requires v' == (v + d) % WORD64 && Fold32(v) == Fold32(v')
    ensures d == FOLD * z + j && -1 <= j <= 2
  {
    var q, c := FoldResidue(v);
    var q', c' := FoldResidue(v');
    var w := (v + d) / WORD64;
    z := q' - q + w * (FOLD + 2);
    j := c' - c + w;
    assert v + d == WORD64 * w + v';
    assert w == 0 || w == 1;
  }

  /** Reducing a small multiple modulo 2^64 moves it by little modulo FOLD. */
  lemma SmallMultiple(p: u64, d: int, z: int, j: int) returns (y: int, r: int)
    requires 0 < d <= 255 && p * d % WORD64 == FOLD * z + j && -1 <= j <= 2
    ensures p * d == FOLD * y + r && -1 <= r <= 257
  {
    var k := p * d / WORD64;
    QuotientAtMost(p, d);
    y := z + k * (FOLD + 2);
    r := j + k;
    assert p * d == WORD64 * k + p * d % WORD64;
    assert WORD64 * k == FOLD * (k * (FOLD + 2)) + k by {
      assert WORD64 == FOLD * (FOLD + 2) + 1;
      assert FOLD * (k * (FOLD + 2)) == (FOLD * (FOLD + 2)) * k;
    }
    assert FOLD * y == FOLD * z + FOLD * (k * (FOLD + 2));
  }

  lemma QuotientAtMost(p: u64, d: int)
    requires 0 < d <= 255
    ensures 0 <= p * d / WORD64 <= 255
  {
    AtMost255(p as int, d);
    BoundedQuotient(p * d);
  }

  lemma AtMost255(p: int, d: int)
    requires 0 <= p < WORD64 && 0 < d <= 255
    ensures 0 <= p * d <= WORD64 * 255
  {
    assert (255 - d) * p >= 0;
    assert 255 * p == d * p + (255 - d) * p;
    assert d * p >= 0;
  }

  lemma BoundedQuotient(x: int)
    requires 0 <= x <= WORD64 * 255
    ensures 0 <= x / WORD64 <= 255
  {
  }

  /** Two pairs (a, b) with b == p a modulo FOLD, and the quotients. */
  datatype Basis = Basis(p: int, a1: int, b1: int, k1: int, a2: int, b2: int, k2: int)

  predicate Congruent(p: int, a: int, b: int, k: int) {
    p * a == FOLD * k + b
  }

  predicate Short(a: int, b: int) {
    -1000000 < a < 1000000 && -1000000 < b < 1000000
  }

  predicate Good(x: Basis) {
    && Congruent(x.p, x.a1, x.b1, x.k1) && Congruent(x.p, x.a2, x.b2, x.k2)
    && Short(x.a1, x.b1) && Short(x.a2, x.b2)
    && x.a1 * x.b2 != x.a2 * x.b1
  }

  /** If d p is near a multiple of FOLD then (d, r) is parallel to every short pair. */
  lemma Parallel(p: int, a: int, b: int, x: int, d: int, y: int, r: int)
    requires Congruent(p, a, b, x) && Short(a, b)
    requires 0 < d <= 255 && p * d == FOLD * y + r && -1 <= r <= 257
    ensures d * b == r * a
  {
    assert d * b - r * a == FOLD * (y * a - x * d) by {
      assert d * b == d * (p * a) - d * (FOLD * x);
      assert r * a == (p * d) * a - (FOLD * y) * a;
      assert d * (p * a) == (p * d) * a;
      assert d * (FOLD * x) == FOLD * (x * d) && (FOLD * y) * a == FOLD * (y * a);
      assert FOLD * (y * a - x * d) == FOLD * (y * a) - FOLD * (x * d);
    }
    Within(d, b);
    Within(r, a);
    MultipleInside(FOLD, y * a - x * d);
  }

  lemma Within(s: int, t: int)
    requires -1 <= s <= 257 && -1000000 < t < 1000000
    ensures -257000000 < s * t < 257000000
  {
    if s < 0 {
      assert s * t == -t;
    } else {
      ProductAtMost(s, t);
      ProductAtMost(s, -t);
      assert s * -t == -(s * t);
    }
  }

  lemma ProductAtMost(s: nat, t: int)
    requires s <= 257 && t < 1000000
    ensures s * t < 257000000
  {
    if t > 0 {
      assert s * t <= 257 * t by {
        assert (257 - s) * t >= 0;
      }
    } else {
      assert s * t <= 0;
    }
  }

  /** So with two pairs that are not parallel to each other there is no such d. */
  lemma NoNearMultiple(x: Basis, d: int, y: int, r: int)
    requires Good(x) && 0 < d <= 255 && -1 <= r <= 257
    ensures x.p * d != FOLD * y + r
  {
    if x.p * d == FOLD * y + r {
      Parallel(x.p, x.a1, x.b1, x.k1, d, y, r);
      Parallel(x.p, x.a2, x.b2, x.k2, d, y, r);
      CrossZero(d, r, x.a1, x.b1, x.a2, x.b2);
      assert false;
    }
  }

  lemma CrossZero(d: int, r: int, a1: int, b1: int, a2: int, b2: int)
    requires d > 0 && d * b1 == r * a1 && d * b2 == r * a2
    ensures a1 * b2 == a2 * b1
  {
    assert d * (a1 * b2 - a2 * b1) == 0 by {
      assert d * (a1 * b2) == a1 * (d * b2) == a1 * (r * a2);
      assert d * (a2 * b1) == a2 * (d * b1) == a2 * (r * a1);
      assert a1 * (r * a2) == a2 * (r * a1);
      assert d * (a1 * b2 - a2 * b1) == d * (a1 * b2) - d * (a2 * b1);
    }
    MultipleInside(d, a1 * b2 - a2 * b1);
  }

  /** 33^n modulo 2^64, and short pairs for it. */
  function BasisFor(n: nat): Basis {
    if n == 5 then Basis(39135393, -15145, -40275, -138, 98223, -22386, 895)
    else if n == 6 then Basis(1291467969, -22212, 35877, -6679, -78319, -66861, -23550)
    else if n == 7 then Basis(42618442977, 53773, 34236, 533583, -22990, 65235, -228127)
    else if n == 8 then Basis(1406408618241, -43512, -35607, -14248223, 66313, -44442, 21714525)
    else if n == 9 then Basis(46411484401953, -43892, -801, -474297645, 7347, -97719, 79391798)
    else if n == 10 then Basis(1531578985264449, -43892, -26433, -15651822285, 52095, -66480, 18576999953)
    else if n == 11 then Basis(50542106513726817, -42139, 43227, -495881267562, 51698, 48891, 608369201225)
    else if n == 12 then Basis(1667889514952984961, 46484, -44721, 18051400834491, 31279, 62304, 12146755156657)
    else if n == 13 then Basis(18146865846029400481, -20721, 52524, -87549259719235, 67363, 36523, 284618540730024)
    else if n == 14 then Basis(8550762560264564161, -5496, 13779, -10941874012853, 267893, 109838, 533342695583193)
    else if n == 15 then Basis(5474003383087343073, 47542, 42351, 60593026899577, 24687, -68349, 31463969859700)
    else if n == 16 then Basis(14621414978496356865, 47127, -32505, 160435080493808, 51449, 55650, 175148523273833)
    else if n == 17 then Basis(2891348373931434529, 22993, -27533, 15478761209474, 93793, 74482, 63140932028017)
    else if n == 18 then Basis(3180775971189581377, -46593, 19389, -34505942571010, -40267, -75424, -29821020099733)
    else if n == 19 then Basis(12731886680708427361, -13544, -22829, -40149472943429, 137427, -85473, 407384939323436)
    else Basis(14323890841767967361, 46679, -16076, 155676366006621, -40052, -78217, -133575051121429)
  }

  lemma BasesAreGood(n: nat)
    requires 5 <= n <= 20
    ensures Good(BasisFor(n))
  {
  }

  lemma BasisStep(n: nat)
    requires 5 < n <= 20
    ensures BasisFor(n).p == 33 * BasisFor(n - 1).p % WORD64
  {
  }

  lemma {:induction false} PowerIs(n: nat)
    requires 5 <= n <= 20
    ensures Pow33(n) % WORD64 == BasisFor(n).p
  {
    if n == 5 {
      FifthPower();
    } else {
      PowerIs(n - 1);
      BasisStep(n);
      PowerStep(n, BasisFor(n - 1).p);
    }
  }

  lemma FifthPower()
    ensures Pow33(5) == 39135393
  {
    assert Pow33(0) == 1 && Pow33(1) == 33 && Pow33(2) == 1089 && Pow33(3) == 35937 && Pow33(4) == 1185921;
  }

  lemma PowerStep(n: nat, p: int)
    requires n > 0 && Pow33(n - 1) % WORD64 == p
    ensures Pow33(n) % WORD64 == 33 * p % WORD64
  {
    ReduceFirst(Pow33(n - 1), 33, 0, WORD64);
  }

  /** Values d * 33^n apart fold to different sums, for 5 <= n <= 20. */
  lemma FarSeparates(v: u64, v': u64, d: int, n: nat)
    requires 0 < d <= 255 && 5 <= n <= 20
    requires v' == (v + Pow33(n) * d) % WORD64
    ensures Fold32(v) != Fold32(v')
  {
    if Fold32(v) == Fold32(v') {
      var p: u64 := Pow33(n) % WORD64;
      ReduceFirst(Pow33(n), d, 0, WORD64);
      ReduceFirst(Pow33(n) * d, 1, v, WORD64);
      assert d * p == p * d && d * Pow33(n) == Pow33(n) * d;
      var z, j := EqualFolds(v, v', p * d % WORD64);
      var y, r := SmallMultiple(p, d, z, j);
      PowerIs(n);
      BasesAreGood(n);
      NoNearMultiple(BasisFor(n), d, y, r);
      assert false;
    }
  }

  /** Changing one hashed byte with at most twenty bytes after it changes the folded hash. */
  lemma ByteChangeDetected(v: u64, a: bytes, b: byte, b': byte, rest: bytes)
    requires b != b' && |rest| <= 20
    ensures Fold32(Absorb(v, a + [b] + rest)) != Fold32(Absorb(v, a + [b'] + rest))
  {
    HashAround(v, a, b, rest);
    HashAround(v, a, b', rest);
    if b < b' {
      LargerByte(Absorb(v, a), b, b', rest);
    } else {
      LargerByte(Absorb(v, a), b', b, rest);
    }
  }

  lemma LargerByte(u: u64, x: byte, y: byte, rest: bytes)
    requires x < y && |rest| <= 20
    ensures Fold32(Absorb(Mix(u, x), rest)) != Fold32(Absorb(Mix(u, y), rest))
  {
    var d: int := y as int - x as int;
    ReduceFirst(33 * u + x, 1, d, WORD64);
    Drift(Mix(u, x), Mix(u, y), d, rest);
    if |rest| <= 4 {
      SmallPowers(|rest|);
      SmallProduct(Pow33(|rest|), d);
      FoldSeparates(Absorb(Mix(u, x), rest), Absorb(Mix(u, y), rest), Pow33(|rest|) * d);
    } else {
      FarSeparates(Absorb(Mix(u, x), rest), Absorb(Mix(u, y), rest), d, |rest|);
    }
  }

  // 33^4 * 255 is far below 2^32
  lemma SmallProduct(p: int, d: int)
    requires 0 < p <= 1185921 && 0 < d <= 255
    ensures 0 < p * d < WORD32 - 1
  {
    assert p * d <= p * 255 && p * d >= p * 1;
  }

  lemma SmallPowers(n: nat)
    requires n <= 4
    ensures Pow33(n) <= 1185921
  {
    assert Pow33(0) == 1 && Pow33(1) == 33 && Pow33(2) == 1089 && Pow33(3) == 35937 && Pow33(4) == 1185921;
  }

  lemma HashAround(v: u64, a: bytes, b: byte, rest: bytes)
    ensures Absorb(v, a + [b] + rest) == Absorb(Mix(Absorb(v, a), b), rest)
  {
    AbsorbAppended(v, a + [b], rest);
    AbsorbAppended(v, a, [b]);
    AbsorbOne(Absorb(v, a), b);
  }

  class Hasher {
    var val: u64

    constructor ()
      ensures val == 0
    {
      val := 0;
    }

    method Reset(salt: u32)
      modifies this
      ensures val == Seeded(salt)
    {
      val := MAGIC;
      Put(Le32(salt));
    }

    method Put(data: bytes)
      modifies this
      ensures val == Absorb(old(val), data)
    {
      var v: u64 := val;
      for i := 0 to |data|
        invariant Absorb(v, data[i..]) == Absorb(old(val), data)
      {
        var b := data[i];
        Shifted(v, b);
        v := (v + (v * 32 % WORD64 + b) % WORD64) % WORD64;
      }
      val := v;
    }

    method PutB(b: byte)
      modifies this
      ensures val == Mix(old(val), b)
    {
      Shifted(val, b);
      val := (val + (val * 32 % WORD64 + b) % WORD64) % WORD64;
    }

    function Get32(): u32
      reads this
    {
      Fold32(val)
    }
  }

  /** The wrapping steps of the original add up to one reduction. */
  lemma Shifted(v: u64, b: byte)
    ensures (v + (v * 32 % WORD64 + b) % WORD64) % WORD64 == Mix(v, b)
  {
    var w := v * 32;
    ReduceFirst(w % WORD64 + b, 1, v, WORD64);
    ReduceFirst(w, 1, b + v, WORD64);
  }
}

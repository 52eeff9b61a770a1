/**
 Machine words as bounded integers, with the wrap-around of the C++ unsigned
 operators written out, and the few facts about powers of two, Euclidean
 division and bitwise OR on which the multi-limb integers rest.
 */
module Words {

  const W32: int := 0x1_0000_0000
  const W64: int := 0x1_0000_0000_0000_0000
  const W128: int := 0x1_0000_0000_0000_0000_0000_0000_0000_0000
  const W256: int := 0x1_0000_0000_0000_0000_0000_0000_0000_0000_0000_0000_0000_0000_0000_0000_0000_0000

  type U64 = x: int | 0 <= x < W64

  type Byte = x: int | 0 <= x < 256

  // ---------------------------------------------------------------------
  // Powers of two
  // ---------------------------------------------------------------------

  function Pow2(n: nat): (p: nat)
    ensures p >= 1
  {
    if n == 0 then 1 else 2 * Pow2(n - 1)
  }

  lemma {:induction false} Pow2Add(a: nat, b: nat)
    ensures Pow2(a + b) == Pow2(a) * Pow2(b)
  {
    if a > 0 {
      Pow2Add(a - 1, b);
      assert Pow2(a + b) == 2 * (Pow2(a - 1) * Pow2(b)) == (2 * Pow2(a - 1)) * Pow2(b);
    }
  }

  lemma {:induction false} Pow2Monotonic(a: nat, b: nat)
    requires a <= b
    ensures Pow2(a) <= Pow2(b)
    ensures a < b ==> 2 * Pow2(a) <= Pow2(b)
    decreases b
  {
    if a < b {
      Pow2Monotonic(a, b - 1);
    }
  }

  lemma {:induction false} Pow2Words()
    ensures Pow2(32) == W32 && Pow2(64) == W64 && Pow2(128) == W128 && Pow2(256) == W256
  {
    Pow2Of16();
    hide Pow2;
    Pow2Add(16, 16);
    Pow2Add(32, 32);
    Pow2Add(64, 64);
    Pow2Add(128, 128);
  }

  lemma {:induction false} Pow2Of16()
    ensures Pow2(16) == 65536
  {
    assert Pow2(4) == 16;
    assert Pow2(8) == 256 by { Pow2Add(4, 4); }
    Pow2Add(8, 8);
  }

  /** The two halves of a word whose width is split at bit s. */
  lemma {:induction false} Pow2Split(s: nat, width: nat)
    requires s <= width
    ensures Pow2(s) * Pow2(width - s) == Pow2(width)
  {
    Pow2Add(s, width - s);
  }

  // ---------------------------------------------------------------------
  // Euclidean division
  // ---------------------------------------------------------------------

  lemma {:induction false} MulLe(x: int, y: int, d: int)
    requires x <= y && d >= 0
    ensures x * d <= y * d
  {
  }

  lemma {:induction false} Distribute(x: int, y: int, d: int)
    ensures (x + y) * d == x * d + y * d
  {
  }

  lemma {:induction false} Commute(x: int, y: int)
    ensures x * y == y * x
  {
  }

  lemma {:induction false} Associate(x: int, y: int, z: int)
    ensures (x * y) * z == x * (y * z) == y * (x * z)
  {
  }

  lemma {:induction false} DivMod(x: int, d: int)
    requires d > 0
    ensures x == (x / d) * d + x % d && 0 <= x % d < d
  {
  }

  lemma {:induction false} DivModUnique(x: int, d: int, q: int, r: int)
    requires d > 0 && x == q * d + r && 0 <= r < d
    ensures x / d == q && x % d == r
  {
    DivMod(x, d);
    var q' := x / d;
    if q' + 1 <= q {
      MulLe(q' + 1, q, d);
      Distribute(q', 1, d);
    }
    if q + 1 <= q' {
      MulLe(q + 1, q', d);
      Distribute(q, 1, d);
    }
  }

  /** The quotient of a product bound: x < p * q gives x / q < p. */
  lemma {:induction false} DivBound(x: int, p: int, q: int)
    requires q > 0 && 0 <= x < p * q
    ensures 0 <= x / q < p
  {
    DivMod(x, q);
    var k := x / q;
    if k >= p {
      MulLe(p, k, q);
    }
    if k + 1 <= 0 {
      MulLe(k + 1, 0, q);
      Distribute(k, 1, q);
    }
  }

  /** Dropping whole multiples of the modulus. */
  lemma {:induction false} ModDrop(x: int, y: int, k: int, m: int)
    requires m > 0 && x == y + k * m
    ensures x % m == y % m
  {
    var q, r := y / m, y % m;
    assert x == (q + k) * m + r;
    DivModUnique(x, m, q + k, r);
  }

  lemma {:induction false} ModSmall(x: int, m: int)
    requires 0 <= x < m
    ensures x % m == x && x / m == 0
  {
    DivModUnique(x, m, 0, x);
  }

  lemma {:induction false} MulBounds(x: int, y: int, m: int, n: int)
    requires 0 <= x <= m && 0 <= y <= n
    ensures 0 <= x * y <= m * n
  {
    assert x * y <= m * y <= m * n;
  }

  lemma {:induction false} DivOfDiv(n: nat, p: nat, q: nat)
    requires p > 0 && q > 0
    ensures p * q > 0 && n / p / q == n / (p * q)
  {
    MulLe(1, p, q);
    DivMod(n, p);
    DivMod(n / p, q);
    var h, m, l := n / p / q, n / p % q, n % p;
    Distribute(h * q, m, p);
    Associate(h, q, p);
    Commute(p, q);
    MulLe(m, q - 1, p);
    Distribute(q, -1, p);
    MulLe(0, m, p);
    DivModUnique(n, p * q, h, m * p + l);
  }

  /** Integer division of C++, toward zero. */
  function TruncDiv(x: int, d: int): int
    requires d > 0
  {
    if x >= 0 then x / d else -((-x) / d)
  }

  /** k times the same element. */
  function Repeat<T>(x: T, k: nat): (z: seq<T>)
    ensures |z| == k && forall i :: 0 <= i < k ==> z[i] == x
  {
    if k == 0 then [] else [x] + Repeat(x, k - 1)
  }

  // ---------------------------------------------------------------------
  // Slices
  // ---------------------------------------------------------------------

  /** s is found in b at p. */
  predicate At<T(==)>(b: seq<T>, p: nat, s: seq<T>)
  {
    p + |s| <= |b| && b[p..p + |s|] == s
  }

  lemma {:induction false} AtSplit<T>(b: seq<T>, p: nat, s: seq<T>, t: seq<T>)
    ensures At(b, p, s + t) <==> At(b, p, s) && At(b, p + |s|, t)
  {
    if At(b, p, s + t) {
      assert b[p..p + |s|] == (s + t)[..|s|];
      assert b[p + |s|..p + |s| + |t|] == (s + t)[|s|..];
    }
    if At(b, p, s) && At(b, p + |s|, t) {
      assert b[p..p + |s + t|] == b[p..p + |s|] + b[p + |s|..p + |s| + |t|];
    }
  }

  lemma {:induction false} AtIndex<T>(b: seq<T>, p: nat, s: seq<T>, i: nat)
    requires At(b, p, s) && i < |s|
    ensures p + |s| <= |b| && b[p + i] == s[i]
  {
    assert b[p..p + |s|][i] == b[p + i];
  }

  lemma {:induction false} AtFits<T>(b: seq<T>, p: nat, s: seq<T>)
    requires At(b, p, s)
    ensures p + |s| <= |b|
  {
  }

  lemma {:induction false} Regroup<T>(a: seq<T>, b: seq<T>, c: seq<T>)
    ensures a + (b + c) == a + b + c
  {
  }

  // ---------------------------------------------------------------------
  // 64-bit operators
  // ---------------------------------------------------------------------

  function Add64(x: U64, y: U64): U64 { (x + y) % W64 }

  function Sub64(x: U64, y: U64): U64 { (x - y) % W64 }

  function Mul64(x: U64, y: U64): U64 { (x * y) % W64 }

  function Shl64(x: U64, s: nat): U64
    requires s < 64
  {
    (x * Pow2(s)) % W64
  }

  function Shr64(x: U64, s: nat): U64
    requires s < 64
  {
    ShrBound(x, Pow2(s));
    x / Pow2(s)
  }

  lemma {:induction false} ShrBound(x: int, p: int)
    requires 0 <= x && p >= 1
    ensures 0 <= x / p <= x
  {
    MulLe(1, p, x + 1);
    DivBound(x, x + 1, p);
  }

  /** The carry test `x + y < x` of the source. */
  function Bit(b: bool): (r: U64)
  {
    if b then 1 else 0
  }

  lemma {:induction false} CarryTest(x: U64, y: U64)
    ensures x + y == Add64(x, y) + Bit(Add64(x, y) < x) * W64
  {
  }

  lemma {:induction false} BorrowTest(x: U64, y: U64)
    ensures x - y == Sub64(x, y) - Bit(Sub64(x, y) > x) * W64
  {
  }

  // ---------------------------------------------------------------------
  // Shifting a two-limb number u * b + l by p, where p * q is the limb base b
  // ---------------------------------------------------------------------

  /** A value below p * q is a multiple of q plus a rest; times p, the rest stays below p * q. */
  lemma {:induction false} ScaleParts(l: int, p: int, q: int, b: int)
    requires p >= 1 && q >= 1 && b == p * q && 0 <= l < b
    ensures 0 <= l / q < p && 0 <= (l % q) * p <= b - p
    ensures (l * p) / b == l / q && (l * p) % b == (l % q) * p
  {
    DivBound(l, p, q);
    DivMod(l, q);
    var lh, ll := l / q, l % q;
    MulLe(0, ll, p);
    MulLe(ll, q - 1, p);
    Distribute(q, -1, p);
    Distribute(lh * q, ll, p);
    Associate(lh, q, p);
    DivModUnique(l * p, b, lh, ll * p);
  }

  lemma {:induction false} ShiftLeftLimbs(u: int, l: int, p: int, q: int, b: int)
    requires p >= 1 && q >= 1 && b == p * q && 0 <= u < b && 0 <= l < b
    ensures 0 <= (u * p) % b + l / q < b
    ensures ((u * p) % b + l / q) * b + (l * p) % b == ((u * b + l) * p) % (b * b)
  {
    ScaleParts(u, p, q, b);
    ScaleParts(l, p, q, b);
    var uh, um := (u * p) / b, (u * p) % b;
    var lh, lm := (l * p) / b, (l * p) % b;
    DivMod(u * p, b);
    DivMod(l * p, b);
    var v := (um + lh) * b + lm;
    MulLe(0, um + lh, b);
    MulLe(um + lh, b - 1, b);
    Distribute(b, -1, b);
    assert (u * b + l) * p == uh * (b * b) + v by {
      Distribute(u * b, l, p);
      Associate(u, b, p);
      Associate(u, p, b);
      Distribute(uh * b, um, b);
      Associate(uh, b, b);
      Distribute(um, lh, b);
    }
    DivModUnique((u * b + l) * p, b * b, uh, v);
  }

  /** A right shift of two limbs, before the upper limb's share is split. */
  lemma {:induction false} ShiftedSum(u: int, l: int, p: int, q: int)
    requires p >= 1
    ensures (u * (p * q) + l) / p == u * q + l / p
  {
    DivMod(l, p);
    var x := u * q;
    var y := u * (p * q);
    assert y == x * p by {
      Associate(u, q, p);
      Commute(q, p);
    }
    Distribute(x, l / p, p);
    DivModUnique(y + l, p, x + l / p, l % p);
  }

  lemma {:induction false} ShiftRightLimbs(u: int, l: int, p: int, q: int, b: int)
    requires p >= 1 && q >= 1 && b == p * q && 0 <= u < b && 0 <= l < b
    ensures 0 <= u / p < b && 0 <= (u * q) % b + l / p < b
    ensures (u / p) * b + ((u * q) % b + l / p) == (u * b + l) / p
  {
    ShiftRightBounds(u, l, p, q, b);
    ShiftedSum(u, l, p, q);
    AddShares(u * q, u / p, b, (u * q) % b, l / p);
  }

  lemma {:induction false} ShiftRightBounds(u: int, l: int, p: int, q: int, b: int)
    requires p >= 1 && q >= 1 && b == p * q && 0 <= u < b && 0 <= l < b
    ensures 0 <= u / p < b && 0 <= (u * q) % b + l / p < b
    ensures u * q == (u / p) * b + (u * q) % b
  {
    Commute(p, q);
    ScaleParts(u, q, p, b);
    DivBound(l, q, p);
    ShrBound(u, p);
    var x := u * q;
    DivMod(x, b);
    var rest := x % b;
    assert rest <= b - q && l / p < q;
  }

  lemma {:induction false} AddShares(x: int, h: int, b: int, m: int, t: int)
    requires x == h * b + m
    ensures h * b + (m + t) == x + t
  {
  }

  // ---------------------------------------------------------------------
  // Schoolbook products of two four-digit numbers
  // ---------------------------------------------------------------------

  lemma {:induction false} MulRow(t0: int, t1: int, t2: int, t3: int, b: int, c1: int, c2: int, c3: int)
    ensures (t3 * c3 + t2 * c2 + t1 * c1 + t0) * b
         == (t3 * b) * c3 + (t2 * b) * c2 + (t1 * b) * c1 + t0 * b
  {
    Distribute(t3 * c3 + t2 * c2 + t1 * c1, t0, b);
    Distribute(t3 * c3 + t2 * c2, t1 * c1, b);
    Distribute(t3 * c3, t2 * c2, b);
    Associate(t3, c3, b);
    Associate(t2, c2, b);
    Associate(t1, c1, b);
    Associate(t3, b, c3);
    Associate(t2, b, c2);
    Associate(t1, b, c1);
  }

  // ---------------------------------------------------------------------
  // Bitwise OR
  // ---------------------------------------------------------------------

  function Or(a: nat, b: nat): (r: nat)
    decreases a + b
  {
    if a == 0 && b == 0 then 0
    else (if a % 2 == 1 || b % 2 == 1 then 1 else 0) + 2 * Or(a / 2, b / 2)
  }

  lemma {:induction false} OrZero(a: nat)
    ensures Or(a, 0) == a
  {
    if a > 0 {
      OrZero(a / 2);
    }
  }

  lemma {:induction false} OrStep(a: nat, b: nat, a': nat, b': nat, x: nat, y: nat)
    requires a == 2 * a' + x && b == 2 * b' + y && x < 2 && y < 2
    ensures Or(a, b) == 2 * Or(a', b') + Or(x, y)
    ensures Or(x, y) == if x + y > 0 then 1 else 0
  {
    assert a / 2 == a' && b / 2 == b' && a % 2 == x && b % 2 == y;
    assert Or(0, 0) == 0;
    assert x / 2 == 0 && y / 2 == 0;
    if a == 0 && b == 0 {
      assert a' == 0 && b' == 0;
    }
  }

  /** h * 2^k by repeated doubling; keeps the induction below free of products. */
  function Doubled(h: nat, k: nat): (r: nat)
  {
    if k == 0 then h else 2 * Doubled(h, k - 1)
  }

  lemma {:induction false} DoubledIsProduct(h: nat, k: nat)
    ensures Doubled(h, k) == h * Pow2(k)
  {
    if k > 0 {
      DoubledIsProduct(h, k - 1);
      Associate(2, Pow2(k - 1), h);
    }
  }

  lemma {:induction false} OrDoubled(ah: nat, al: nat, bh: nat, bl: nat, k: nat)
    requires al < Pow2(k) && bl < Pow2(k)
    ensures Or(al, bl) < Pow2(k)
    ensures Or(Doubled(ah, k) + al, Doubled(bh, k) + bl) == Doubled(Or(ah, bh), k) + Or(al, bl)
    decreases k
  {
    if k > 0 {
      OrDoubled(ah, al / 2, bh, bl / 2, k - 1);
      OrStep(al, bl, al / 2, bl / 2, al % 2, bl % 2);
      OrStep(Doubled(ah, k) + al, Doubled(bh, k) + bl,
             Doubled(ah, k - 1) + al / 2, Doubled(bh, k - 1) + bl / 2, al % 2, bl % 2);
    }
  }

  /** OR works on the two halves of a number separately. */
  lemma {:induction false} OrHalves(ah: nat, al: nat, bh: nat, bl: nat, k: nat)
    requires al < Pow2(k) && bl < Pow2(k)
    ensures Or(al, bl) < Pow2(k)
    ensures ah * Pow2(k) + al >= 0 && bh * Pow2(k) + bl >= 0
    ensures Or(ah * Pow2(k) + al, bh * Pow2(k) + bl) == Or(ah, bh) * Pow2(k) + Or(al, bl)
  {
    DoubledIsProduct(ah, k);
    DoubledIsProduct(bh, k);
    DoubledIsProduct(Or(ah, bh), k);
    OrDoubled(ah, al, bh, bl, k);
  }

  /** OR of numbers that share no bit is their sum. */
  lemma {:induction false} OrDisjoint(hi: nat, lo: nat, k: nat)
    requires lo < Pow2(k)
    ensures Or(hi * Pow2(k), lo) == hi * Pow2(k) + lo
  {
    hide *;
    OrHalves(hi, 0, 0, lo, k);
    OrZero(hi);
    OrZeroLeft(lo);
  }

  lemma {:induction false} OrZeroLeft(a: nat)
    ensures Or(0, a) == a
  {
    if a > 0 {
      OrZeroLeft(a / 2);
    }
  }

  function Or64(x: U64, y: U64): U64
  {
    Pow2Words();
    OrHalves(0, x, 0, y, 64);
    Or(x, y)
  }
}

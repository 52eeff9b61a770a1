/**
 `uint128`: two 64-bit limbs. Every operator is written on limbs, with the
 wrap-around of the 64-bit operators, and is proved to compute arithmetic
 modulo 2^128 on the number the limbs stand for.
 */
module Uint128 {
  import opened Words

  datatype U128 = U128(upper: U64, lower: U64) {
    function Value(): (v: nat)
      ensures v < W128
    {
      upper * W64 + lower
    }
  }

  const ZERO: U128 := U128(0, 0)
  const ONE: U128 := U128(0, 1)

  function Of(x: U64): (r: U128)
    ensures r.Value() == x
  {
    U128(0, x)
  }

  lemma {:induction false} ValueInjective(a: U128, b: U128)
    ensures a.Value() == b.Value() ==> a == b
  {
  }

  predicate IsTrue(a: U128)
    ensures IsTrue(a) <==> a.Value() != 0
  {
    a.upper != 0 || a.lower != 0
  }

  predicate Less(a: U128, b: U128)
    ensures Less(a, b) <==> a.Value() < b.Value()
  {
    if a.upper == b.upper then a.lower < b.lower else a.upper < b.upper
  }

  predicate Greater(a: U128, b: U128)
    ensures Greater(a, b) <==> a.Value() > b.Value()
  {
    if a.upper == b.upper then a.lower > b.lower else a.upper > b.upper
  }

  predicate AtLeast(a: U128, b: U128)
    ensures AtLeast(a, b) <==> a.Value() >= b.Value()
  {
    ValueInjective(a, b);
    Greater(a, b) || a == b
  }

  function Add(a: U128, b: U128): (r: U128)
    ensures r.Value() == (a.Value() + b.Value()) % W128
  {
    AddLimbs(a.upper, a.lower, b.upper, b.lower);
    U128(Add64(Add64(a.upper, b.upper), Bit(Add64(a.lower, b.lower) < a.lower)), Add64(a.lower, b.lower))
  }

  function Sub(a: U128, b: U128): (r: U128)
    ensures r.Value() == (a.Value() - b.Value()) % W128
  {
    SubLimbs(a.upper, a.lower, b.upper, b.lower);
    U128(Sub64(Sub64(a.upper, b.upper), Bit(Sub64(a.lower, b.lower) > a.lower)), Sub64(a.lower, b.lower))
  }

  lemma {:induction false} AddLimbs(au: U64, al: U64, bu: U64, bl: U64)
    ensures Add64(Add64(au, bu), Bit(Add64(al, bl) < al)) * W64 + Add64(al, bl)
         == ((au * W64 + al) + (bu * W64 + bl)) % W128
  {
    CarryTest(al, bl);
    var carry := Bit(Add64(al, bl) < al);
    var u, l := Add64(Add64(au, bu), carry), Add64(al, bl);
    var k := if au + bu + carry >= W64 then 1 else 0;
    assert u == au + bu + carry - k * W64;
    DivModUnique((au * W64 + al) + (bu * W64 + bl), W128, k, u * W64 + l);
  }

  lemma {:induction false} SubLimbs(au: U64, al: U64, bu: U64, bl: U64)
    ensures Sub64(Sub64(au, bu), Bit(Sub64(al, bl) > al)) * W64 + Sub64(al, bl)
         == ((au * W64 + al) - (bu * W64 + bl)) % W128
  {
    BorrowTest(al, bl);
    var borrow := Bit(Sub64(al, bl) > al);
    var u, l := Sub64(Sub64(au, bu), borrow), Sub64(al, bl);
    var k := if au - bu - borrow < 0 then -1 else 0;
    assert u == au - bu - borrow - k * W64;
    DivModUnique((au * W64 + al) - (bu * W64 + bl), W128, k, u * W64 + l);
  }

  function Or128(a: U128, b: U128): U128
  {
    U128(Or64(a.upper, b.upper), Or64(a.lower, b.lower))
  }

  lemma {:induction false} Or128Value(a: U128, b: U128)
    ensures Or128(a, b).Value() == Or(a.Value(), b.Value())
  {
    Pow2Words();
    hide Or, Pow2;
    OrHalves(a.upper, a.lower, b.upper, b.lower, 64);
  }

  // ---------------------------------------------------------------------
  // Shifts
  // ---------------------------------------------------------------------

  function Shl(a: U128, right: U128): (r: U128)
    ensures r.Value() == if right.Value() < 128 then (a.Value() * Pow2(right.Value())) % W128 else 0
  {
    var shift := right.lower;
    if right.upper != 0 || shift >= 128 then ZERO
    else if shift == 64 then
      ShlWhole(a.upper, a.lower);
      U128(a.lower, 0)
    else if shift == 0 then
      ModSmall(a.Value(), W128);
      a
    else if shift < 64 then
      ShlSmall(a.upper, a.lower, shift);
      U128(Add64(Shl64(a.upper, shift), Shr64(a.lower, 64 - shift)), Shl64(a.lower, shift))
    else
      ShlLarge(a.upper, a.lower, shift);
      U128(Shl64(a.lower, shift - 64), 0)
  }

  lemma {:induction false} ShlWhole(u: U64, l: U64)
    ensures ((u * W64 + l) * Pow2(64)) % W128 == l * W64
  {
    Pow2Words();
    DivModUnique((u * W64 + l) * W64, W128, u, l * W64);
  }

  lemma {:induction false} ShlSmall(u: U64, l: U64, s: nat)
    requires 0 < s < 64
    ensures Add64(Shl64(u, s), Shr64(l, 64 - s)) == Shl64(u, s) + Shr64(l, 64 - s)
    ensures (Shl64(u, s) + Shr64(l, 64 - s)) * W64 + Shl64(l, s) == ((u * W64 + l) * Pow2(s)) % W128
  {
    hide Pow2;
    Pow2Words();
    Pow2Split(s, 64);
    ShiftLeftLimbs(u, l, Pow2(s), Pow2(64 - s), W64);
  }

  lemma {:induction false} ShlLarge(u: U64, l: U64, s: nat)
    requires 64 < s < 128
    ensures Shl64(l, s - 64) * W64 == ((u * W64 + l) * Pow2(s)) % W128
  {
    Pow2Words();
    Pow2Add(64, s - 64);
    var p := Pow2(s - 64);
    var h, m := (l * p) / W64, (l * p) % W64;
    DivMod(l * p, W64);
    assert (u * W64 + l) * (W64 * p) == (u * p + h) * W128 + m * W64 by {
      assert (u * W64 + l) * (W64 * p) == W64 * ((u * W64 + l) * p) by { Associate(W64, u * W64 + l, p); }
      assert (u * W64 + l) * p == (u * p) * W64 + l * p by { Distribute(u * W64, l, p); Associate(u, W64, p); }
    }
    DivModUnique((u * W64 + l) * Pow2(s), W128, u * p + h, m * W64);
  }

  function Shr(a: U128, right: U128): (r: U128)
    ensures r.Value() == if right.Value() < 128 then a.Value() / Pow2(right.Value()) else 0
  {
    var shift := right.lower;
    if right.upper != 0 || shift >= 128 then ZERO
    else if shift == 64 then
      Pow2Words();
      U128(0, a.upper)
    else if shift == 0 then a
    else if shift < 64 then
      ShrSmall(a.upper, a.lower, shift);
      U128(Shr64(a.upper, shift), Add64(Shl64(a.upper, 64 - shift), Shr64(a.lower, shift)))
    else
      ShrLarge(a.upper, a.lower, shift);
      U128(0, Shr64(a.upper, shift - 64))
  }

  lemma {:induction false} ShrSmall(u: U64, l: U64, s: nat)
    requires 0 < s < 64
    ensures Add64(Shl64(u, 64 - s), Shr64(l, s)) == Shl64(u, 64 - s) + Shr64(l, s)
    ensures Shr64(u, s) * W64 + (Shl64(u, 64 - s) + Shr64(l, s)) == (u * W64 + l) / Pow2(s)
  {
    hide Pow2;
    Pow2Words();
    Pow2Split(s, 64);
    ShiftRightLimbs(u, l, Pow2(s), Pow2(64 - s), W64);
  }

  lemma {:induction false} ShrLarge(u: U64, l: U64, s: nat)
    requires 64 < s < 128
    ensures Shr64(u, s - 64) == (u * W64 + l) / Pow2(s)
  {
    Pow2Words();
    Pow2Add(s - 64, 64);
    DivTwice(u, l, Pow2(s - 64), W64);
  }

  /** Division of u * b + l by p * b needs only u. */
  lemma {:induction false} DivTwice(u: int, l: int, p: int, b: int)
    requires p >= 1 && b >= 1 && 0 <= l < b && 0 <= u
    ensures (u * b + l) / (p * b) == u / p
  {
    DivMod(u, p);
    var q, r := u / p, u % p;
    MulLe(0, r, b);
    MulLe(r + 1, p, b);
    Distribute(r, 1, b);
    MulLe(1, p, b);
    assert u * b + l == q * (p * b) + (r * b + l) by {
      Distribute(q * p, r, b);
      Associate(q, p, b);
    }
    DivModUnique(u * b + l, p * b, q, r * b + l);
  }

  /** The number of significant bits, by shifting one limb down to zero. */
  method Bits(a: U128) returns (out: nat)
    ensures a.Value() == 0 ==> out == 0
    ensures a.Value() > 0 ==> 1 <= out <= 128 && Pow2(out - 1) <= a.Value() < Pow2(out)
  {
    Pow2Words();
    if a.upper != 0 {
      out := BitsOfLimb(a.upper);
      BitsOfUpper(a.upper, a.lower, out);
      out := 64 + out;
    } else {
      out := BitsOfLimb(a.lower);
    }
  }

  lemma {:induction false} BitsOfUpper(u: U64, l: U64, n: nat)
    requires 1 <= n <= 64 && Pow2(n - 1) <= u < Pow2(n)
    ensures Pow2(64 + n - 1) <= u * W64 + l < Pow2(64 + n)
  {
    hide Pow2;
    Pow2Words();
    Pow2Add(n - 1, 64);
    Pow2Add(n, 64);
    MulLe(Pow2(n - 1), u, W64);
    MulLe(u + 1, Pow2(n), W64);
  }

  method BitsOfLimb(x: U64) returns (n: nat)
    ensures x == 0 ==> n == 0
    ensures x > 0 ==> 1 <= n <= 64 && Pow2(n - 1) <= x < Pow2(n)
  {
    n := 0;
    var up := x;
    while up != 0
      invariant up == x / Pow2(n)
      invariant n > 0 ==> Pow2(n - 1) <= x
      invariant n == 0 ==> up == x
      invariant 0 <= up < W64
      decreases up
    {
      DivMod(x, Pow2(n));
      MulLe(1, up, Pow2(n));
      DivDouble(x, Pow2(n));
      up := up / 2;
      n := n + 1;
    }
    DivMod(x, Pow2(n));
    if x > 0 {
      Pow2Words();
      if n > 64 {
        Pow2Monotonic(64, n - 1);
      }
    }
  }

  lemma {:induction false} DivDouble(x: int, p: int)
    requires x >= 0 && p >= 1
    ensures (x / p) / 2 == x / (2 * p)
  {
    DivMod(x, p);
    var q := x / p;
    var h, r := q / 2, q % 2;
    Distribute(2 * h, r, p);
    Associate(2, h, p);
    MulLe(r, 1, p);
    MulLe(0, r, p);
    Associate(2, p, h);
    DivModUnique(x, 2 * p, h, r * p + x % p);
  }

  // ---------------------------------------------------------------------
  // Multiplication
  // ---------------------------------------------------------------------

  const W96: int := 0x1_0000_0000_0000_0000_0000_0000

  /** Two 32-bit digits packed into a limb with shift and OR. */
  lemma {:induction false} PackDigits(hi: U64, lo: U64)
    requires hi < W32 && lo < W32
    ensures Or64(Shl64(hi, 32), lo) == hi * W32 + lo
  {
    Pow2Words();
    ModSmall(hi * W32, W64);
    OrDisjoint(hi, lo, 32);
  }

  lemma {:induction false} DigitProduct(x: U64, y: U64)
    requires x < W32 && y < W32
    ensures Mul64(x, y) == x * y <= (W32 - 1) * (W32 - 1)
  {
    MulBounds(x, y, W32 - 1, W32 - 1);
    ModSmall(x * y, W64);
  }

  /** The four columns that survive modulo 2^128, from the ten partial products that reach them. */
  ghost function Columns(p00: int, p01: int, p10: int, p02: int, p11: int, p20: int,
                         p03: int, p12: int, p21: int, p30: int): int
  {
    p00 + (p01 + p10) * W32 + (p02 + p11 + p20) * W64 + (p03 + p12 + p21 + p30) * W96
  }

  /** The weights above 2^128 of a four-digit product fall away. */
  lemma {:induction false} ProductModulo(t0: int, t1: int, t2: int, t3: int, b0: int, b1: int, b2: int, b3: int)
    ensures ((t3 * W96 + t2 * W64 + t1 * W32 + t0) * (b3 * W96 + b2 * W64 + b1 * W32 + b0)) % W128
         == Columns(t0 * b0, t0 * b1, t1 * b0, t0 * b2, t1 * b1, t2 * b0, t0 * b3, t1 * b2, t2 * b1, t3 * b0) % W128
  {
    var t := t3 * W96 + t2 * W64 + t1 * W32 + t0;
    MulRow(b0, b1, b2, b3, t, W32, W64, W96);
    MulRow(t0, t1, t2, t3, b0, W32, W64, W96);
    MulRow(t0, t1, t2, t3, b1, W32, W64, W96);
    MulRow(t0, t1, t2, t3, b2, W32, W64, W96);
    MulRow(t0, t1, t2, t3, b3, W32, W64, W96);
    var high := (t1 * b3 + t2 * b2 + t3 * b1) + (t2 * b3 + t3 * b2) * W32 + (t3 * b3) * W64;
    ModDrop(t * (b3 * W96 + b2 * W64 + b1 * W32 + b0),
            Columns(t0 * b0, t0 * b1, t1 * b0, t0 * b2, t1 * b1, t2 * b0, t0 * b3, t1 * b2, t2 * b1, t3 * b0),
            high, W128);
  }

  /**
   Schoolbook multiplication on 32-bit digits. The sums are the wrapping 64-bit
   sums of the source; the proof shows that no column reaches 2^64.
   */
  method Multiply(a: U128, b: U128) returns (r: U128)
    ensures r.Value() == (a.Value() * b.Value()) % W128
  {
    var top: seq<U64> := [a.upper / W32, a.upper % W32, a.lower / W32, a.lower % W32];
    var bottom: seq<U64> := [b.upper / W32, b.upper % W32, b.lower / W32, b.lower % W32];
    var products := PartialProducts(top, bottom);
    forall i, j | 0 <= i < 4 && 0 <= j < 4
      ensures products[i, j] == top[3 - i] * bottom[j] <= (W32 - 1) * (W32 - 1)
    {
      DigitProduct(top[3 - i], bottom[j]);
    }
    r := SumColumns(products);
    ProductModulo(top[3], top[2], top[1], top[0], bottom[3], bottom[2], bottom[1], bottom[0]);
    assert a.Value() == top[0] * W96 + top[1] * W64 + top[2] * W32 + top[3];
    assert b.Value() == bottom[0] * W96 + bottom[1] * W64 + bottom[2] * W32 + bottom[3];
  }

  /** products[3 - x][y] = top[x] * bottom[y]. */
  method PartialProducts(top: seq<U64>, bottom: seq<U64>) returns (products: array2<U64>)
    requires |top| == 4 && |bottom| == 4
    ensures products.Length0 == 4 && products.Length1 == 4
    ensures forall i, j :: 0 <= i < 4 && 0 <= j < 4 ==> products[i, j] == Mul64(top[3 - i], bottom[j])
  {
    hide Mul64;
    products := new U64[4, 4];
    for y := 4 downto 0
      invariant forall i, j :: 0 <= i < 4 && y <= j < 4 ==> products[i, j] == Mul64(top[3 - i], bottom[j])
    {
      for x := 4 downto 0
        invariant forall i, j :: 0 <= i < 4 && y < j < 4 ==> products[i, j] == Mul64(top[3 - i], bottom[j])
        invariant forall i :: 0 <= i < 4 - x ==> products[i, y] == Mul64(top[3 - i], bottom[y])
      {
        products[3 - x, y] := Mul64(top[x], bottom[y]);
      }
    }
  }

  /** Splitting each partial product into its low and high digit moves no value. */
  lemma {:induction false} SplitColumns(p00: int, p01: int, p10: int, p02: int, p11: int, p20: int,
                     p03: int, p12: int, p21: int, p30: int)
    ensures Columns(p00, p01, p10, p02, p11, p20, p03, p12, p21, p30)
         == p00 % W32
          + (p01 % W32 + p00 / W32 + p10 % W32) * W32
          + (p02 % W32 + p01 / W32 + p11 % W32 + p10 / W32 + p20 % W32) * W64
          + (p03 % W32 + p02 / W32 + p12 % W32 + p11 / W32 + p21 % W32 + p20 / W32 + p30 % W32) * W96
          + (p03 / W32 + p12 / W32 + p21 / W32 + p30 / W32) * W128
  {
  }

  /** Carrying the columns into digits keeps their value modulo 2^128. */
  lemma {:induction false} CarryColumns(c1: nat, c2: nat, c3: nat, c4: nat, d1: nat, d2: nat)
    requires c4 < W32 && d2 == c2 + c3 / W32 && d1 == c1 + d2 / W32
    ensures (d1 % W32) * W96 + (d2 % W32) * W64 + (c3 % W32) * W32 + c4
         == (c4 + c3 * W32 + c2 * W64 + c1 * W96) % W128
  {
    var r := (d1 % W32) * W96 + (d2 % W32) * W64 + (c3 % W32) * W32 + c4;
    assert c4 + c3 * W32 + c2 * W64 + c1 * W96 == r + (d1 / W32) * W128;
    DivModUnique(c4 + c3 * W32 + c2 * W64 + c1 * W96, W128, d1 / W32, r);
  }

  lemma {:induction false} AddFits(x: U64, y: U64)
    requires x + y < W64
    ensures Add64(x, y) == x + y
  {
    ModSmall(x + y, W64);
  }

  /** No column accumulator overflows: at most seven digits and a carry meet in one column. */
  lemma {:induction false} ColumnsFit(a: U64, b: U64, c: U64, d: U64, e: U64, f: U64, g: U64)
    requires a < W32 && b < W32 && c < W32 && d < W32 && e < W32 && f < W32 && g < W32
    ensures Add64(Add64(a, b), c) == a + b + c
    ensures Add64(Add64(Add64(a, b), Add64(c, d)), e) == a + b + c + d + e
    ensures Add64(Add64(Add64(Add64(a, b), Add64(c, d)), Add64(e, f)), g) == a + b + c + d + e + f + g
  {
    AddFits(a, b);
    AddFits(c, d);
    AddFits(e, f);
    AddFits(a + b, c);
    AddFits(a + b, c + d);
    AddFits(a + b + c + d, e);
    AddFits(a + b + c + d, e + f);
    AddFits(a + b + c + d + e + f, g);
  }

  method SumColumns(products: array2<U64>) returns (r: U128)
    requires products.Length0 == 4 && products.Length1 == 4
    requires forall i, j :: 0 <= i < 4 && 0 <= j < 4 ==> products[i, j] <= (W32 - 1) * (W32 - 1)
    ensures r.Value() == Columns(products[0, 3], products[0, 2], products[1, 3],
                                 products[0, 1], products[1, 2], products[2, 3],
                                 products[0, 0], products[1, 1], products[2, 2], products[3, 3]) % W128
  {
    var first, second, third, fourth := AddPartials(products);
    r := CarryAndPack(first, second, third, fourth);
    ghost var over := products[0, 0] / W32 + products[1, 1] / W32 + products[2, 2] / W32 + products[3, 3] / W32;
    ghost var c := fourth + third * W32 + second * W64 + first * W96;
    ModDrop(c + over * W128, c, over, W128);
  }

  method CarryAndPack(c1: U64, c2: U64, c3: U64, c4: U64) returns (r: U128)
    requires c1 < 8 * W32 && c2 < 8 * W32 && c3 < 8 * W32 && c4 < W32
    ensures r.Value() == (c4 + c3 * W32 + c2 * W64 + c1 * W96) % W128
  {
    CarriesFit(c1, c2, c3, c4);
    hide Add64;
    var third := Add64(c3, c4 / W32);
    assert third == c3;
    var second := Add64(c2, third / W32);
    assert second == c2 + c3 / W32;
    var first := Add64(c1, second / W32);
    assert first == c1 + second / W32;
    CarryColumns(c1, c2, c3, c4, first, second);
    r := PackColumns(first % W32, second % W32, third % W32, c4 % W32);
  }

  method PackColumns(first: U64, second: U64, third: U64, fourth: U64) returns (r: U128)
    requires first < W32 && second < W32 && third < W32 && fourth < W32
    ensures r.Value() == first * W96 + second * W64 + third * W32 + fourth
  {
    PackDigits(first, second);
    PackDigits(third, fourth);
    hide Or64, Shl64;
    r := U128(Or64(Shl64(first, 32), second), Or64(Shl64(third, 32), fourth));
  }

  lemma {:induction false} CarriesFit(first: U64, second: U64, third: U64, fourth: U64)
    requires first < 8 * W32 && second < 8 * W32 && third < 8 * W32 && fourth < W32
    ensures fourth / W32 == 0 && fourth % W32 == fourth && Add64(third, 0) == third
    ensures Add64(second, third / W32) == second + third / W32
    ensures Add64(first, (second + third / W32) / W32) == first + (second + third / W32) / W32
  {
    AddFits(second, third / W32);
    AddFits(first, (second + third / W32) / W32);
  }

  method AddPartials(products: array2<U64>) returns (first: U64, second: U64, third: U64, fourth: U64)
    requires products.Length0 == 4 && products.Length1 == 4
    requires forall i, j :: 0 <= i < 4 && 0 <= j < 4 ==> products[i, j] <= (W32 - 1) * (W32 - 1)
    ensures first < 8 * W32 && second < 8 * W32 && third < 8 * W32 && fourth < W32
    ensures Columns(products[0, 3], products[0, 2], products[1, 3],
                    products[0, 1], products[1, 2], products[2, 3],
                    products[0, 0], products[1, 1], products[2, 2], products[3, 3])
         == fourth + third * W32 + second * W64 + first * W96
          + (products[0, 0] / W32 + products[1, 1] / W32 + products[2, 2] / W32 + products[3, 3] / W32) * W128
  {
    SplitColumns(products[0, 3], products[0, 2], products[1, 3], products[0, 1], products[1, 2], products[2, 3],
                 products[0, 0], products[1, 1], products[2, 2], products[3, 3]);
    fourth := products[0, 3] % W32;
    third := Add64(products[0, 2] % W32, products[0, 3] / W32);
    second := Add64(products[0, 1] % W32, products[0, 2] / W32);
    first := Add64(products[0, 0] % W32, products[0, 1] / W32);
    third := Add64(third, products[1, 3] % W32);
    second := Add64(second, Add64(products[1, 2] % W32, products[1, 3] / W32));
    first := Add64(first, Add64(products[1, 1] % W32, products[1, 2] / W32));
    second := Add64(second, products[2, 3] % W32);
    first := Add64(first, Add64(products[2, 2] % W32, products[2, 3] / W32));
    first := Add64(first, products[3, 3] % W32);
    ColumnsFit(products[0, 2] % W32, products[0, 3] / W32, products[1, 3] % W32, 0, 0, 0, 0);
    ColumnsFit(products[0, 1] % W32, products[0, 2] / W32, products[1, 2] % W32, products[1, 3] / W32,
               products[2, 3] % W32, 0, 0);
    ColumnsFit(products[0, 0] % W32, products[0, 1] / W32, products[1, 1] % W32, products[1, 2] / W32,
               products[2, 2] % W32, products[2, 3] / W32, products[3, 3] % W32);
  }

  // ---------------------------------------------------------------------
  // Division
  // ---------------------------------------------------------------------

  /** Doubling that stays below 2^128, as `<<= 1` computes it. */
  lemma {:induction false} DoubleFits(a: U128)
    requires 2 * a.Value() < W128
    ensures Shl(a, ONE).Value() == 2 * a.Value()
  {
    assert ONE.Value() == 1 && Pow2(1) == 2;
    ModSmall(2 * a.Value(), W128);
  }

  lemma {:induction false} SumFits(a: U128, b: U128)
    requires a.Value() + b.Value() < W128
    ensures Add(a, b).Value() == a.Value() + b.Value()
  {
    ModSmall(a.Value() + b.Value(), W128);
  }

  lemma {:induction false} DifferenceFits(a: U128, b: U128)
    requires a.Value() >= b.Value()
    ensures Sub(a, b).Value() == a.Value() - b.Value()
  {
    ModSmall(a.Value() - b.Value(), W128);
  }

  lemma {:induction false} LowBit(a: U128)
    ensures a.Value() % 2 == a.lower % 2
  {
  }

  /** One more bit of the dividend: its prefix doubles and takes the bit in. */
  lemma {:induction false} NextBit(left: nat, x: nat, shifted: U128)
    requires x >= 1 && left < W128 && shifted.Value() == left / Pow2(x - 1)
    ensures left / Pow2(x - 1) == 2 * (left / Pow2(x)) + shifted.lower % 2
    ensures 0 <= left / Pow2(x - 1) < W128
  {
    DivDouble(left, Pow2(x - 1));
    ShrBound(left, Pow2(x - 1));
    LowBit(shifted);
  }

  /** What one round of restoring division does to the prefix it has consumed. */
  lemma {:induction false} RestoreStep(q: int, r: int, d: int, prefix: int, bit: int)
    requires 0 <= r < d && q >= 0 && 0 <= bit <= 1 && prefix == q * d + r
    ensures 2 * q <= 2 * prefix + bit && 2 * r + bit <= 2 * prefix + bit
    ensures 2 * prefix + bit == (2 * q) * d + (2 * r + bit)
    ensures 2 * prefix + bit == (2 * q + 1) * d + (2 * r + bit - d)
    ensures 2 * r + bit >= d ==> 2 * q + 1 <= 2 * prefix + bit
  {
    MulLe(1, d, q);
    Associate(2, q, d);
    Distribute(2 * q, 1, d);
  }

  /**
   Bitwise restoring division. The doubled remainder cannot overflow, for
   divisors above 2^127 too, because it never exceeds the dividend's prefix.
   */
  method Divide(left: U128, right: U128) returns (q: U128, r: U128)
    ensures right.Value() == 0 ==> q == ZERO && r == ZERO
    ensures right.Value() > 0 ==> left.Value() == q.Value() * right.Value() + r.Value() && r.Value() < right.Value()
  {
    if right == ZERO {
      return ZERO, ZERO;
    } else if right == ONE {
      return left, ZERO;
    } else if left == right {
      return ONE, ZERO;
    } else if left == ZERO || Less(left, right) {
      return ZERO, left;
    }
    ValueInjective(right, ZERO);
    q, r := DivideBits(left, right);
  }

  /** The loop over the bits of the dividend, from the top. */
  method DivideBits(left: U128, right: U128) returns (q: U128, r: U128)
    requires right.Value() > 0
    ensures left.Value() == q.Value() * right.Value() + r.Value() && r.Value() < right.Value()
  {
    hide Shr, Of;
    q, r := ZERO, ZERO;
    var x := Bits(left);
    ModSmall(left.Value(), Pow2(x));
    hide U128.Value;
    while x > 0
      invariant 0 <= x <= 128
      invariant r.Value() < right.Value()
      invariant left.Value() / Pow2(x) == q.Value() * right.Value() + r.Value()
    {
      var shifted := Shr(left, Of(x - 1));
      NextBit(left.Value(), x, shifted);
      RestoreStep(q.Value(), r.Value(), right.Value(), left.Value() / Pow2(x), shifted.lower % 2);
      q, r := RestoreRound(q, r, right, shifted.lower % 2 == 1);
      x := x - 1;
    }
  }

  /** The body of the loop: shift both registers, bring in a bit, subtract the divisor if it fits. */
  method RestoreRound(q: U128, r: U128, right: U128, bit: bool) returns (q': U128, r': U128)
    requires r.Value() < right.Value()
    requires 2 * q.Value() < W128 && 2 * r.Value() + Bit(bit) < W128
    requires 2 * r.Value() + Bit(bit) >= right.Value() ==> 2 * q.Value() + 1 < W128
    ensures r'.Value() < right.Value()
    ensures if 2 * r.Value() + Bit(bit) >= right.Value()
            then q'.Value() == 2 * q.Value() + 1 && r'.Value() == 2 * r.Value() + Bit(bit) - right.Value()
            else q'.Value() == 2 * q.Value() && r'.Value() == 2 * r.Value() + Bit(bit)
  {
    DoubleFits(q);
    DoubleFits(r);
    q', r' := Shl(q, ONE), Shl(r, ONE);
    if bit {
      SumFits(r', ONE);
      r' := Add(r', ONE);
    }
    if AtLeast(r', right) {
      DifferenceFits(r', right);
      r' := Sub(r', right);
      SumFits(q', ONE);
      q' := Add(q', ONE);
    }
  }
}

/**
 `uint256`: two `uint128` halves. Every operator is built from the 128-bit
 operators, and every proof from their contracts.
 */
module Uint256 {
  import opened Words
  import opened Uint128

  datatype U256 = U256(upper: U128, lower: U128) {
    function Value(): (v: nat)
      ensures v < W256
    {
      upper.Value() * W128 + lower.Value()
    }
  }

  const MIN: U256 := U256(ZERO, ZERO)
  const UNIT: U256 := U256(ZERO, ONE)

  function Of256(x: U128): (r: U256)
    ensures r.Value() == x.Value()
  {
    U256(ZERO, x)
  }

  lemma {:induction false} ValueInjective256(a: U256, b: U256)
    ensures a.Value() == b.Value() ==> a == b
  {
    ValueInjective(a.upper, b.upper);
    ValueInjective(a.lower, b.lower);
  }

  predicate IsTrue256(a: U256)
    ensures IsTrue256(a) <==> a.Value() != 0
  {
    IsTrue(a.upper) || IsTrue(a.lower)
  }

  predicate Less256(a: U256, b: U256)
    ensures Less256(a, b) <==> a.Value() < b.Value()
  {
    ValueInjective(a.upper, b.upper);
    if a.upper == b.upper then Less(a.lower, b.lower) else Less(a.upper, b.upper)
  }

  predicate Greater256(a: U256, b: U256)
    ensures Greater256(a, b) <==> a.Value() > b.Value()
  {
    ValueInjective(a.upper, b.upper);
    if a.upper == b.upper then Greater(a.lower, b.lower) else Greater(a.upper, b.upper)
  }

  predicate AtLeast256(a: U256, b: U256)
    ensures AtLeast256(a, b) <==> a.Value() >= b.Value()
  {
    ValueInjective256(a, b);
    Greater256(a, b) || a == b
  }

  /** A carry or borrow flag used as a number. */
  function Flag(b: bool): (r: U128)
    ensures r.Value() == if b then 1 else 0
  {
    if b then ONE else ZERO
  }

  function Add256(a: U256, b: U256): U256
  {
    U256(Add(Add(a.upper, b.upper), Flag(Less(Add(a.lower, b.lower), a.lower))), Add(a.lower, b.lower))
  }

  lemma {:induction false} Add256Value(a: U256, b: U256)
    ensures Add256(a, b).Value() == (a.Value() + b.Value()) % W256
  {
    hide Add, Less, Flag, U128.Value;
    var low := Add(a.lower, b.lower);
    var carry := Flag(Less(low, a.lower));
    AddHalves(a.upper.Value(), a.lower.Value(), b.upper.Value(), b.lower.Value(), low.Value(), carry.Value(),
              Add(a.upper, b.upper).Value(), Add(Add(a.upper, b.upper), carry).Value());
  }

  lemma {:induction false} WrapSum(x: nat, y: nat)
    requires x < W128 && y < W128
    ensures (x + y) % W128 == if x + y >= W128 then x + y - W128 else x + y
  {
  }

  lemma {:induction false} WrapDifference(x: nat, y: nat)
    requires x < W128 && y < W128
    ensures (x - y) % W128 == if x < y then x - y + W128 else x - y
  {
  }

  lemma {:induction false} AddHalves(au: nat, al: nat, bu: nat, bl: nat, low: nat, carry: nat, mid: nat, high: nat)
    requires au < W128 && al < W128 && bu < W128 && bl < W128
    requires low == (al + bl) % W128 && carry == (if low < al then 1 else 0)
    requires mid == (au + bu) % W128 && high == (mid + carry) % W128
    ensures high * W128 + low == ((au * W128 + al) + (bu * W128 + bl)) % W256
  {
    WrapSum(al, bl);
    WrapSum(au, bu);
    WrapSum(mid, carry);
    var k1 := if au + bu >= W128 then 1 else 0;
    var k2 := if mid + carry >= W128 then 1 else 0;
    var k := k1 + k2;
    DivModUnique((au * W128 + al) + (bu * W128 + bl), W256, k, high * W128 + low);
  }

  function Sub256(a: U256, b: U256): U256
  {
    U256(Sub(Sub(a.upper, b.upper), Flag(Greater(Sub(a.lower, b.lower), a.lower))), Sub(a.lower, b.lower))
  }

  lemma {:induction false} Sub256Value(a: U256, b: U256)
    ensures Sub256(a, b).Value() == (a.Value() - b.Value()) % W256
  {
    hide Sub, Greater, Flag, U128.Value;
    var low := Sub(a.lower, b.lower);
    var borrow := Flag(Greater(low, a.lower));
    SubHalves(a.upper.Value(), a.lower.Value(), b.upper.Value(), b.lower.Value(), low.Value(), borrow.Value(),
              Sub(a.upper, b.upper).Value(), Sub(Sub(a.upper, b.upper), borrow).Value());
  }

  lemma {:induction false} SubHalves(au: nat, al: nat, bu: nat, bl: nat, low: nat, borrow: nat, mid: nat, high: nat)
    requires au < W128 && al < W128 && bu < W128 && bl < W128
    requires low == (al - bl) % W128 && borrow == (if low > al then 1 else 0)
    requires mid == (au - bu) % W128 && high == (mid - borrow) % W128
    ensures high * W128 + low == ((au * W128 + al) - (bu * W128 + bl)) % W256
  {
    WrapDifference(al, bl);
    WrapDifference(au, bu);
    WrapDifference(mid, borrow);
    var k1 := if au - bu < 0 then 1 else 0;
    var k2 := if mid - borrow < 0 then 1 else 0;
    var k := k1 + k2;
    DivModUnique((au * W128 + al) - (bu * W128 + bl), W256, -k, high * W128 + low);
  }

  function Or256(a: U256, b: U256): U256
  {
    U256(Or128(a.upper, b.upper), Or128(a.lower, b.lower))
  }

  lemma {:induction false} Or256Value(a: U256, b: U256)
    ensures Or256(a, b).Value() == Or(a.Value(), b.Value())
  {
    Pow2Words();
    hide Or, Pow2, Or128, U128.Value;
    Or128Value(a.upper, b.upper);
    Or128Value(a.lower, b.lower);
    OrHalves(a.upper.Value(), a.lower.Value(), b.upper.Value(), b.lower.Value(), 128);
  }

  lemma {:induction false} DifferenceFits256(a: U256, b: U256)
    requires a.Value() >= b.Value()
    ensures Sub256(a, b).Value() == a.Value() - b.Value()
  {
    hide *;
    Sub256Value(a, b);
    ModSmall(a.Value() - b.Value(), W256);
  }

  // ---------------------------------------------------------------------
  // Shifts
  // ---------------------------------------------------------------------

  function Shl256(a: U256, right: U256): U256
  {
    var shift := right.lower;
    if IsTrue(right.upper) || AtLeast(shift, Of(256)) then MIN
    else if shift == Of(128) then U256(a.lower, ZERO)
    else if shift == ZERO then a
    else if Less(shift, Of(128)) then
      U256(Add(Shl(a.upper, shift), Shr(a.lower, Sub(Of(128), shift))), Shl(a.lower, shift))
    else U256(Shl(a.lower, Sub(shift, Of(128))), ZERO)
  }

  lemma {:induction false} Shl256Value(a: U256, right: U256)
    ensures Shl256(a, right).Value()
         == if right.Value() < 256 then (a.Value() * Pow2(right.Value())) % W256 else 0
  {
    hide Add, Sub, Shl, Shr, Less, AtLeast, IsTrue, U128.Value;
    var shift := right.lower;
    ShiftCases(shift);
    var s := shift.Value();
    if right.Value() >= 256 {
    } else if s == 128 {
      Shl256Whole(a.upper.Value(), a.lower.Value());
    } else if s == 0 {
      ModSmall(a.Value(), W256);
    } else if s < 128 {
      Shl256Small(a.upper, a.lower, shift);
    } else {
      DifferenceFits(shift, Of(128));
      Shl256Large(a.upper.Value(), a.lower.Value(), s);
    }
  }

  /** Comparing a shift amount with the constants is comparing its value. */
  lemma {:induction false} ShiftCases(shift: U128)
    ensures shift == ZERO <==> shift.Value() == 0
    ensures shift == Of(128) <==> shift.Value() == 128
    ensures Of(128).Value() == 128 && Of(256).Value() == 256 && ZERO.Value() == 0
  {
    ValueInjective(shift, ZERO);
    ValueInjective(shift, Of(128));
  }

  lemma {:induction false} Shl256Whole(u: nat, l: nat)
    requires l < W128
    ensures ((u * W128 + l) * Pow2(128)) % W256 == l * W128
  {
    Pow2Words();
    DivModUnique((u * W128 + l) * W128, W256, u, l * W128);
  }

  lemma {:induction false} Shl256Small(u: U128, l: U128, shift: U128)
    requires 0 < shift.Value() < 128
    ensures Add(Shl(u, shift), Shr(l, Sub(Of(128), shift))).Value() * W128 + Shl(l, shift).Value()
         == ((u.Value() * W128 + l.Value()) * Pow2(shift.Value())) % W256
  {
    hide Add, Sub, Shl, Shr, U128.Value;
    var s := shift.Value();
    DifferenceFits(Of(128), shift);
    Pow2Words();
    Pow2Split(s, 128);
    ShiftLeftLimbs(u.Value(), l.Value(), Pow2(s), Pow2(128 - s), W128);
    SumFits(Shl(u, shift), Shr(l, Sub(Of(128), shift)));
  }

  lemma {:induction false} Shl256Large(u: nat, l: nat, s: nat)
    requires 128 < s < 256 && l < W128
    ensures ((l * Pow2(s - 128)) % W128) * W128 == ((u * W128 + l) * Pow2(s)) % W256
  {
    Pow2Words();
    Pow2Add(128, s - 128);
    var p := Pow2(s - 128);
    var h, m := (l * p) / W128, (l * p) % W128;
    DivMod(l * p, W128);
    assert (u * W128 + l) * (W128 * p) == (u * p + h) * W256 + m * W128 by {
      assert (u * W128 + l) * (W128 * p) == W128 * ((u * W128 + l) * p) by { Associate(W128, u * W128 + l, p); }
      assert (u * W128 + l) * p == (u * p) * W128 + l * p by { Distribute(u * W128, l, p); Associate(u, W128, p); }
    }
    DivModUnique((u * W128 + l) * Pow2(s), W256, u * p + h, m * W128);
  }

  function Shr256(a: U256, right: U256): U256
  {
    var shift := right.lower;
    if IsTrue(right.upper) || AtLeast(shift, Of(128)) then MIN
    else if shift == ZERO then a
    else U256(Shr(a.upper, shift), Add(Shl(a.upper, Sub(Of(128), shift)), Shr(a.lower, shift)))
  }

  /** The code answers zero for every shift of 128 and above. */
  lemma {:induction false} Shr256Value(a: U256, right: U256)
    ensures Shr256(a, right).Value() == if right.Value() < 128 then a.Value() / Pow2(right.Value()) else 0
  {
    hide Add, Sub, Shl, Shr, Less, AtLeast, IsTrue, U128.Value;
    var shift := right.lower;
    ShiftCases(shift);
    if right.Value() >= 128 || shift.Value() == 0 {
    } else {
      Shr256Small(a.upper, a.lower, shift);
    }
  }

  lemma {:induction false} Shr256Small(u: U128, l: U128, shift: U128)
    requires 0 < shift.Value() < 128
    ensures Shr(u, shift).Value() * W128 + Add(Shl(u, Sub(Of(128), shift)), Shr(l, shift)).Value()
         == (u.Value() * W128 + l.Value()) / Pow2(shift.Value())
  {
    hide Add, Sub, Shl, Shr, U128.Value;
    var s := shift.Value();
    DifferenceFits(Of(128), shift);
    Pow2Words();
    Pow2Split(s, 128);
    ShiftRightLimbs(u.Value(), l.Value(), Pow2(s), Pow2(128 - s), W128);
    SumFits(Shl(u, Sub(Of(128), shift)), Shr(l, shift));
  }

  /**
   When a right shift is the floor division it stands for: exactly when the
   shift is below 128 or the number had no bit at or above the shift.
   */
  lemma {:induction false} ShiftRightIsDivisionExactlyWhen(a: U256, right: U256)
    ensures Shr256(a, right).Value() == a.Value() / Pow2(right.Value())
       <==> right.Value() < 128 || a.Value() < Pow2(right.Value())
  {
    hide *;
    Shr256Value(a, right);
    var p := Pow2(right.Value());
    if a.Value() < p {
      ModSmall(a.Value(), p);
    } else {
      DivMod(a.Value(), p);
      if a.Value() / p <= 0 {
        MulLe(a.Value() / p, 0, p);
      }
    }
  }

  // ---------------------------------------------------------------------
  // Multiplication
  // ---------------------------------------------------------------------

  const W192: int := 0x1_0000_0000_0000_0000_0000_0000_0000_0000_0000_0000_0000_0000

  /** The four columns that survive modulo 2^256. */
  ghost function Columns256(p00: int, p01: int, p10: int, p02: int, p11: int, p20: int,
                            p03: int, p12: int, p21: int, p30: int): int
  {
    p00 + (p01 + p10) * W64 + (p02 + p11 + p20) * W128 + (p03 + p12 + p21 + p30) * W192
  }

  lemma {:induction false} ProductModulo256(t0: int, t1: int, t2: int, t3: int, b0: int, b1: int, b2: int, b3: int)
    ensures ((t3 * W192 + t2 * W128 + t1 * W64 + t0) * (b3 * W192 + b2 * W128 + b1 * W64 + b0)) % W256
         == Columns256(t0 * b0, t0 * b1, t1 * b0, t0 * b2, t1 * b1, t2 * b0, t0 * b3, t1 * b2, t2 * b1, t3 * b0) % W256
  {
    var t := t3 * W192 + t2 * W128 + t1 * W64 + t0;
    MulRow(b0, b1, b2, b3, t, W64, W128, W192);
    MulRow(t0, t1, t2, t3, b0, W64, W128, W192);
    MulRow(t0, t1, t2, t3, b1, W64, W128, W192);
    MulRow(t0, t1, t2, t3, b2, W64, W128, W192);
    MulRow(t0, t1, t2, t3, b3, W64, W128, W192);
    var high := (t1 * b3 + t2 * b2 + t3 * b1) + (t2 * b3 + t3 * b2) * W64 + (t3 * b3) * W128;
    ModDrop(t * (b3 * W192 + b2 * W128 + b1 * W64 + b0),
            Columns256(t0 * b0, t0 * b1, t1 * b0, t0 * b2, t1 * b1, t2 * b0, t0 * b3, t1 * b2, t2 * b1, t3 * b0),
            high, W256);
  }

  /** The exact product of two limbs. */
  ghost function Times(x: int, y: int): int { x * y }

  method Multiply256(a: U256, b: U256) returns (r: U256)
    ensures r.Value() == (a.Value() * b.Value()) % W256
  {
    hide Add256, Columns256;
    var top: seq<U64> := [a.upper.upper, a.upper.lower, a.lower.upper, a.lower.lower];
    var bottom: seq<U64> := [b.upper.upper, b.upper.lower, b.lower.upper, b.lower.lower];
    var products := PartialProducts256(top, bottom);
    r := SumColumns256(products);
    ProductModulo256(bottom[3], bottom[2], bottom[1], bottom[0], top[3], top[2], top[1], top[0]);
    assert a.Value() == top[0] * W192 + top[1] * W128 + top[2] * W64 + top[3];
    assert b.Value() == bottom[0] * W192 + bottom[1] * W128 + bottom[2] * W64 + bottom[3];
    Commute(a.Value(), b.Value());
  }

  /** products[3 - y][x] = top[x] * bottom[y]; a product of two 64-bit limbs is exact in 128 bits. */
  method PartialProducts256(top: seq<U64>, bottom: seq<U64>) returns (products: array2<U128>)
    requires |top| == 4 && |bottom| == 4
    ensures products.Length0 == 4 && products.Length1 == 4
    ensures forall i, j :: 0 <= i < 4 && 0 <= j < 4 ==> products[i, j].Value() == Times(bottom[3 - i], top[j])
  {
    hide U128.Value;
    products := new U128[4, 4]((i, j) => ZERO);
    for y := 4 downto 0
      invariant forall i, j :: 0 <= i < 4 - y && 0 <= j < 4 ==> products[i, j].Value() == Times(bottom[3 - i], top[j])
    {
      for x := 4 downto 0
        invariant forall i, j :: 0 <= i < 3 - y && 0 <= j < 4 ==> products[i, j].Value() == Times(bottom[3 - i], top[j])
        invariant forall j :: x <= j < 4 ==> products[3 - y, j].Value() == Times(bottom[y], top[j])
      {
        products[3 - y, x] := LimbProduct(top[x], bottom[y]);
      }
    }
  }

  method LimbProduct(x: U64, y: U64) returns (p: U128)
    ensures p.Value() == Times(y, x)
  {
    MulBounds(x, y, W64 - 1, W64 - 1);
    ModSmall(x * y, W128);
    p := Multiply(Of(x), Of(y));
  }

  method SumColumns256(products: array2<U128>) returns (r: U256)
    requires products.Length0 == 4 && products.Length1 == 4
    ensures r.Value() == Columns256(products[0, 3].Value(), products[0, 2].Value(), products[1, 3].Value(),
                                    products[0, 1].Value(), products[1, 2].Value(), products[2, 3].Value(),
                                    products[0, 0].Value(), products[1, 1].Value(), products[2, 2].Value(),
                                    products[3, 3].Value()) % W256
  {
    var first, second, third, fourth := AddPartials256(products);
    r := WeighColumns(first, second, third, fourth);
    ghost var over := products[0, 0].upper + products[1, 1].upper + products[2, 2].upper + products[3, 3].upper;
    ghost var c := fourth.Value() + third.Value() * W64 + second.Value() * W128 + first.Value() * W192;
    ModDrop(c + over * W256, c, over, W256);
  }

  lemma {:induction false} ColumnsFit256(a: U64, b: U64, c: U64, d: U64, e: U64, f: U64, g: U64)
    ensures Add(Add(Of(a), Of(b)), Of(c)).Value() == a + b + c
    ensures Add(Add(Add(Of(a), Of(b)), Add(Of(c), Of(d))), Of(e)).Value() == a + b + c + d + e
    ensures Add(Add(Add(Add(Of(a), Of(b)), Add(Of(c), Of(d))), Add(Of(e), Of(f))), Of(g)).Value()
         == a + b + c + d + e + f + g
  {
    hide Add, Of, U128.Value;
    var ab, cd, ef := Add(Of(a), Of(b)), Add(Of(c), Of(d)), Add(Of(e), Of(f));
    SumFits(Of(a), Of(b));
    SumFits(Of(c), Of(d));
    SumFits(Of(e), Of(f));
    SumFits(ab, Of(c));
    SumFits(ab, cd);
    SumFits(Add(ab, cd), Of(e));
    SumFits(Add(ab, cd), ef);
    SumFits(Add(Add(ab, cd), ef), Of(g));
  }

  /** Splitting each partial product into its two limbs moves no value. */
  lemma {:induction false} SplitColumns256(p00: U128, p01: U128, p10: U128, p02: U128, p11: U128, p20: U128,
                        p03: U128, p12: U128, p21: U128, p30: U128)
    ensures Columns256(p00.Value(), p01.Value(), p10.Value(), p02.Value(), p11.Value(), p20.Value(),
                       p03.Value(), p12.Value(), p21.Value(), p30.Value())
         == p00.lower
          + (p01.lower + p00.upper + p10.lower) * W64
          + (p02.lower + p01.upper + p11.lower + p10.upper + p20.lower) * W128
          + (p03.lower + p02.upper + p12.lower + p11.upper + p21.lower + p20.upper + p30.lower) * W192
          + (p03.upper + p12.upper + p21.upper + p30.upper) * W256
  {
  }

  method AddPartials256(products: array2<U128>) returns (first: U128, second: U128, third: U128, fourth: U128)
    requires products.Length0 == 4 && products.Length1 == 4
    ensures first.Value() < 8 * W64 && second.Value() < 8 * W64 && third.Value() < 8 * W64 && fourth.Value() < W64
    ensures Columns256(products[0, 3].Value(), products[0, 2].Value(), products[1, 3].Value(),
                       products[0, 1].Value(), products[1, 2].Value(), products[2, 3].Value(),
                       products[0, 0].Value(), products[1, 1].Value(), products[2, 2].Value(), products[3, 3].Value())
         == fourth.Value() + third.Value() * W64 + second.Value() * W128 + first.Value() * W192
          + (products[0, 0].upper + products[1, 1].upper + products[2, 2].upper + products[3, 3].upper) * W256
  {
    hide Add, Of, Columns256, U128.Value;
    SplitColumns256(products[0, 3], products[0, 2], products[1, 3], products[0, 1], products[1, 2], products[2, 3],
                    products[0, 0], products[1, 1], products[2, 2], products[3, 3]);
    ColumnsFit256(products[0, 2].lower, products[0, 3].upper, products[1, 3].lower, 0, 0, 0, 0);
    ColumnsFit256(products[0, 1].lower, products[0, 2].upper, products[1, 2].lower, products[1, 3].upper,
                  products[2, 3].lower, 0, 0);
    ColumnsFit256(products[0, 0].lower, products[0, 1].upper, products[1, 1].lower, products[1, 2].upper,
                  products[2, 2].lower, products[2, 3].upper, products[3, 3].lower);
    fourth := Of(products[0, 3].lower);
    third := Add(Of(products[0, 2].lower), Of(products[0, 3].upper));
    second := Add(Of(products[0, 1].lower), Of(products[0, 2].upper));
    first := Add(Of(products[0, 0].lower), Of(products[0, 1].upper));
    third := Add(third, Of(products[1, 3].lower));
    second := Add(second, Add(Of(products[1, 2].lower), Of(products[1, 3].upper)));
    first := Add(first, Add(Of(products[1, 1].lower), Of(products[1, 2].upper)));
    second := Add(second, Of(products[2, 3].lower));
    first := Add(first, Add(Of(products[2, 2].lower), Of(products[2, 3].upper)));
    first := Add(first, Of(products[3, 3].lower));
  }

  /** The columns added back at their weights, as four 256-bit numbers. */
  method WeighColumns(first: U128, second: U128, third: U128, fourth: U128) returns (r: U256)
    ensures r.Value() == (fourth.Value() + third.Value() * W64 + second.Value() * W128 + first.Value() * W192) % W256
  {
    hide Shl, Of, U128.Value, U256.Value;
    var s1, s2 := U256(Shl(first, Of(64)), ZERO), U256(Of(third.upper), Shl(third, Of(64)));
    var s3, s4 := U256(second, ZERO), Of256(fourth);
    ColumnWeights(first, second, third, fourth, s1, s2, s3, s4);
    r := AddFour(s1, s2, s3, s4);
    ModDrop(fourth.Value() + third.Value() * W64 + second.Value() * W128 + first.Value() * W192,
            s1.Value() + s2.Value() + s3.Value() + s4.Value(), first.upper, W256);
  }

  method AddFour(s1: U256, s2: U256, s3: U256, s4: U256) returns (r: U256)
    ensures r.Value() == (s1.Value() + s2.Value() + s3.Value() + s4.Value()) % W256
  {
    hide *;
    var x := Add256(s1, s2);
    var y := Add256(x, s3);
    r := Add256(y, s4);
    Add256Value(s1, s2);
    Add256Value(x, s3);
    Add256Value(y, s4);
    FourSums(s1.Value(), s2.Value(), s3.Value(), s4.Value(), x.Value(), y.Value(), r.Value());
  }

  lemma {:induction false} ColumnWeights(
    first: U128, second: U128, third: U128, fourth: U128, s1: U256, s2: U256, s3: U256, s4: U256)
    requires s1 == U256(Shl(first, Of(64)), ZERO) && s2 == U256(Of(third.upper), Shl(third, Of(64)))
    requires s3 == U256(second, ZERO) && s4 == Of256(fourth)
    ensures s1.Value() + first.upper * W256 == first.Value() * W192 && s2.Value() == third.Value() * W64
    ensures s3.Value() == second.Value() * W128 && s4.Value() == fourth.Value()
  {
    ColumnShift(first);
    ColumnShift(third);
    hide Shl;
  }

  lemma {:induction false} ColumnShift(c: U128)
    ensures Shl(c, Of(64)).Value() == c.lower * W64
  {
    ShlWhole(c.upper, c.lower);
    assert Of(64).Value() == 64;
  }

  lemma {:induction false} FourSums(a: nat, b: nat, c: nat, d: nat, x: nat, y: nat, z: nat)
    requires x == (a + b) % W256 && y == (x + c) % W256 && z == (y + d) % W256
    ensures z == (a + b + c + d) % W256
  {
    ModDrop(x + c, a + b + c, -((a + b) / W256), W256);
    ModDrop(y + d, x + c + d, -((x + c) / W256), W256);
    ModDrop(x + c + d, a + b + c + d, -((a + b) / W256), W256);
  }

  // ---------------------------------------------------------------------
  // Division
  // ---------------------------------------------------------------------

  method BitsOfHalf(x: U128) returns (n: nat)
    ensures x.Value() == 0 ==> n == 0
    ensures x.Value() > 0 ==> 1 <= n <= 128 && Pow2(n - 1) <= x.Value() < Pow2(n)
  {
    hide Shr, U128.Value, IsTrue;
    n := 0;
    var up := x;
    while IsTrue(up)
      invariant up.Value() == x.Value() / Pow2(n)
      invariant n > 0 ==> Pow2(n - 1) <= x.Value()
      decreases up.Value()
    {
      DivMod(x.Value(), Pow2(n));
      MulLe(1, up.Value(), Pow2(n));
      DivDouble(x.Value(), Pow2(n));
      HalveHalf(up);
      up := Shr(up, ONE);
      n := n + 1;
    }
    DivMod(x.Value(), Pow2(n));
    if n > 0 {
      Pow2Words();
      if n > 128 {
        Pow2Monotonic(128, n - 1);
      }
    }
  }

  lemma {:induction false} HalveHalf(a: U128)
    ensures Shr(a, ONE).Value() == a.Value() / 2
  {
    hide Shr, U128.Value;
    assert ONE.Value() == 1 by { OneValue(); }
    assert Pow2(1) == 2;
  }

  lemma {:induction false} OneValue()
    ensures ONE.Value() == 1
  {
  }

  method Bits256(a: U256) returns (out: nat)
    ensures a.Value() == 0 ==> out == 0
    ensures a.Value() > 0 ==> 1 <= out <= 256 && Pow2(out - 1) <= a.Value() < Pow2(out)
  {
    hide IsTrue, U128.Value;
    if IsTrue(a.upper) {
      out := BitsOfHalf(a.upper);
      BitsOfUpperHalf(a.upper.Value(), a.lower.Value(), out);
      out := 128 + out;
    } else {
      out := BitsOfHalf(a.lower);
    }
  }

  lemma {:induction false} BitsOfUpperHalf(u: nat, l: nat, n: nat)
    requires 1 <= n <= 128 && Pow2(n - 1) <= u < Pow2(n) && l < W128
    ensures Pow2(128 + n - 1) <= u * W128 + l < Pow2(128 + n)
  {
    hide Pow2;
    Pow2Words();
    Pow2Add(n - 1, 128);
    Pow2Add(n, 128);
    MulLe(Pow2(n - 1), u, W128);
    MulLe(u + 1, Pow2(n), W128);
  }

  lemma {:induction false} Halve256(a: U256)
    ensures Shr256(a, UNIT).Value() == a.Value() / 2
  {
    Shr256Value(a, UNIT);
    hide Shr256;
    assert UNIT.Value() == 1 && Pow2(1) == 2;
  }

  /** Shifting by the difference of the bit counts aligns the top bits and overflows nothing. */
  lemma {:induction false} AlignTopBits(left: nat, right: nat, lb: nat, rb: nat)
    requires 1 <= rb && 1 <= lb <= 256
    requires Pow2(lb - 1) <= left < Pow2(lb) && Pow2(rb - 1) <= right < Pow2(rb) && right <= left
    ensures rb <= lb && right * Pow2(lb - rb) < W256 && Pow2(lb - rb) < W256
    ensures left < right * Pow2(lb - rb + 1)
  {
    hide Pow2;
    if rb > lb {
      Pow2Monotonic(lb, rb - 1);
    }
    AlignedFits(right, lb, rb);
    AlignedCovers(left, right, lb, rb);
  }

  lemma {:induction false} AlignedFits(right: nat, lb: nat, rb: nat)
    requires 1 <= rb <= lb <= 256 && right < Pow2(rb)
    ensures right * Pow2(lb - rb) < W256 && Pow2(lb - rb) < W256
  {
    Pow2Words();
    hide Pow2;
    Pow2Add(lb - rb, rb);
    Pow2Monotonic(lb, 256);
    Pow2Monotonic(lb - rb, 256);
    var p := Pow2(lb - rb);
    MulLe(right + 1, Pow2(rb), p);
    Distribute(right, 1, p);
    Commute(Pow2(rb), p);
  }

  lemma {:induction false} AlignedCovers(left: nat, right: nat, lb: nat, rb: nat)
    requires 1 <= rb <= lb && left < Pow2(lb) && Pow2(rb - 1) <= right
    ensures left < right * Pow2(lb - rb + 1)
  {
    hide Pow2;
    Pow2Add(lb - rb + 1, rb - 1);
    MulLe(Pow2(rb - 1), right, Pow2(lb - rb + 1));
    Commute(Pow2(rb - 1), Pow2(lb - rb + 1));
  }

  lemma {:induction false} ShlExact(a: U256, s: nat)
    requires s < 256 && a.Value() * Pow2(s) < W256
    ensures Shl256(a, Of256(Of(s))).Value() == a.Value() * Pow2(s)
  {
    Shl256Value(a, Of256(Of(s)));
    hide Shl256;
    assert Of256(Of(s)).Value() == s;
    MulLe(0, a.Value(), Pow2(s));
    ModSmall(a.Value() * Pow2(s), W256);
  }

  /** Setting the adder's bit in a quotient whose lower bits are still clear is adding it. */
  lemma {:induction false} SetQuotientBit(q: U256, adder: U256, m: nat, k: nat)
    requires q.Value() == m * Pow2(k + 1) && adder.Value() == Pow2(k)
    ensures Or256(q, adder).Value() == q.Value() + Pow2(k) == (2 * m + 1) * Pow2(k)
  {
    Or256Value(q, adder);
    OrDisjoint(m, Pow2(k), k + 1);
    hide Or256, Or;
    Associate(2, m, Pow2(k));
    Associate(m, 2, Pow2(k));
    Distribute(2 * m, 1, Pow2(k));
  }

  /** The value side of one round: what is taken from the remainder is put into the quotient. */
  lemma {:induction false} RoundKeepsValue(left: nat, q: nat, r: nat, d: nat, copyd: nat, p: nat)
    requires left == q * d + r && copyd == d * p && r >= copyd
    ensures left == (q + p) * d + (r - copyd)
  {
    Distribute(q, p, d);
    Commute(d, p);
  }

  /** copyd = right * 2^k for one k less: half of it. */
  lemma {:induction false} HalfScaled(d: nat, k: nat)
    requires k >= 1
    ensures (d * Pow2(k)) / 2 == d * Pow2(k - 1) && Pow2(k) / 2 == Pow2(k - 1)
    ensures d * Pow2(k) == 2 * (d * Pow2(k - 1))
  {
    Associate(2, Pow2(k - 1), d);
  }

  /**
   Division by shifted subtraction. After the divisor's top bit is aligned with
   the dividend's, each round subtracts right * 2^k if it fits, sets bit k of the
   quotient, and halves both.
   */
  method Divide256(left: U256, right: U256) returns (q: U256, r: U256)
    ensures right.Value() == 0 ==> q == MIN && r == MIN
    ensures right.Value() > 0 ==> left.Value() == q.Value() * right.Value() + r.Value() && r.Value() < right.Value()
  {
    if right == MIN {
      return MIN, MIN;
    } else if right == UNIT {
      return left, MIN;
    } else if left == right {
      return UNIT, MIN;
    } else if left == MIN || Less256(left, right) {
      ValueInjective256(right, MIN);
      return MIN, left;
    }
    ValueInjective256(right, MIN);
    q, r := DivideLoop(left, right);
  }

  /**
   The state between rounds, with bit k the next to decide (k = -1: none is left):
   the quotient so far is a multiple of 2^(k+1), the remainder is below right * 2^(k+1),
   and the registers hold right * 2^k and 2^k.
   */
  ghost predicate BetweenRounds(left: nat, right: nat, q: nat, r: nat, copyd: nat, adder: nat, k: int, m: nat)
  {
    && k >= -1
    && left == q * right + r
    && q == m * Pow2(k + 1)
    && r < right * Pow2(k + 1)
    && (k >= 0 ==> adder == Pow2(k) && copyd == right * Pow2(k))
  }

  method DivideLoop(left: U256, right: U256) returns (q: U256, r: U256)
    requires 0 < right.Value() <= left.Value()
    ensures left.Value() == q.Value() * right.Value() + r.Value() && r.Value() < right.Value()
  {
    hide Greater256, AtLeast256, U256.Value, BetweenRounds;
    var copyd, adder;
    ghost var k, m;
    q, r, copyd, adder, k := Align(left, right);
    m := 0;
    while AtLeast256(r, right)
      invariant k >= -1
      invariant BetweenRounds(left.Value(), right.Value(), q.Value(), r.Value(), copyd.Value(), adder.Value(), k, m)
      decreases k + 1
    {
      LastRound(left.Value(), right.Value(), q.Value(), r.Value(), copyd.Value(), adder.Value(), k, m);
      q, r, copyd, adder, m := DivideRound(left, right, q, r, copyd, adder, k, m);
      k := k - 1;
    }
    LastRound(left.Value(), right.Value(), q.Value(), r.Value(), copyd.Value(), adder.Value(), k, m);
  }

  /** Until the last bit is decided k is not negative; the invariant always holds the division equation. */
  lemma {:induction false} LastRound(left: nat, right: nat, q: nat, r: nat, copyd: nat, adder: nat, k: int, m: nat)
    requires BetweenRounds(left, right, q, r, copyd, adder, k, m)
    ensures left == q * right + r
    ensures k == -1 ==> r < right
  {
    if k == -1 {
      assert Pow2(k + 1) == 1;
    }
  }

  method Align(left: U256, right: U256) returns (q: U256, r: U256, copyd: U256, adder: U256, ghost k: int)
    requires 0 < right.Value() <= left.Value()
    ensures k >= -1
    ensures BetweenRounds(left.Value(), right.Value(), q.Value(), r.Value(), copyd.Value(), adder.Value(), k, 0)
  {
    hide Shl256, Shr256, Greater256, U256.Value, Pow2;
    MinIsZero();
    q, r := MIN, left;
    var lb := Bits256(left);
    var rb := Bits256(right);
    AlignTopBits(left.Value(), right.Value(), lb, rb);
    copyd := Shl256(right, Of256(Of(lb - rb)));
    adder := Shl256(UNIT, Of256(Of(lb - rb)));
    k := lb - rb;
    InitialRegisters(right, k);
    if Greater256(copyd, r) {
      Halve256(copyd);
      Halve256(adder);
      TopRound(right.Value(), k);
      copyd := Shr256(copyd, UNIT);
      adder := Shr256(adder, UNIT);
      k := k - 1;
    }
  }

  method DivideRound(left: U256, right: U256, q: U256, r: U256, copyd: U256, adder: U256, ghost k: nat, ghost m: nat)
    returns (q': U256, r': U256, copyd': U256, adder': U256, ghost m': nat)
    requires BetweenRounds(left.Value(), right.Value(), q.Value(), r.Value(), copyd.Value(), adder.Value(), k, m)
    ensures BetweenRounds(left.Value(), right.Value(), q'.Value(), r'.Value(), copyd'.Value(), adder'.Value(),
        k - 1, m')
  {
    hide Shr256, Sub256, Or256, AtLeast256, U256.Value, Pow2;
    q', r' := q, r;
    HalfScaled(right.Value(), k + 1);
    if AtLeast256(r, copyd) {
      RoundKeepsValue(left.Value(), q.Value(), r.Value(), right.Value(), copyd.Value(), Pow2(k));
      DifferenceFits256(r, copyd);
      SetQuotientBit(q, adder, m, k);
      r' := Sub256(r, copyd);
      q' := Or256(q, adder);
      m' := 2 * m + 1;
    } else {
      ClearQuotientBit(m, k);
      m' := 2 * m;
    }
    Halve256(copyd);
    Halve256(adder);
    if k >= 1 {
      HalfScaled(right.Value(), k);
    }
    copyd' := Shr256(copyd, UNIT);
    adder' := Shr256(adder, UNIT);
  }

  lemma {:induction false} InitialRegisters(right: U256, k: nat)
    requires k < 256 && right.Value() * Pow2(k) < W256 && Pow2(k) < W256
    ensures Shl256(right, Of256(Of(k))).Value() == right.Value() * Pow2(k)
    ensures Shl256(UNIT, Of256(Of(k))).Value() == Pow2(k)
    ensures MIN.Value() == 0
  {
    hide Shl256, Pow2;
    ShlExact(right, k);
    assert UNIT.Value() == 1;
    ShlExact(UNIT, k);
  }

  /** If the aligned divisor is already above the dividend it was shifted at least once. */
  lemma {:induction false} TopRound(d: nat, k: nat)
    ensures k >= 1 ==> (d * Pow2(k)) / 2 == d * Pow2(k - 1) && Pow2(k) / 2 == Pow2(k - 1)
    ensures k == 0 ==> d * Pow2(k) == d
  {
    if k >= 1 {
      HalfScaled(d, k);
    }
  }

  lemma {:induction false} ClearQuotientBit(m: nat, k: nat)
    ensures m * Pow2(k + 1) == (2 * m) * Pow2(k)
  {
    Associate(2, m, Pow2(k));
    Associate(m, 2, Pow2(k));
  }

  method Quotient(left: U256, right: U256) returns (q: U256)
    ensures right.Value() > 0 ==> q.Value() == left.Value() / right.Value()
    ensures right.Value() == 0 ==> q == MIN
  {
    var r;
    q, r := Divide256(left, right);
    if right.Value() > 0 {
      DivModUnique(left.Value(), right.Value(), q.Value(), r.Value());
    }
  }

  /** `operator%` recomputes the remainder from the quotient. */
  method Modulo256(left: U256, right: U256) returns (r: U256)
    ensures right.Value() > 0 ==> r.Value() == left.Value() % right.Value()
    ensures right.Value() == 0 ==> r == left
  {
    hide Sub256, U256.Value;
    var q := Quotient(left, right);
    var p := Multiply256(right, q);
    r := Sub256(left, p);
    if right.Value() > 0 {
      DivMod(left.Value(), right.Value());
      MulLe(0, q.Value(), right.Value());
      ShrBound(left.Value(), right.Value());
      ModSmall(right.Value() * q.Value(), W256);
      DifferenceFits256(left, p);
    } else {
      MinIsZero();
      ModSmall(0, W256);
      DifferenceFits256(left, p);
      ValueInjective256(left, r);
    }
  }

  lemma {:induction false} MinIsZero()
    ensures MIN.Value() == 0
  {
  }
}

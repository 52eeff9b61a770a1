/**
 `decimal`: an arbitrary-precision number as a digit string (least significant
 digit first), a number of fractional digits and a sign. On canonical values the
 operators are exact and give canonical values again, and the comparisons, which
 look at digit counts first, agree with the order of the rationals.
 */
module Decimal {
  import opened Words
  import opened Digits10

  datatype Sign = Plus | Minus | NaN

  datatype Num = Num(source: seq<Digit>, length: nat, sign: Sign)

  const NAN: Num := Num([], 0, NaN)
  const ZERO: Num := Num([0], 0, Plus)

  /** A digit before the point, and no leading zero before another integer digit. */
  ghost predicate Canonical(d: Num)
  {
    && d.sign != NaN
    && |d.source| >= d.length + 1
    && (|d.source| > d.length + 1 ==> d.source[|d.source| - 1] != 0)
  }

  ghost function WithSign(sign: Sign, n: int): int
  {
    if sign == Minus then -n else n
  }

  ghost function Signed(d: Num): int
  {
    WithSign(d.sign, Nat(d.source))
  }

  ghost function Fraction(n: int, length: nat): real
  {
    n as real / Pow10(length) as real
  }

  /** The rational number a decimal stands for. */
  ghost function Value(d: Num): real
  {
    Fraction(Signed(d), d.length)
  }

  // ---------------------------------------------------------------------
  // Fractions over powers of ten
  // ---------------------------------------------------------------------

  lemma {:induction false} FractionScaled(n: int, length: nat, k: nat)
    ensures Fraction(n * Pow10(k), length + k) == Fraction(n, length)
  {
    Pow10Add(length, k);
    hide Pow10;
    CancelReal(n, Pow10(length), Pow10(k));
  }

  lemma {:induction false} CancelReal(n: int, p: int, q: int)
    requires p > 0 && q > 0
    ensures p * q > 0 && (n * q) as real / (p * q) as real == n as real / p as real
  {
    MulLe(1, p, q);
    var x, y, z := n as real, p as real, q as real;
    assert (n * q) as real == x * z && (p * q) as real == y * z;
    CancelFactor(x, y, z);
  }

  lemma {:induction false} CancelFactor(x: real, y: real, z: real)
    requires y > 0.0 && z > 0.0
    ensures y * z > 0.0 && (x * z) / (y * z) == x / y
  {
    var r := x / y;
    assert r * y == x;
    assert (x * z) == r * (y * z);
  }

  lemma {:induction false} FractionSum(m: int, n: int, length: nat)
    ensures Fraction(m, length) + Fraction(n, length) == Fraction(m + n, length)
  {
  }

  lemma {:induction false} FractionProduct(m: int, n: int, a: nat, b: nat)
    ensures Fraction(m, a) * Fraction(n, b) == Fraction(m * n, a + b)
  {
    Pow10Add(a, b);
    hide Pow10;
    MultiplyReal(m, n, Pow10(a), Pow10(b));
  }

  lemma {:induction false} MultiplyReal(m: int, n: int, p: int, q: int)
    requires p > 0 && q > 0
    ensures p * q > 0 && (m as real / p as real) * (n as real / q as real) == (m * n) as real / (p * q) as real
  {
    MulLe(1, p, q);
    var x, y, a, b := m as real, n as real, p as real, q as real;
    assert (m * n) as real == x * y && (p * q) as real == a * b;
    var u, v := x / a, y / b;
    assert u * a == x && v * b == y;
    assert (u * v) * (a * b) == x * y by { MiddleFour(u, v, a, b); }
    assert a * b > 0.0;
    assert (x * y) / (a * b) == u * v;
  }

  lemma {:induction false} MiddleFour(u: real, v: real, a: real, b: real)
    ensures (u * v) * (a * b) == (u * a) * (v * b)
  {
    assert (u * v) * (a * b) == u * (v * (a * b));
    assert v * (a * b) == a * (v * b);
    assert u * (a * (v * b)) == (u * a) * (v * b);
  }

  lemma {:induction false} FractionOrder(m: int, n: int, length: nat)
    ensures Fraction(m, length) < Fraction(n, length) <==> m < n
    ensures Fraction(m, length) == Fraction(n, length) <==> m == n
  {
    var p := Pow10(length) as real;
    assert Fraction(m, length) * p == m as real;
    assert Fraction(n, length) * p == n as real;
  }

  // ---------------------------------------------------------------------
  // Editing in place
  // ---------------------------------------------------------------------

  class Cell {
    var source: seq<Digit>
    var length: nat
    var sign: Sign

    ghost function View(): Num
      reads this
    {
      Num(source, length, sign)
    }

    constructor (d: Num)
      ensures View() == d
    {
      source, length, sign := d.source, d.length, d.sign;
    }

    /** `unlead`: drop leading zeros, but keep one integer digit. */
    method Unlead()
      modifies this`source
      ensures Nat(source) == Nat(old(source)) && source <= old(source)
      ensures |old(source)| >= length + 1 && sign != NaN ==> Canonical(View())
    {
      hide Nat;
      var i := |source| - 1;
      while i > length
        invariant i <= |source| - 1 && (i > length ==> i == |source| - 1)
        invariant |old(source)| >= length + 1 ==> |source| >= length + 1
        invariant |source| > length + 1 ==> i == |source| - 1
        invariant Nat(source) == Nat(old(source)) && source <= old(source)
        decreases i
      {
        if source[i] != 0 {
          break;
        }
        DropTopZero(source);
        source := source[..|source| - 1];
        i := i - 1;
      }
    }

    /** `untrail`: drop trailing fractional zeros. */
    method Untrail()
      modifies this`source, this`length
      ensures sign == NaN ==> View() == old(View())
      ensures sign != NaN && old(length) <= |old(source)| ==> length <= |source| && View() == Untrailed(old(View()))
    {
      if sign == NaN || source == [] {
        return;
      }
      ghost var start := View();
      while |source| > 0 && source[0] == 0 && length > 0
        invariant start.length <= |start.source| ==> length <= |source| && Untrailed(View()) == Untrailed(start)
        decreases length
      {
        source := source[1..];
        length := length - 1;
      }
    }

    /** `truncate`: add or drop fractional digits. */
    method Truncate(precision: nat)
      modifies this`source, this`length
      ensures sign == NaN ==> View() == old(View())
      ensures sign != NaN && old(length) <= |old(source)| ==>
                View() == Truncated(old(View()), precision)
    {
      if sign == NaN {
        return;
      }
      if length < precision {
        var r := Align(Num(source, length, sign), precision);
        source, length := r.source, r.length;
      } else if length > precision {
        DropFractional(precision);
      }
      NoZeros(source);
    }

    method DropFractional(precision: nat)
      requires precision < length
      modifies this`source, this`length
      ensures old(length) <= |old(source)| ==> length == precision && source == old(source)[old(length) - precision..]
    {
      ghost var s0, l0 := source, length;
      while length > precision
        invariant precision <= length <= l0
        invariant l0 <= |s0| ==> source == s0[l0 - length..]
        decreases length
      {
        length := length - 1;
        source := if source == [] then [] else source[1..];
      }
    }
  }

  lemma {:induction false} DropTopZero(s: seq<Digit>)
    requires s != [] && s[|s| - 1] == 0
    ensures Nat(s[..|s| - 1]) == Nat(s)
  {
    var t := s[..|s| - 1];
    assert s == t + [0];
    NatSnoc(t, 0);
  }

  /** What `truncate` leaves: the number with the fractional digits past `precision` dropped, or zeros added. */
  function Truncated(d: Num, precision: nat): Num
    requires d.length <= |d.source|
  {
    if precision >= d.length then Num(Repeat<Digit>(0, precision - d.length) + d.source, precision, d.sign)
    else Num(d.source[d.length - precision..], precision, d.sign)
  }

  function Untrailed(d: Num): Num
    requires d.length <= |d.source|
    decreases d.length
  {
    if d.length > 0 && d.source[0] == 0 then Untrailed(Num(d.source[1..], d.length - 1, d.sign)) else d
  }

  /** The alignment loop of `+` and `-`: fractional zeros up to a common length. */
  method Align(d: Num, length: nat) returns (r: Num)
    ensures length >= d.length ==>
              r.length == length && r.sign == d.sign && r.source == Repeat<Digit>(0, length - d.length) + d.source
    ensures length < d.length ==> r == d
  {
    var source, l := d.source, d.length;
    while l < length
      invariant d.length <= l && (d.length <= length ==> l <= length) && (length < d.length ==> l == d.length)
      invariant source == Repeat<Digit>(0, l - d.length) + d.source
      decreases length - l
    {
      ZerosSnoc(l - d.length);
      l := l + 1;
      source := [0] + source;
    }
    r := Num(source, l, d.sign);
  }

  /** Alignment changes neither the number nor canonical form. */
  lemma {:induction false} AlignedSame(d: Num, r: Num)
    requires r.length >= d.length && r.sign == d.sign && r.source == Repeat<Digit>(0, r.length - d.length) + d.source
    ensures Nat(r.source) == Pow10(r.length - d.length) * Nat(d.source)
    ensures Value(r) == Value(d)
    ensures Canonical(d) ==> Canonical(r)
  {
    var k := r.length - d.length;
    NatShifted(k, d.source);
    FractionScaled(Signed(d), d.length, k);
    hide Pow10, Nat, Fraction;
    SignedShift(Pow10(k), Nat(d.source));
  }

  lemma {:induction false} SignedShift(p: int, n: int)
    ensures p * n == n * p && (-n) * p == -(p * n)
  {
  }

  // ---------------------------------------------------------------------
  // Comparison
  // ---------------------------------------------------------------------

  ghost function Longer(a: Num, b: Num): nat
  {
    if a.length > b.length then a.length else b.length
  }

  /** The digits of d as a whole number of units of 10^-length. */
  ghost function Units(d: Num, length: nat): nat
    requires d.length <= length
  {
    Pow10(length - d.length) * Nat(d.source)
  }

  lemma {:induction false} UnitsValue(d: Num, length: nat)
    requires d.length <= length
    ensures Value(d) == Fraction(WithSign(d.sign, Units(d, length)), length)
  {
    FractionScaled(Signed(d), d.length, length - d.length);
    hide Pow10, Nat, Fraction;
    SignedShift(Pow10(length - d.length), Nat(d.source));
  }

  /** More integer digits on a canonical number means a greater number. */
  lemma {:induction false} MoreDigits(a: Num, b: Num, length: nat)
    requires Canonical(a) && Canonical(b) && a.length <= length && b.length <= length
    requires |a.source| - a.length > |b.source| - b.length
    ensures Units(a, length) > Units(b, length)
  {
    TopDigit(a.source);
    NatBound(b.source);
    var p, q := length - a.length, length - b.length;
    Pow10Add(p, |a.source| - 1);
    Pow10Add(q, |b.source|);
    Pow10Monotonic(q + |b.source|, p + |a.source| - 1);
    hide Pow10, Nat;
    MulLe(Pow10(|a.source| - 1), Nat(a.source), Pow10(p));
    MulLe(Nat(b.source) + 1, Pow10(|b.source|), Pow10(q));
    Distribute(Nat(b.source), 1, Pow10(q));
    Commute(Pow10(p), Nat(a.source));
    Commute(Pow10(q), Nat(b.source));
    Commute(Pow10(p), Pow10(|a.source| - 1));
    Commute(Pow10(q), Pow10(|b.source|));
  }

  /** `compare_num`: 0 equal, 1 greater, 2 less, on magnitudes. */
  method CompareNum(left: Num, right: Num) returns (r: int)
    requires left.length <= |left.source| && right.length <= |right.source|
    ensures Canonical(left) && Canonical(right) ==>
              r == Order(Units(left, Longer(left, right)), Units(right, Longer(left, right)))
  {
    hide Nat, Pow10, Canonical;
    ghost var length := Longer(left, right);
    if |left.source| - left.length > |right.source| - right.length {
      if Canonical(left) && Canonical(right) {
        MoreDigits(left, right, length);
      }
      return 1;
    }
    if |left.source| - left.length < |right.source| - right.length {
      if Canonical(left) && Canonical(right) {
        MoreDigits(right, left, length);
      }
      return 2;
    }
    NatShifted(length - left.length, left.source);
    NatShifted(length - right.length, right.source);
    NoZeros(left.source);
    NoZeros(right.source);
    if left.length > right.length {
      var temp := Align(right, left.length);
      r := CompareDigits(left.source, temp.source);
    } else if left.length < right.length {
      var temp := Align(left, right.length);
      r := CompareDigits(temp.source, right.source);
    } else {
      r := CompareDigits(left.source, right.source);
    }
  }

  lemma {:induction false} NoZeros(s: seq<Digit>)
    ensures Repeat<Digit>(0, 0) + s == s && Pow10(0) == 1
  {
  }

  predicate IsZero(d: Num)
  {
    forall i :: 0 <= i < |d.source| ==> d.source[i] == 0
  }

  lemma {:induction false} ZeroIsZero(s: seq<Digit>)
    ensures Nat(s) == 0 <==> forall i :: 0 <= i < |s| ==> s[i] == 0
    decreases |s|
  {
    if s != [] {
      ZeroIsZero(s[1..]);
      if Nat(s) == 0 {
        forall i | 0 <= i < |s|
          ensures s[i] == 0
        {
          if i > 0 {
            assert s[i] == s[1..][i - 1];
          }
        }
      }
      if forall i :: 0 <= i < |s| ==> s[i] == 0 {
        assert forall i :: 0 <= i < |s[1..]| ==> s[1..][i] == 0;
      }
    }
  }

  /** `operator<`, with signed zeros equal. */
  method Less(left: Num, right: Num) returns (r: bool)
    requires left.length <= |left.source| && right.length <= |right.source|
    ensures left.sign == NaN || right.sign == NaN ==> !r
    ensures Canonical(left) && Canonical(right) ==> (r <==> Value(left) < Value(right))
  {
    hide Nat, Pow10, Fraction;
    if left.sign == NaN || right.sign == NaN {
      return false;
    }
    ghost var length := Longer(left, right);
    UnitsValue(left, length);
    UnitsValue(right, length);
    ghost var u, v := Units(left, length), Units(right, length);
    FractionOrder(WithSign(left.sign, u), WithSign(right.sign, v), length);
    UnitsZero(left, length);
    UnitsZero(right, length);
    if left.sign == Plus && right.sign == Plus {
      var check := CompareNum(left, right);
      return check == 2;
    }
    if left.sign == Minus && right.sign == Minus {
      var check := CompareNum(left, right);
      return check == 1;
    }
    if IsZero(left) && IsZero(right) {
      return false;
    }
    return left.sign == Minus;
  }

  lemma {:induction false} UnitsZero(d: Num, length: nat)
    requires d.length <= length
    ensures Units(d, length) == 0 <==> IsZero(d)
  {
    ZeroIsZero(d.source);
    hide Nat, Pow10;
    if Nat(d.source) >= 1 {
      MulLe(1, Nat(d.source), Pow10(length - d.length));
      Commute(Nat(d.source), Pow10(length - d.length));
    }
  }

  /** `operator>`. */
  method Greater(left: Num, right: Num) returns (r: bool)
    requires left.length <= |left.source| && right.length <= |right.source|
    ensures left.sign == NaN || right.sign == NaN ==> !r
    ensures Canonical(left) && Canonical(right) ==> (r <==> Value(left) > Value(right))
  {
    hide Nat, Pow10, Fraction;
    if left.sign == NaN || right.sign == NaN {
      return false;
    }
    ghost var length := Longer(left, right);
    UnitsValue(left, length);
    UnitsValue(right, length);
    ghost var u, v := Units(left, length), Units(right, length);
    FractionOrder(WithSign(right.sign, v), WithSign(left.sign, u), length);
    UnitsZero(left, length);
    UnitsZero(right, length);
    if left.sign == Plus && right.sign == Plus {
      var check := CompareNum(left, right);
      return check == 1;
    }
    if left.sign == Minus && right.sign == Minus {
      var check := CompareNum(left, right);
      return check == 2;
    }
    if IsZero(left) && IsZero(right) {
      return false;
    }
    return left.sign == Plus;
  }
}

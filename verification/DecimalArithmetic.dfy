/**
 `+`, `-` and `*` of `decimal`: exact on canonical values, and closed on them.
 */
module DecimalArithmetic {
  import opened Words
  import opened Digits10
  import opened Decimal

  /** What the code can work on at all: NaN, or a digit string at least as long as its fractional part. */
  ghost predicate WellFormed(d: Num)
  {
    d.sign == NaN || (d.source != [] && d.length <= |d.source|)
  }

  ghost predicate BothCanonical(a: Num, b: Num)
  {
    Canonical(a) && Canonical(b)
  }

  /** `unlead` on a fresh value. */
  method Unleaded(source: seq<Digit>, length: nat, sign: Sign) returns (r: Num)
    ensures r.length == length && r.sign == sign && Nat(r.source) == Nat(source)
    ensures |source| >= length + 1 && sign != NaN ==> Canonical(r)
  {
    var temp := new Cell(Num(source, length, sign));
    temp.Unlead();
    r := Num(temp.source, temp.length, temp.sign);
  }

  /** Aligned operands of opposite effect: subtract the smaller from the greater magnitude. */
  method Difference(left: Num, right: Num, whenGreater: Sign, whenLess: Sign) returns (r: Num)
    requires left.length == right.length && WellFormed(left) && WellFormed(right)
    requires left.sign != NaN && right.sign != NaN && whenGreater != NaN && whenLess != NaN
    ensures BothCanonical(left, right) ==> Canonical(r)
    ensures BothCanonical(left, right) && Nat(left.source) == Nat(right.source) ==> r == ZERO
    ensures BothCanonical(left, right) && Nat(left.source) > Nat(right.source) ==>
              r.length == left.length && r.sign == whenGreater && Nat(r.source) == Nat(left.source) - Nat(right.source)
    ensures BothCanonical(left, right) && Nat(left.source) < Nat(right.source) ==>
              r.length == left.length && r.sign == whenLess && Nat(r.source) == Nat(right.source) - Nat(left.source)
  {
    hide Nat, Pow10;
    var check := CompareNum(left, right);
    SameUnits(left, right);
    if BothCanonical(left, right) {
      GreaterIsLonger(left, right);
      GreaterIsLonger(right, left);
    }
    if check == 0 {
      return ZERO;
    }
    if check == 1 {
      var s := Subtract(left.source, right.source);
      r := Unleaded(s, left.length, whenGreater);
    } else {
      var s := Subtract(right.source, left.source);
      r := Unleaded(s, left.length, whenLess);
    }
  }

  lemma {:induction false} SameUnits(left: Num, right: Num)
    requires left.length == right.length
    ensures Units(left, Longer(left, right)) == Nat(left.source)
            && Units(right, Longer(left, right)) == Nat(right.source)
  {
  }

  /** Of two aligned canonical numbers the greater is no shorter. */
  lemma {:induction false} GreaterIsLonger(left: Num, right: Num)
    requires BothCanonical(left, right) && left.length == right.length
    ensures Nat(left.source) > Nat(right.source) ==> |right.source| <= |left.source|
  {
    if |right.source| > |left.source| {
      MoreDigits(right, left, left.length);
      SameUnits(left, right);
    }
  }

  /** Aligned operands of the same effect: add the magnitudes. */
  method Total(left: Num, right: Num, sign: Sign) returns (r: Num)
    requires left.length == right.length && WellFormed(left) && WellFormed(right)
    requires left.sign != NaN && right.sign != NaN && sign != NaN
    ensures r.length == left.length && r.sign == sign && Nat(r.source) == Nat(left.source) + Nat(right.source)
    ensures BothCanonical(left, right) ==> Canonical(r)
  {
    hide Nat, Pow10;
    var s := Sum(left.source, right.source);
    r := Num(s, left.length, sign);
    if BothCanonical(left, right) {
      SumCanonical(left, right, r);
    }
  }

  lemma {:induction false} SumCanonical(left: Num, right: Num, r: Num)
    requires BothCanonical(left, right) && left.length == right.length == r.length && r.sign != NaN
    requires Nat(r.source) == Nat(left.source) + Nat(right.source)
    requires var size := if |left.source| > |right.source| then |left.source| else |right.source|;
             |r.source| == size || (|r.source| == size + 1 && r.source[size] == 1)
    ensures Canonical(r)
  {
    TopDigit(left.source);
    TopDigit(right.source);
    TopDigit(r.source);
  }

  method AlignBoth(a: Num, b: Num) returns (left: Num, right: Num)
    requires WellFormed(a) && WellFormed(b) && a.sign != NaN && b.sign != NaN
    ensures left.length == right.length == Longer(a, b) && WellFormed(left) && WellFormed(right)
    ensures left.sign == a.sign && right.sign == b.sign
    ensures Value(left) == Value(a) && Value(right) == Value(b)
    ensures BothCanonical(a, b) ==> BothCanonical(left, right)
  {
    hide Nat, Pow10, Value;
    left, right := a, b;
    if a.length > b.length {
      right := Align(b, a.length);
    } else if a.length < b.length {
      left := Align(a, b.length);
    }
    NoZeros(a.source);
    NoZeros(b.source);
    AlignedSame(a, left);
    AlignedSame(b, right);
  }

  /** `operator+` */
  method Add(a: Num, b: Num) returns (r: Num)
    requires WellFormed(a) && WellFormed(b)
    ensures a.sign == NaN || b.sign == NaN ==> r == NAN
    ensures BothCanonical(a, b) ==> Canonical(r) && Value(r) == Value(a) + Value(b)
    ensures BothCanonical(a, b) && a.sign == b.sign ==> r.sign == a.sign && r.length == Longer(a, b)
    ensures BothCanonical(a, b) && a.sign != b.sign ==> if Value(r) == 0.0 then r == ZERO else r.length == Longer(a, b)
  {
    if a.sign == NaN || b.sign == NaN {
      return NAN;
    }
    hide Nat, Pow10, Fraction;
    var left, right := AlignBoth(a, b);
    FractionSum(Signed(left), Signed(right), left.length);
    if left.sign == Plus && right.sign == Minus {
      r := Difference(left, right, Plus, Minus);
    } else if left.sign == Minus && right.sign == Plus {
      r := Difference(left, right, Minus, Plus);
    } else {
      r := Total(left, right, left.sign);
    }
    ZeroValue(left.length);
    NonzeroValue(r);
  }

  lemma {:induction false} ZeroValue(length: nat)
    ensures Value(ZERO) == 0.0 && Fraction(0, length) == 0.0
  {
    ZeroDigit();
  }

  lemma {:induction false} NonzeroValue(r: Num)
    ensures r.sign != NaN && Nat(r.source) > 0 ==> Value(r) != 0.0
  {
    hide Nat;
    if r.sign != NaN && Nat(r.source) > 0 {
      ZeroValue(r.length);
      FractionOrder(Signed(r), 0, r.length);
    }
  }

  /** `operator-` */
  method SubtractNum(a: Num, b: Num) returns (r: Num)
    requires WellFormed(a) && WellFormed(b)
    ensures a.sign == NaN || b.sign == NaN ==> r == NAN
    ensures BothCanonical(a, b) ==> Canonical(r) && Value(r) == Value(a) - Value(b)
    ensures BothCanonical(a, b) && a.sign != b.sign ==> r.sign == a.sign && r.length == Longer(a, b)
    ensures BothCanonical(a, b) && a.sign == b.sign ==> if Value(r) == 0.0 then r == ZERO else r.length == Longer(a, b)
  {
    if a.sign == NaN || b.sign == NaN {
      return NAN;
    }
    hide Nat, Pow10, Fraction;
    var left, right := AlignBoth(a, b);
    FractionSum(Signed(left) - Signed(right), Signed(right), left.length);
    if left.sign != right.sign {
      r := Total(left, right, left.sign);
    } else if left.sign == Plus {
      r := Difference(left, right, Plus, Minus);
    } else {
      r := Difference(left, right, Minus, Plus);
    }
    ZeroValue(left.length);
    NonzeroValue(r);
  }

  /** `operator*` */
  method Times(a: Num, b: Num) returns (r: Num)
    requires WellFormed(a) && WellFormed(b)
    ensures a.sign == NaN || b.sign == NaN ==> r == NAN
    ensures BothCanonical(a, b) ==> Canonical(r) && Value(r) == Value(a) * Value(b)
    ensures BothCanonical(a, b) ==> r.length == a.length + b.length && (r.sign == Plus <==> a.sign == b.sign)
  {
    if a.sign == NaN || b.sign == NaN {
      return NAN;
    }
    hide Nat, Pow10, Value;
    var s := Multiply(a.source, b.source);
    var sign := if a.sign == b.sign then Plus else Minus;
    r := Unleaded(s, a.length + b.length, sign);
    ProductValue(a, b, r);
  }

  lemma {:induction false} ProductValue(a: Num, b: Num, r: Num)
    requires a.sign != NaN && b.sign != NaN && r.length == a.length + b.length
    requires r.sign == (if a.sign == b.sign then Plus else Minus) && Nat(r.source) == Nat(a.source) * Nat(b.source)
    ensures Value(r) == Value(a) * Value(b)
  {
    hide Nat, Pow10, Fraction;
    FractionProduct(Signed(a), Signed(b), a.length, b.length);
    SignedProduct(Nat(a.source), Nat(b.source));
  }

  lemma {:induction false} SignedProduct(m: int, n: int)
    ensures (-m) * n == -(m * n) == m * (-n) && (-m) * (-n) == m * n
  {
  }
}

/**
 Decimal digit strings, least significant digit first, and the digit loops of
 `decimal`: sum, subtract, multiply and compare.
 */
module Digits10 {
  import opened Words

  type Digit = x: int | 0 <= x < 10

  function Pow10(n: nat): (p: nat)
    ensures p >= 1
  {
    if n == 0 then 1 else 10 * Pow10(n - 1)
  }

  lemma {:induction false} Pow10Add(a: nat, b: nat)
    ensures Pow10(a + b) == Pow10(a) * Pow10(b)
  {
    if a > 0 {
      Pow10Add(a - 1, b);
      Associate(10, Pow10(a - 1), Pow10(b));
    }
  }

  lemma {:induction false} Pow10Monotonic(a: nat, b: nat)
    requires a <= b
    ensures Pow10(a) <= Pow10(b)
    decreases b
  {
    if a < b {
      Pow10Monotonic(a, b - 1);
    }
  }

  /** The number a digit string stands for. */
  function Nat(s: seq<Digit>): (n: nat)
  {
    if s == [] then 0 else s[0] + 10 * Nat(s[1..])
  }

  lemma {:induction false} NatSnoc(s: seq<Digit>, d: Digit)
    ensures Nat(s + [d]) == Nat(s) + d * Pow10(|s|)
    decreases |s|
  {
    if s == [] {
      assert s + [d] == [d];
      assert Nat([d]) == d + 10 * Nat([]);
    } else {
      NatSnoc(s[1..], d);
      assert (s + [d])[1..] == s[1..] + [d];
      NatFront(s);
      NatFront(s + [d]);
      Pow10Step(|s| - 1);
      hide Nat, Pow10;
      var p := Pow10(|s| - 1);
      Associate(d, 10, p);
      Associate(10, d, p);
    }
  }

  lemma {:induction false} NatFront(s: seq<Digit>)
    requires s != []
    ensures Nat(s) == s[0] + 10 * Nat(s[1..])
  {
  }

  lemma {:induction false} NatBound(s: seq<Digit>)
    ensures Nat(s) < Pow10(|s|)
    decreases |s|
  {
    if s != [] {
      NatBound(s[1..]);
    }
  }

  /** A nonzero top digit shows in the size of the number, and only then. */
  lemma {:induction false} TopDigit(s: seq<Digit>)
    requires s != []
    ensures s[|s| - 1] != 0 <==> Nat(s) >= Pow10(|s| - 1)
  {
    var t, d := s[..|s| - 1], s[|s| - 1];
    assert s == t + [d];
    NatSnoc(t, d);
    NatBound(t);
    if d >= 1 {
      MulLe(1, d, Pow10(|t|));
    }
  }

  lemma {:induction false} NatShifted(k: nat, s: seq<Digit>)
    ensures Nat(Repeat<Digit>(0, k) + s) == Pow10(k) * Nat(s)
  {
    if k == 0 {
      assert Repeat<Digit>(0, 0) + s == s;
    } else {
      NatShifted(k - 1, s);
      assert (Repeat<Digit>(0, k) + s)[1..] == Repeat<Digit>(0, k - 1) + s;
      assert (Repeat<Digit>(0, k) + s)[0] == 0;
      Associate(10, Pow10(k - 1), Nat(s));
    }
  }

  lemma {:induction false} ZerosSnoc(k: nat)
    ensures [0] + Repeat<Digit>(0, k) == Repeat<Digit>(0, k + 1)
  {
  }

  /** The number of the first i digits, all of them once i is past the end. */
  function Prefix(s: seq<Digit>, i: nat): (n: nat)
  {
    Nat(if i < |s| then s[..i] else s)
  }

  function DigitAt(s: seq<Digit>, i: nat): Digit
  {
    if i < |s| then s[i] else 0
  }

  lemma {:induction false} PrefixStep(s: seq<Digit>, i: nat)
    ensures Prefix(s, i + 1) == Prefix(s, i) + DigitAt(s, i) * Pow10(i)
  {
    if i < |s| {
      NatSnoc(s[..i], s[i]);
      assert s[..i] + [s[i]] == s[..i + 1];
      assert i + 1 == |s| ==> s[..i + 1] == s;
    }
  }

  lemma {:induction false} PrefixAll(s: seq<Digit>, i: nat)
    requires i >= |s|
    ensures Prefix(s, i) == Nat(s) && Prefix(s, 0) == 0
  {
    assert |s| > 0 ==> s[..0] == [];
  }

  // ---------------------------------------------------------------------
  // The loops
  // ---------------------------------------------------------------------

  lemma {:induction false} SumStep(n: int, carry: int, a: int, b: int, p: int, d: int, carry': int, n': int)
    requires n' == n + d * p && d + 10 * carry' == a + b + carry
    ensures n' + carry' * (10 * p) == (n + carry * p) + a * p + b * p
  {
    Distribute(a, b, p);
    Distribute(a + b, carry, p);
    Distribute(d, 10 * carry', p);
    Associate(10, carry', p);
    Associate(carry', 10, p);
  }

  method Sum(left: seq<Digit>, right: seq<Digit>) returns (s: seq<Digit>)
    requires left != [] && right != []
    ensures Nat(s) == Nat(left) + Nat(right)
    ensures var size := if |left| > |right| then |left| else |right|;
            |s| == size || (|s| == size + 1 && s[size] == 1)
  {
    hide Nat, Pow10, Prefix, DigitAt;
    var size := if |left| > |right| then |left| else |right|;
    var carry := 0;
    s := [];
    PrefixAll(left, size);
    PrefixAll(right, size);
    NatEmpty();
    for i := 0 to size
      invariant |s| == i && 0 <= carry <= 1
      invariant Nat(s) + carry * Pow10(i) == Prefix(left, i) + Prefix(right, i)
    {
      var val1, val2 := DigitAt(left, i), DigitAt(right, i);
      var aus := val1 + val2 + carry;
      ghost var before := carry;
      carry := 0;
      if aus > 9 {
        carry := 1;
        aus := aus - 10;
      }
      PrefixStep(left, i);
      PrefixStep(right, i);
      NatSnoc(s, aus);
      Pow10Step(i);
      SumStep(Nat(s), before, val1, val2, Pow10(i), aus, carry, Nat(s + [aus]));
      s := s + [aus];
    }
    if carry != 0 {
      NatSnoc(s, carry);
      s := s + [carry];
    }
  }

  lemma {:induction false} NatEmpty()
    ensures Nat([]) == 0
  {
  }

  lemma {:induction false} Pow10Step(i: nat)
    ensures Pow10(i + 1) == 10 * Pow10(i)
  {
  }

  method Subtract(left: seq<Digit>, right: seq<Digit>) returns (s: seq<Digit>)
    requires right != []
    ensures |s| == |left|
    ensures |right| <= |left| && Nat(right) <= Nat(left) ==> Nat(s) == Nat(left) - Nat(right)
  {
    hide Nat, Pow10, Prefix, DigitAt;
    var carry := 0;
    s := [];
    PrefixAll(left, |left|);
    PrefixAll(right, |right|);
    NatEmpty();
    for i := 0 to |left|
      invariant |s| == i && 0 <= carry <= 1
      invariant Nat(s) - carry * Pow10(i) == Prefix(left, i) - Prefix(right, i)
    {
      ghost var before := carry;
      AtIndex(left, i);
      var val1: int, val2: int := left[i], DigitAt(right, i);
      val1 := val1 - carry;
      var aus;
      if val1 < val2 {
        aus := 10 + val1 - val2;
        carry := 1;
      } else {
        aus := val1 - val2;
        carry := 0;
      }
      PrefixStep(left, i);
      PrefixStep(right, i);
      NatSnoc(s, aus);
      Pow10Step(i);
      SumStep(Nat(s), -before, left[i], -val2, Pow10(i), aus, -carry, Nat(s + [aus]));
      s := s + [aus];
    }
    if |right| <= |left| {
      PrefixAll(right, |left|);
    }
    NatBound(s);
  }

  lemma {:induction false} AtIndex(s: seq<Digit>, i: nat)
    requires i < |s|
    ensures DigitAt(s, i) == s[i]
  {
  }

  /** `while (aus > 9) { carry++; aus -= 10; }` */
  method SplitTens(x: nat) returns (carry: nat, d: Digit)
    ensures x == 10 * carry + d
  {
    carry := 0;
    var aus := x;
    while aus > 9
      invariant aus >= 0 && x == 10 * carry + aus
    {
      carry := carry + 1;
      aus := aus - 10;
    }
    d := aus;
  }

  /** One row of the product: `shift` zeros, then left times a digit. */
  method Row(left: seq<Digit>, digit: Digit, shift: nat) returns (row: seq<Digit>)
    ensures Nat(row) == (digit * Nat(left)) * Pow10(shift)
    ensures |row| >= shift + |left|
  {
    hide Nat, Pow10, Prefix, DigitAt;
    row := [];
    for k := 0 to shift
      invariant row == Repeat<Digit>(0, k)
    {
      ZerosSnoc(k);
      row := [0] + row;
    }
    var carry := 0;
    ghost var tail: seq<Digit> := [];
    NatEmpty();
    PrefixAll(left, |left|);
    for j := 0 to |left|
      invariant |tail| == j && 0 <= carry <= 8 && row == Repeat<Digit>(0, shift) + tail
      invariant Nat(tail) + carry * Pow10(j) == digit * Prefix(left, j)
    {
      ghost var before := carry;
      var product := digit * left[j];
      MulBounds(digit, left[j], 9, 9);
      var aus;
      carry, aus := SplitTens(product + carry);
      AtIndex(left, j);
      PrefixStep(left, j);
      NatSnoc(tail, aus);
      Pow10Step(j);
      SumStep(Nat(tail), before, digit * left[j], 0, Pow10(j), aus, carry, Nat(tail + [aus]));
      RowStep(digit, Prefix(left, j), left[j], Pow10(j));
      row := row + [aus];
      tail := tail + [aus];
    }
    if carry != 0 {
      NatSnoc(tail, carry);
      row := row + [carry];
      tail := tail + [carry];
    }
    assert row == Repeat<Digit>(0, shift) + tail;
    NatShifted(shift, tail);
    Commute(Pow10(shift), Nat(tail));
  }

  lemma {:induction false} RowStep(digit: int, x: int, d: int, p: int)
    ensures digit * (x + d * p) == digit * x + (digit * d) * p
  {
    Distribute(x, d * p, digit);
    Associate(digit, d, p);
    Commute(digit, x + d * p);
  }

  method Multiply(left: seq<Digit>, right: seq<Digit>) returns (result: seq<Digit>)
    requires left != [] && right != []
    ensures Nat(result) == Nat(left) * Nat(right)
    ensures |result| >= |left| + |right| - 1
  {
    hide Nat, Pow10, Prefix, DigitAt;
    result := [0];
    ZeroDigit();
    PrefixAll(right, |right|);
    for i := 0 to |right|
      invariant |result| >= 1 && (i > 0 ==> |result| >= |left| + i - 1)
      invariant Nat(result) == Nat(left) * Prefix(right, i)
    {
      var temp := Row(left, right[i], i);
      AtIndex(right, i);
      PrefixStep(right, i);
      ProductStep(Nat(left), Prefix(right, i), right[i], Pow10(i));
      result := Sum(result, temp);
    }
  }

  lemma {:induction false} ProductStep(n: int, x: int, d: int, p: int)
    ensures n * (x + d * p) == n * x + (d * n) * p
  {
    Commute(n, d);
    RowStep(n, x, d, p);
  }

  lemma {:induction false} ZeroDigit()
    ensures Nat([0]) == 0
  {
    assert Nat([0]) == 0 + 10 * Nat([]);
  }

  /** The comparison loop on strings of one length, from the top digit down: 0 equal, 1 greater, 2 less. */
  method CompareDigits(left: seq<Digit>, right: seq<Digit>) returns (r: int)
    requires |left| == |right|
    ensures r == Order(Nat(left), Nat(right))
  {
    hide Nat;
    var i := |left| - 1;
    while i >= 0
      invariant -1 <= i < |left|
      invariant forall j :: i < j < |left| ==> left[j] == right[j]
    {
      if left[i] > right[i] {
        DecidedAt(left, right, i);
        return 1;
      }
      if left[i] < right[i] {
        DecidedAt(right, left, i);
        return 2;
      }
      i := i - 1;
    }
    assert left == right;
    return 0;
  }

  function Order(x: int, y: int): int
  {
    if x == y then 0 else if x > y then 1 else 2
  }

  lemma {:induction false} DecidedAt(a: seq<Digit>, b: seq<Digit>, i: nat)
    requires |a| == |b| && i < |a| && a[i] > b[i] && forall j :: i < j < |a| ==> a[j] == b[j]
    ensures Nat(a) > Nat(b)
    decreases i
  {
    if i == 0 {
      assert a[1..] == b[1..];
    } else {
      DecidedAt(a[1..], b[1..], i - 1);
    }
  }
}

/**
 Numerals: text in a base from 2 to 36 with the digits 0-9 and a-z, the number
 such a text stands for, and the one numeral without leading zeros of a number.
 */
module Radix {
  import opened Words

  const ALPHABET: string := "0123456789abcdefghijklmnopqrstuvwxyz"

  /** What the parser reads at one character; anything that is no digit counts as zero. */
  function DigitValue(c: char): (d: nat)
    ensures d < 36
  {
    if '0' <= c <= '9' then c as int - '0' as int
    else if 'a' <= c <= 'z' then c as int - 'a' as int + 10
    else 0
  }

  function DigitChar(d: nat): char
    requires d < 36
  {
    ALPHABET[d]
  }

  lemma {:induction false} AlphabetValue(d: nat)
    requires d < 36
    ensures DigitValue(DigitChar(d)) == d
    ensures DigitChar(d) == '0' <==> d == 0
  {
  }

  /** The alphabet in full. */
  lemma {:induction false} AlphabetIs()
    ensures |ALPHABET| == 36 && ALPHABET[..10] == "0123456789" && ALPHABET[10..] == "abcdefghijklmnopqrstuvwxyz"
  {
  }

  lemma {:induction false} LetterIs(v: nat)
    requires 10 <= v < 36
    ensures |ALPHABET| == 36 && ALPHABET[v] == ('a' as int + (v - 10)) as char
  {
    hide ALPHABET;
    AlphabetIs();
    assert ALPHABET[v] == ALPHABET[10..][v - 10];
    LettersInOrder(v - 10);
  }

  lemma {:induction false} LettersInOrder(k: nat)
    requires k < 26
    ensures "abcdefghijklmnopqrstuvwxyz"[k] == ('a' as int + k) as char
  {
  }

  lemma {:induction false} AlphabetLower(c: char)
    ensures |ALPHABET| == 36 && ('A' <= c <= 'Z' ==> forall v :: 0 <= v < 36 ==> ALPHABET[v] != c)
  {
    if v :| 0 <= v < 36 && ALPHABET[v] == c {
      AlphabetValue(v);
    }
  }

  /** A character of the alphabet stands for its place, any other for zero. */
  lemma {:induction false} DigitValueIs(c: char)
    ensures |ALPHABET| == 36 && forall v :: 0 <= v < 36 && ALPHABET[v] == c ==> DigitValue(c) == v
    ensures c !in ALPHABET ==> DigitValue(c) == 0
  {
    forall v | 0 <= v < 36
      ensures ALPHABET[v] == c ==> DigitValue(c) == v
    {
      AlphabetValue(v);
    }
    if DigitValue(c) != 0 {
      DigitFound(c);
      assert ALPHABET[DigitValue(c)] == c;
    }
  }

  lemma {:induction false} DigitFound(c: char)
    requires DigitValue(c) != 0
    ensures DigitChar(DigitValue(c)) == c
  {
    var d := DigitValue(c);
    if d >= 10 {
      LetterIs(d);
    } else {
      AlphabetIs();
      assert ALPHABET[d] == ALPHABET[..10][d];
      hide ALPHABET;
      assert "0123456789"[d] == ('0' as int + d) as char;
    }
  }

  function Pow(base: nat, n: nat): (p: nat)
  {
    if n == 0 then 1 else base * Pow(base, n - 1)
  }

  lemma {:induction false} PowPositive(base: nat, n: nat)
    requires base > 0
    ensures Pow(base, n) > 0
  {
    if n > 0 {
      PowPositive(base, n - 1);
      MulLe(1, Pow(base, n - 1), base);
      Commute(base, Pow(base, n - 1));
    }
  }

  /** The number a text stands for, most significant digit first (Horner's rule). */
  function TextValue(s: string, base: nat): (v: nat)
  {
    if s == [] then 0 else TextValue(s[..|s| - 1], base) * base + DigitValue(s[|s| - 1])
  }

  /** The numeral of n without leading zeros. */
  function Digits(n: nat, base: nat): (s: string)
    requires 2 <= base <= 36
    ensures |s| >= 1
  {
    if n < base then [DigitChar(n)]
    else
      ShrinkByDivision(n, base);
      Digits(n / base, base) + [DigitChar(n % base)]
  }

  lemma {:induction false} ShrinkByDivision(n: nat, base: nat)
    requires 2 <= base <= n
    ensures 0 < n / base < n
  {
    DivMod(n, base);
    if n / base <= 0 {
      MulLe(n / base, 0, base);
    }
    if n / base >= n {
      MulLe(n, n / base, base);
      MulLe(2, base, n);
    }
  }

  lemma {:induction false} DigitsSmall(d: nat, base: nat)
    requires 2 <= base <= 36 && d < base
    ensures Digits(d, base) == [DigitChar(d)]
  {
    hide DigitChar;
  }

  lemma {:induction false} DigitsStep(m: nat, d: nat, base: nat)
    requires 2 <= base <= 36 && m >= 1 && d < base
    ensures Digits(m * base + d, base) == Digits(m, base) + [DigitChar(d)]
  {
    hide DigitChar;
    MulLe(1, m, base);
    DivModUnique(m * base + d, base, m, d);
  }

  /** The numeral of a number stands for that number. */
  lemma {:induction false} DigitsValue(n: nat, base: nat)
    requires 2 <= base <= 36
    ensures TextValue(Digits(n, base), base) == n
    decreases n
  {
    hide DigitChar, DigitValue;
    if n < base {
      AlphabetValue(n);
      assert Digits(n, base)[..0] == [];
    } else {
      ShrinkByDivision(n, base);
      DigitsValue(n / base, base);
      AlphabetValue(n % base);
      DivMod(n, base);
      TextValueSnoc(Digits(n / base, base), DigitChar(n % base), base);
    }
  }

  predicate IsDigitOf(c: char, base: nat)
    requires 2 <= base <= 36
  {
    DigitValue(c) < base && c == DigitChar(DigitValue(c))
  }

  /** Digits of the base, and no leading zero except in "0" itself. */
  ghost predicate IsNumeral(s: string, base: nat)
    requires 2 <= base <= 36
  {
    && |s| >= 1
    && (forall i :: 0 <= i < |s| ==> IsDigitOf(s[i], base))
    && (|s| > 1 ==> s[0] != '0')
  }

  lemma {:induction false} NumeralPositive(s: string, base: nat)
    requires 2 <= base <= 36 && IsNumeral(s, base) && s[0] != '0'
    ensures TextValue(s, base) >= 1
    decreases |s|
  {
    hide DigitChar, DigitValue;
    var t := s[..|s| - 1];
    var d := DigitValue(s[|s| - 1]);
    if |s| > 1 {
      NumeralPositive(t, base);
      MulLe(1, TextValue(t, base), base);
    } else {
      assert t == [];
      assert s[0] == DigitChar(DigitValue(s[0]));
      AlphabetValue(d);
    }
  }

  /** A numeral is determined by its number. */
  lemma {:induction false} NumeralUnique(s: string, base: nat)
    requires 2 <= base <= 36 && IsNumeral(s, base)
    ensures s == Digits(TextValue(s, base), base)
    decreases |s|
  {
    hide TextValue, DigitValue, DigitChar, Digits;
    var t, c := s[..|s| - 1], s[|s| - 1];
    var d := DigitValue(c);
    assert IsDigitOf(s[|s| - 1], base);
    assert s == t + [c];
    TextValueSnoc(t, c, base);
    if |s| == 1 {
      TextValueEmpty(base);
      assert t == [];
      assert TextValue(s, base) == d;
      DigitsSmall(d, base);
    } else {
      NumeralUnique(t, base);
      NumeralPositive(t, base);
      DigitsStep(TextValue(t, base), d, base);
    }
  }

  lemma {:induction false} TextValueEmpty(base: nat)
    ensures TextValue([], base) == 0
  {
  }

  /** Reading from the right: a leading digit adds its weight. */
  lemma {:induction false} TextValueFront(s: string, base: nat)
    requires |s| >= 1
    ensures TextValue(s, base) == DigitValue(s[0]) * Pow(base, |s| - 1) + TextValue(s[1..], base)
    decreases |s|
  {
    var t, d := s[..|s| - 1], DigitValue(s[|s| - 1]);
    if |s| == 1 {
      assert t == [] && s[1..] == [];
    } else {
      TextValueFront(t, base);
      assert t[1..] == s[1..][..|s| - 2];
      var w, v := DigitValue(s[0]) * Pow(base, |s| - 2), TextValue(t[1..], base);
      Distribute(w, v, base);
      Associate(DigitValue(s[0]), Pow(base, |s| - 2), base);
    }
  }

  lemma {:induction false} TextValueSnoc(s: string, c: char, base: nat)
    ensures TextValue(s + [c], base) == TextValue(s, base) * base + DigitValue(c)
  {
    assert (s + [c])[..|s + [c]| - 1] == s;
  }

  lemma {:induction false} TextValueConcat(s: string, t: string, base: nat)
    ensures TextValue(s + t, base) == TextValue(s, base) * Pow(base, |t|) + TextValue(t, base)
    decreases |t|
  {
    if t == [] {
      assert s + t == s;
    } else {
      var u, c := t[..|t| - 1], t[|t| - 1];
      assert t == u + [c] && s + t == (s + u) + [c];
      TextValueConcat(s, u, base);
      TextValueSnoc(u, c, base);
      TextValueSnoc(s + u, c, base);
      ConcatStep(TextValue(s, base), Pow(base, |u|), TextValue(u, base), base, DigitValue(c));
    }
  }

  lemma {:induction false} ConcatStep(x: nat, p: nat, y: nat, base: nat, d: nat)
    ensures (x * p + y) * base + d == x * (base * p) + (y * base + d)
  {
    Distribute(x * p, y, base);
    Associate(x, p, base);
  }

  /** A leading zero changes nothing. */
  lemma {:induction false} DropLeadingZero(s: string, base: nat)
    requires |s| >= 1 && s[0] == '0'
    ensures TextValue(s[1..], base) == TextValue(s, base)
  {
    TextValueFront(s, base);
  }
}

/**
 `decimal` as text: printing, the base-10 parser, truncation, and `from`, which
 reads a numeral of any base by Horner's rule in decimal arithmetic.
 */
module DecimalText {
  import opened Words
  import opened Digits10
  import opened Decimal
  import opened DecimalArithmetic
  import opened Radix

  function Symbol(d: Digit): char
  {
    ('0' as int + d) as char
  }

  predicate IsDigit(c: char)
  {
    '0' <= c <= '9'
  }

  function Numeric(c: char): Digit
    requires IsDigit(c)
  {
    c as int - '0' as int
  }

  /** Digits as text, most significant first. */
  function Shown(s: seq<Digit>): (t: string)
    ensures |t| == |s|
  {
    if s == [] then "" else Shown(s[1..]) + [Symbol(s[0])]
  }

  predicate AllDigits(t: string)
  {
    forall i :: 0 <= i < |t| ==> IsDigit(t[i])
  }

  /** A digit text as digits, least significant first. */
  function Read(t: string): (s: seq<Digit>)
    requires AllDigits(t)
    ensures |s| == |t|
  {
    if t == "" then [] else [Numeric(t[|t| - 1])] + Read(t[..|t| - 1])
  }

  lemma {:induction false} ShownDigits(s: seq<Digit>)
    ensures AllDigits(Shown(s)) && Read(Shown(s)) == s
    decreases |s|
  {
    hide Symbol, Numeric, IsDigit;
    if s != [] {
      ShownDigits(s[1..]);
      SymbolIsDigit(s[0]);
      ReadSnoc(Shown(s[1..]), Symbol(s[0]));
    }
  }

  lemma {:induction false} SymbolIsDigit(d: Digit)
    ensures IsDigit(Symbol(d)) && Numeric(Symbol(d)) == d
  {
  }

  lemma {:induction false} ReadSnoc(t: string, c: char)
    requires AllDigits(t) && IsDigit(c)
    ensures AllDigits(t + [c]) && Read(t + [c]) == [Numeric(c)] + Read(t)
  {
    hide Numeric, IsDigit;
    assert (t + [c])[..|t|] == t;
  }

  lemma {:induction false} ShownConcat(s: seq<Digit>, t: seq<Digit>)
    ensures Shown(s + t) == Shown(t) + Shown(s)
    decreases |s|
  {
    if s == [] {
      assert s + t == t;
    } else {
      ShownConcat(s[1..], t);
      assert (s + t)[1..] == s[1..] + t;
    }
  }

  // ---------------------------------------------------------------------
  // Parsing
  // ---------------------------------------------------------------------

  /** The first position of a point at or after index; the length of the text if there is none. */
  function FindPoint(t: string, index: nat): (p: nat)
    requires index <= |t|
    ensures index <= p <= |t|
    ensures p < |t| ==> t[p] == '.'
    ensures forall i :: index <= i < p ==> t[i] != '.'
    decreases |t| - index
  {
    if index == |t| || t[index] == '.' then index else FindPoint(t, index + 1)
  }

  /** What `apply_base10` accepts: an optional sign, digits, and after a point more digits. Anything else is NaN. */
  function Parsed(text: string): Num
  {
    if text == "" then NAN
    else if |text| == 1 then (if IsDigit(text[0]) then Num([Numeric(text[0])], 0, Plus) else NAN)
    else
      var signed := text[0] == '+' || text[0] == '-';
      if !signed && !IsDigit(text[0]) then NAN
      else
        var index := if signed then 1 else 0;
        var sign := if text[0] == '-' then Minus else Plus;
        var point := FindPoint(text, index);
        var whole := text[index..point];
        var part := if point < |text| then text[point + 1..] else "";
        if AllDigits(whole) && AllDigits(part) then Num(Read(part) + Read(whole), |part|, sign) else NAN
  }

  /** The two reading loops: push characters, give up at the first that is no digit, reverse at the end. */
  method ReadDigits(t: string) returns (ok: bool, s: seq<Digit>)
    ensures ok <==> AllDigits(t)
    ensures ok ==> s == Read(t)
  {
    s := [];
    for i := 0 to |t|
      invariant AllDigits(t[..i])
      invariant s == Read(t[..i])
    {
      if !IsDigit(t[i]) {
        return false, [];
      }
      assert t[..i + 1][..i] == t[..i];
      assert AllDigits(t[..i + 1]);
      s := [Numeric(t[i])] + s;
    }
    assert t[..|t|] == t;
    ok := true;
  }

  /** `apply_base10` */
  method Parse(text: string) returns (r: Num)
    ensures r == Parsed(text)
  {
    if text == "" {
      return NAN;
    } else if |text| == 1 {
      if !IsDigit(text[0]) {
        return NAN;
      }
      return Num([Numeric(text[0])], 0, Plus);
    }
    var index, sign := 0, Plus;
    if text[0] != '+' && text[0] != '-' {
      if !IsDigit(text[0]) {
        return NAN;
      }
    } else {
      index := 1;
      sign := if text[0] == '-' then Minus else Plus;
    }
    var point := FindPoint(text, index);
    var okWhole, whole := ReadDigits(text[index..point]);
    if !okWhole {
      return NAN;
    }
    if point == |text| {
      return Num(whole, 0, sign);
    }
    var okPart, part := ReadDigits(text[point + 1..]);
    if !okPart {
      return NAN;
    }
    return Num(part + whole, |part|, sign);
  }

  // ---------------------------------------------------------------------
  // Printing
  // ---------------------------------------------------------------------

  /** Integer digits, and after a point the fractional digits if there are any; no point without an integer digit. */
  function Layout(source: seq<Digit>, length: nat): string
    requires length <= |source|
  {
    if 0 < length < |source| then Shown(source[length..]) + "." + Shown(source[..length]) else Shown(source)
  }

  function Prefixed(sign: Sign, body: string): string
  {
    if sign == Minus then "-" + body else body
  }

  /** Text of the untrailed number. */
  function Printed(d: Num): string
    requires d.length <= |d.source|
  {
    if d.sign == NaN || d.source == [] then "NaN"
    else var u := Untrailed(d); UntrailedBounds(d); Prefixed(d.sign, Layout(u.source, u.length))
  }

  lemma {:induction false} UntrailedBounds(d: Num)
    requires d.length <= |d.source|
    ensures var u := Untrailed(d);
            && u.length <= d.length && u.sign == d.sign && |u.source| - u.length == |d.source| - d.length
            && u.source == d.source[d.length - u.length..]
            && (u.length > 0 ==> u.source[0] != 0)
    decreases d.length
  {
    if d.length > 0 && d.source[0] == 0 {
      UntrailedBounds(Num(d.source[1..], d.length - 1, d.sign));
    }
  }

  /** The printing loop; dot says whether a point is printed after index `length`. */
  ghost function Partial(source: seq<Digit>, i: nat, length: nat, dot: bool): string
    requires i <= |source| && length <= |source|
  {
    if dot && i <= length then Shown(source[length..]) + "." + Shown(source[i..length]) else Shown(source[i..])
  }

  lemma {:induction false} PartialStep(source: seq<Digit>, i: nat, length: nat, dot: bool)
    requires i < |source| && length <= |source| && (dot ==> length < |source|)
    ensures Partial(source, i, length, dot)
         == Partial(source, i + 1, length, dot) + [Symbol(source[i])] + (if dot && i == length then "." else "")
  {
    if dot && i < length {
      assert source[i..length][1..] == source[i + 1..length];
    } else {
      assert source[i..][1..] == source[i + 1..];
      if dot && i == length {
        assert source[i..length] == [];
      }
    }
  }

  /** `to_string` */
  method ToText(d: Num) returns (result: string)
    requires d.length <= |d.source|
    ensures result == Printed(d)
  {
    if d.sign == NaN || d.source == [] {
      return "NaN";
    }
    result := "";
    if d.sign == Minus {
      result := "-";
    }
    hide Shown;
    UntrailedBounds(d);
    var offset := TrailingZeros(d);
    var body := PrintDigits(d.source, d.length, offset);
    result := result + body;
  }

  method TrailingZeros(d: Num) returns (offset: nat)
    requires d.length <= |d.source|
    ensures offset <= d.length && Untrailed(d) == Num(d.source[offset..], d.length - offset, d.sign)
  {
    var size := d.length;
    offset := 0;
    assert d.source[0..] == d.source;
    while size > 0 && d.source[offset] == 0
      invariant 0 <= offset <= d.length && size == d.length - offset
      invariant Untrailed(Num(d.source[offset..], size, d.sign)) == Untrailed(d)
      decreases size
    {
      assert d.source[offset..][1..] == d.source[offset + 1..];
      offset := offset + 1;
      size := size - 1;
    }
  }

  method PrintDigits(source: seq<Digit>, length: nat, offset: nat) returns (result: string)
    requires offset <= length <= |source|
    ensures result == Layout(source[offset..], length - offset)
  {
    hide Shown, Symbol;
    result := "";
    var i := |source|;
    ghost var dot := offset != length && length < |source|;
    PartialStart(source, length, dot);
    while i > offset
      invariant offset <= i <= |source|
      invariant result == Partial(source, i, length, dot)
    {
      i := i - 1;
      PartialStep(source, i, length, dot);
      result := result + [Symbol(source[i])];
      if i == length && i != 0 && offset != length {
        result := result + ".";
      }
    }
    PartialEnd(source, offset, length, dot);
  }

  lemma {:induction false} PartialStart(source: seq<Digit>, length: nat, dot: bool)
    requires length <= |source| && (dot ==> length < |source|)
    ensures Partial(source, |source|, length, dot) == ""
  {
    assert source[|source|..] == [];
  }

  lemma {:induction false} PartialEnd(source: seq<Digit>, offset: nat, length: nat, dot: bool)
    requires offset <= length <= |source| && dot == (offset != length && length < |source|)
    ensures Partial(source, offset, length, dot) == Layout(source[offset..], length - offset)
  {
    var s := source[offset..];
    assert s[length - offset..] == source[length..];
    assert s[..length - offset] == source[offset..length];
  }

  // ---------------------------------------------------------------------
  // Round trip
  // ---------------------------------------------------------------------

  /** Printing a canonical decimal and parsing the text gives its untrailed form, sign included. */
  lemma {:induction false} ParsePrinted(d: Num)
    requires Canonical(d)
    ensures Parsed(Printed(d)) == Untrailed(d)
  {
    var u := Untrailed(d);
    UntrailedBounds(d);
    hide Untrailed;
    ParseLayout(u.source, u.length, u.sign);
  }

  /** Untrailing changes neither the number nor canonical form. */
  lemma {:induction false} UntrailedSame(d: Num)
    requires Canonical(d)
    ensures Canonical(Untrailed(d)) && Value(Untrailed(d)) == Value(d) && Untrailed(d).sign == d.sign
    ensures Untrailed(d).length == 0 || Untrailed(d).source[0] != 0
    ensures d.length == 0 || d.source[0] != 0 ==> Untrailed(d) == d
    decreases d.length
  {
    if d.length > 0 && d.source[0] == 0 {
      var e := Num(d.source[1..], d.length - 1, d.sign);
      assert d.source == Repeat<Digit>(0, 1) + e.source;
      AlignedSame(e, d);
      UntrailedSame(e);
    }
  }

  lemma {:induction false} ParseLayout(source: seq<Digit>, length: nat, sign: Sign)
    requires length < |source| && sign != NaN
    ensures Parsed(Prefixed(sign, Layout(source, length))) == Num(source, length, sign)
  {
    hide Shown, Read, Parsed, Symbol, Prefixed;
    var whole, part := source[length..], source[..length];
    ShownDigits(whole);
    ShownDigits(part);
    assert part + whole == source;
    assert length == 0 ==> whole == source && part == [];
    ParseParts(sign, Shown(whole), Shown(part));
  }

  /** A sign, at least one digit, and optionally a point and digits: what the parser makes of them. */
  lemma {:induction false} ParseParts(sign: Sign, w: string, f: string)
    requires sign != NaN && |w| >= 1 && AllDigits(w) && AllDigits(f)
    ensures Parsed(Prefixed(sign, if |f| > 0 then w + "." + f else w)) == Num(Read(f) + Read(w), |f|, sign)
  {
    hide Read, Parsed, AllDigits;
    var prefix, body := if sign == Minus then "-" else "", if |f| > 0 then w + "." + f else w;
    assert body == w + if |f| > 0 then "." + f else "";
    assert Prefixed(sign, body) == Written(prefix, w, |f| > 0, f);
    ParseAccepts(prefix, w, |f| > 0, f);
  }

  lemma {:induction false} ReadNothing()
    ensures Read("") == []
  {
  }

  lemma {:induction false} ReadOne(t: string)
    requires |t| == 1 && AllDigits(t)
    ensures Read(t) == [Numeric(t[0])]
  {
    assert t[..0] == "";
  }

  lemma {:induction false} PointAt(t: string, index: nat, p: nat)
    requires index <= p <= |t| && (p < |t| ==> t[p] == '.')
    requires forall i :: index <= i < p ==> t[i] != '.'
    ensures FindPoint(t, index) == p
    decreases p - index
  {
    if index < p {
      PointAt(t, index + 1, p);
    }
  }

  // ---------------------------------------------------------------------
  // Truncation
  // ---------------------------------------------------------------------

  lemma {:induction false} NatSplit(s: seq<Digit>, k: nat)
    requires k <= |s|
    ensures Nat(s) == Nat(s[..k]) + Pow10(k) * Nat(s[k..])
    decreases k
  {
    hide Nat, Pow10;
    if k == 0 {
      assert s[..0] == [] && s[0..] == s;
      NatEmpty();
      Pow10Zero();
    } else {
      var t, p := s[1..], Pow10(k - 1);
      NatSplit(t, k - 1);
      assert t[..k - 1] == s[..k][1..] && t[k - 1..] == s[k..];
      NatFront(s);
      NatFront(s[..k]);
      Pow10Step(k - 1);
      Associate(10, p, Nat(s[k..]));
    }
  }

  lemma {:induction false} Pow10Zero()
    ensures Pow10(0) == 1
  {
  }

  ghost function Abs(x: real): real
  {
    if x < 0.0 then -x else x
  }

  /** `truncate(p)` rounds toward zero at p digits: same side, not greater, and less than one unit of 10^-p away. */
  lemma {:induction false} TruncateTowardZero(d: Num, precision: nat)
    requires Canonical(d)
    ensures var r := Truncated(d, precision);
            && Canonical(r) && r.length == precision && r.sign == d.sign
            && Abs(Value(r)) <= Abs(Value(d)) < Abs(Value(r)) + Fraction(1, precision)
    ensures precision >= d.length ==> Value(Truncated(d, precision)) == Value(d)
  {
    var r := Truncated(d, precision);
    if precision >= d.length {
      AlignedSame(d, r);
      FractionOrder(0, 1, precision);
      FractionZero(precision);
    } else {
      TruncateDrops(d, precision);
    }
  }

  lemma {:induction false} TruncateDrops(d: Num, precision: nat)
    requires Canonical(d) && precision < d.length
    ensures var r := Truncated(d, precision);
            Abs(Value(r)) <= Abs(Value(d)) < Abs(Value(r)) + Fraction(1, precision)
  {
    hide Nat, Pow10, Fraction, Value;
    var r, k := Truncated(d, precision), d.length - precision;
    NatSplit(d.source, k);
    NatBound(d.source[..k]);
    var n, m, p := Nat(d.source), Nat(r.source), Pow10(k);
    FractionScaled(m, precision, k);
    FractionScaled(m + 1, precision, k);
    Commute(p, m);
    Distribute(m, 1, p);
    FractionOrder(n, m * p, d.length);
    FractionOrder(n, (m + 1) * p, d.length);
    FractionSum(m, 1, precision);
    AbsValue(d);
    AbsValue(r);
  }

  lemma {:induction false} FractionZero(length: nat)
    ensures Fraction(0, length) == 0.0
  {
  }

  lemma {:induction false} AbsValue(d: Num)
    ensures Abs(Value(d)) == Fraction(Nat(d.source), d.length)
  {
    hide Nat, Pow10, Fraction;
    FractionZero(d.length);
    var n: int := Nat(d.source);
    FractionSum(n, -n, d.length);
    FractionOrder(n, 0, d.length);
  }

  // ---------------------------------------------------------------------
  // Numerals of any base
  // ---------------------------------------------------------------------

  /** The mapping table of `from`: digits, and letters of either case. */
  function Mapped(c: char): (d: nat)
    ensures d < 36
  {
    if 'A' <= c <= 'Z' then c as int - 'A' as int + 10 else DigitValue(c)
  }

  lemma {:induction false} MappedIs(c: char)
    ensures 'A' <= c <= 'Z' ==> Mapped(c) == Mapped((c as int + 32) as char)
    ensures forall v :: 0 <= v < 36 && ALPHABET[v] == c ==> Mapped(c) == v
    ensures c !in ALPHABET && !('A' <= c <= 'Z') ==> Mapped(c) == 0
  {
    DigitValueIs(c);
    AlphabetLower(c);
    if 'A' <= c <= 'Z' {
      var v := c as int - 'A' as int + 10;
      LetterIs(v);
      DigitValueIs(ALPHABET[v]);
    }
    hide ALPHABET;
  }

  /** Horner's rule over the mapping. */
  function Horner(data: string, base: nat): nat
  {
    if data == "" then 0 else Horner(data[..|data| - 1], base) * base + Mapped(data[|data| - 1])
  }

  /** A base-10 numeral read as digits has the same number. */
  lemma {:induction false} ReadValue(t: string)
    requires AllDigits(t)
    ensures Nat(Read(t)) == TextValue(t, 10)
    decreases |t|
  {
    if t != "" {
      ReadValue(t[..|t| - 1]);
    }
  }

  lemma {:induction false} DigitsAreDigits(n: nat)
    ensures AllDigits(Digits(n, 10)) && (n > 0 ==> Digits(n, 10)[0] != '0')
    decreases n
  {
    if n < 10 {
      SmallDigit(n);
      DigitsSmall(n, 10);
    } else {
      ShrinkByDivision(n, 10);
      DigitsAreDigits(n / 10);
      SmallDigit(n % 10);
    }
  }

  lemma {:induction false} SmallDigit(d: nat)
    requires d < 10
    ensures IsDigit(DigitChar(d)) && (DigitChar(d) == '0' <==> d == 0)
  {
  }

  /** `decimal(n)` of an unsigned integer: zero, or the parse of its base-10 text. */
  method FromInteger(n: nat) returns (r: Num)
    ensures Canonical(r) && Value(r) == n as real
  {
    if n == 0 {
      ZeroValue(0);
      return ZERO;
    }
    r := Parse(Digits(n, 10));
    hide Read, TextValue, Digits, Nat, Parsed, DigitChar;
    DigitsAreDigits(n);
    DigitsValue(n, 10);
    ParseInteger(Digits(n, 10));
    ReadValue(Digits(n, 10));
  }

  lemma {:induction false} ParseInteger(t: string)
    requires AllDigits(t) && |t| >= 1 && t[0] != '0'
    ensures Parsed(t) == Num(Read(t), 0, Plus) && Canonical(Parsed(t))
    ensures Value(Parsed(t)) == Nat(Read(t)) as real
  {
    hide Parsed, Read;
    ParseParts(Plus, t, "");
    ReadNothing();
    assert Read("") + Read(t) == Read(t);
    ReadTop(t);
  }

  /** The integer part of a text: what stands between the sign, if any, and the point or the end. */
  function WholePart(text: string): string
  {
    if |text| <= 1 then text
    else
      var index := if text[0] == '+' || text[0] == '-' then 1 else 0;
      text[index..FindPoint(text, index)]
  }

  /**
   Of the texts the parser accepts, exactly those with one integer digit, or with more
   and no leading zero, give a canonical decimal: "007" and "-.5" are accepted and do not.
   */
  lemma {:induction false} ParsedCanonicalExactlyWhen(text: string)
    requires Parsed(text).sign != NaN
    ensures var w := WholePart(text);
            AllDigits(w) && (Canonical(Parsed(text)) <==> |w| == 1 || (|w| > 1 && w[0] != '0'))
  {
    hide Parsed, Read, WholePart, FindPoint, AllDigits;
    if |text| > 1 {
      AcceptedParts(text);
      TopDecides(Parsed(text), WholePart(text));
    } else {
      AcceptedDigit(text);
    }
  }

  lemma {:induction false} AcceptedDigit(text: string)
    requires Parsed(text).sign != NaN && |text| <= 1
    ensures AllDigits(WholePart(text)) && |WholePart(text)| == 1 && Canonical(Parsed(text))
  {
  }

  lemma {:induction false} TopDecides(d: Num, w: string)
    requires d.sign != NaN && AllDigits(w) && |d.source| == d.length + |w| && d.source[d.length..] == Read(w)
    ensures Canonical(d) <==> |w| == 1 || (|w| > 1 && w[0] != '0')
  {
    hide Read;
    if |w| > 0 {
      ReadTop(w);
      assert d.source[|d.source| - 1] == d.source[d.length..][|w| - 1];
      assert IsDigit(w[0]);
    }
  }

  /** An accepted text of more than one character gives its integer digits above its fractional ones. */
  lemma {:induction false} AcceptedParts(text: string)
    requires Parsed(text).sign != NaN && |text| > 1
    ensures var d, w := Parsed(text), WholePart(text);
            AllDigits(w) && |d.source| == d.length + |w| && d.source[d.length..] == Read(w)
  {
    hide Read, FindPoint, IsDigit;
    var index := if text[0] == '+' || text[0] == '-' then 1 else 0;
    var point := FindPoint(text, index);
    var part := if point < |text| then text[point + 1..] else "";
    assert AllDigits(part) && |Read(part)| == |part|;
    assert (Read(part) + Read(WholePart(text)))[|part|..] == Read(WholePart(text));
  }

  // ---------------------------------------------------------------------
  // The grammar
  // ---------------------------------------------------------------------

  /** A sign or none, integer digits, and a point with fractional digits or none. */
  function Written(prefix: string, w: string, point: bool, f: string): string
  {
    prefix + (w + if point then "." + f else "")
  }

  /** Digits on both sides; without a sign there is an integer digit, with one there is a digit or a point behind it. */
  predicate IsWritten(prefix: string, w: string, point: bool, f: string)
  {
    && (prefix == "" || prefix == "+" || prefix == "-") && AllDigits(w) && AllDigits(f) && (!point ==> f == "")
    && (|w| > 0 || (prefix != "" && point))
  }

  lemma {:induction false} WrittenParts(prefix: string, w: string, point: bool, f: string)
    requires IsWritten(prefix, w, point, f)
    ensures var text, index, p := Written(prefix, w, point, f), |prefix|, |prefix| + |w|;
            && index <= p <= |text| && FindPoint(text, index) == p && text[index..p] == w
            && point == (p < |text|) && (point ==> text[p + 1..] == f)
            && (prefix != "" ==> text[0] == prefix[0]) && (prefix == "" ==> IsDigit(text[0]))
  {
    hide IsDigit, FindPoint;
    var text, index, p := Written(prefix, w, point, f), |prefix|, |prefix| + |w|;
    var behind := if point then "." + f else "";
    PartsAt(prefix, w, behind);
    DigitsHaveNoPoint(w);
    hide AllDigits;
    assert forall i :: index <= i < p ==> text[i] == w[i - index];
    PointAt(text, index, p);
  }

  lemma {:induction false} PartsAt(a: string, b: string, c: string)
    ensures var t := a + (b + c);
            t[..|a|] == a && t[|a|..|a| + |b|] == b && t[|a| + |b|..] == c
  {
  }

  lemma {:induction false} DigitsHaveNoPoint(w: string)
    requires AllDigits(w)
    ensures forall i :: 0 <= i < |w| ==> w[i] != '.' && IsDigit(w[i])
  {
  }

  /** The reading of a text of more than one character. */
  lemma {:induction false} ParsedLong(text: string)
    requires |text| > 1
    ensures var signed := text[0] == '+' || text[0] == '-';
            var p := FindPoint(text, if signed then 1 else 0);
            var whole := text[if signed then 1 else 0..p];
            var part := if p < |text| then text[p + 1..] else "";
            Parsed(text)
            == if (signed || IsDigit(text[0])) && AllDigits(whole) && AllDigits(part)
               then Num(Read(part) + Read(whole), |part|, if text[0] == '-' then Minus else Plus) else NAN
  {
    hide FindPoint, Read, IsDigit, AllDigits;
  }

  /** Such a text is read as its digits, negative exactly with a minus sign. */
  lemma {:induction false} ParseAccepts(prefix: string, w: string, point: bool, f: string)
    requires IsWritten(prefix, w, point, f)
    ensures Parsed(Written(prefix, w, point, f)) == Num(Read(f) + Read(w), |f|, if prefix == "-" then Minus else Plus)
  {
    if |Written(prefix, w, point, f)| == 1 {
      ShortAccepted(prefix, w, point, f);
    } else {
      LongAccepted(prefix, w, point, f);
    }
  }

  lemma {:induction false} ShortAccepted(prefix: string, w: string, point: bool, f: string)
    requires IsWritten(prefix, w, point, f) && |Written(prefix, w, point, f)| == 1
    ensures Parsed(Written(prefix, w, point, f)) == Num(Read(f) + Read(w), |f|, Plus) && prefix == ""
  {
    hide Read;
    var text := Written(prefix, w, point, f);
    assert text == w && f == "";
    ReadNothing();
    ReadOne(text);
    assert [] + Read(w) == Read(w);
  }

  lemma {:induction false} LongAccepted(prefix: string, w: string, point: bool, f: string)
    requires IsWritten(prefix, w, point, f) && |Written(prefix, w, point, f)| != 1
    ensures Parsed(Written(prefix, w, point, f)) == Num(Read(f) + Read(w), |f|, if prefix == "-" then Minus else Plus)
  {
    hide Read, FindPoint, Parsed, Written, AllDigits;
    var text := Written(prefix, w, point, f);
    WrittenParts(prefix, w, point, f);
    WrittenLong(prefix, w, point, f);
    ParsedLong(text);
  }

  lemma {:induction false} WrittenLong(prefix: string, w: string, point: bool, f: string)
    requires IsWritten(prefix, w, point, f) && |Written(prefix, w, point, f)| != 1
    ensures |Written(prefix, w, point, f)| > 1
  {
    hide AllDigits;
  }

  lemma {:induction false} LayoutIs(source: seq<Digit>, length: nat)
    requires length < |source|
    ensures Layout(source, length)
            == Shown(source[length..]) + if length > 0 then "." + Shown(source[..length]) else ""
  {
    hide Shown;
    if length == 0 {
      assert source[0..] == source;
    }
  }

  lemma {:induction false} PrintedLayout(d: Num)
    requires Canonical(d)
    ensures var u := Untrailed(d);
            u.length < |u.source| && Printed(d) == Prefixed(d.sign, Layout(u.source, u.length))
  {
    UntrailedBounds(d);
    hide Untrailed, Layout, Prefixed;
  }

  /** What is printed: a minus sign or nothing, the integer digits, and a point only before fractional digits. */
  lemma {:induction false} PrintedIs(d: Num) returns (w: string, f: string)
    requires Canonical(d)
    ensures AllDigits(w) && AllDigits(f) && |f| <= d.length
    ensures Printed(d) == Written(if d.sign == Minus then "-" else "", w, |f| > 0, f)
    ensures Read(w) == d.source[d.length..] && Read(f) == d.source[d.length - |f|..d.length]
    ensures (|f| > 0 ==> f[|f| - 1] != '0') && forall i :: 0 <= i < d.length - |f| ==> d.source[i] == 0
  {
    hide Untrailed, Shown, Read, AllDigits, Symbol, Printed, Layout;
    UntrailedBounds(d);
    UntrailedZeros(d);
    PrintedLayout(d);
    var u := Untrailed(d);
    var whole, part := u.source[u.length..], u.source[..u.length];
    w, f := Shown(whole), Shown(part);
    ShownDigits(whole);
    ShownDigits(part);
    LayoutIs(u.source, u.length);
    assert whole == d.source[d.length..] && part == d.source[d.length - u.length..d.length];
    if u.length > 0 {
      ShownLast(part);
    }
  }

  lemma {:induction false} ShownLast(s: seq<Digit>)
    requires s != []
    ensures |Shown(s)| == |s| && (s[0] != 0 ==> Shown(s)[|s| - 1] != '0')
  {
  }

  lemma {:induction false} UntrailedZeros(d: Num)
    requires d.length <= |d.source|
    ensures forall i :: 0 <= i < d.length - Untrailed(d).length ==> d.source[i] == 0
    decreases d.length
  {
    if d.length > 0 && d.source[0] == 0 {
      var e := Num(d.source[1..], d.length - 1, d.sign);
      UntrailedZeros(e);
      UntrailedBounds(e);
      assert forall i :: 1 <= i < d.length - Untrailed(d).length ==> d.source[i] == e.source[i - 1];
    }
  }

  lemma {:induction false} NotANumberPrinted(d: Num)
    requires d.length <= |d.source|
    ensures d.sign == NaN || d.source == [] ==> Printed(d) == "NaN"
  {
  }

  /** And every text that is accepted is such a text. */
  lemma {:induction false} ParsedWasWritten(text: string) returns (prefix: string, w: string, point: bool, f: string)
    requires Parsed(text).sign != NaN
    ensures IsWritten(prefix, w, point, f) && text == Written(prefix, w, point, f)
  {
    if |text| == 1 {
      prefix, w, point, f := "", text, false, "";
      assert "" + (text + "") == text;
    } else {
      prefix, w, point, f := LongWasWritten(text);
    }
  }

  lemma {:induction false} LongWasWritten(text: string) returns (prefix: string, w: string, point: bool, f: string)
    requires Parsed(text).sign != NaN && |text| > 1
    ensures IsWritten(prefix, w, point, f) && text == Written(prefix, w, point, f)
  {
    hide Parsed, Read, FindPoint, AllDigits;
    ParsedLong(text);
    var signed := text[0] == '+' || text[0] == '-';
    var index := if signed then 1 else 0;
    FoundPoint(text, index);
    var p := FindPoint(text, index);
    prefix, w, point := text[..index], text[index..p], p < |text|;
    f := if point then text[p + 1..] else "";
    NothingIsDigits();
    assert signed ==> prefix == [text[0]];
    Rejoined(text, index, p);
  }

  lemma {:induction false} NothingIsDigits()
    ensures AllDigits("")
  {
  }

  lemma {:induction false} Rejoined(text: string, index: nat, p: nat)
    requires index <= p <= |text| && (p < |text| ==> text[p] == '.')
    ensures text == text[..index] + (text[index..p] + if p < |text| then "." + text[p + 1..] else "")
  {
  }

  lemma {:induction false} FoundPoint(t: string, index: nat)
    requires index <= |t|
    ensures var p := FindPoint(t, index);
            index <= p <= |t| && (p < |t| ==> t[p] == '.') && forall i :: index <= i < p ==> t[i] != '.'
    decreases |t| - index
  {
    if index < |t| && t[index] != '.' {
      FoundPoint(t, index + 1);
    }
  }

  /** Accepted without an integer digit: a sign, a point, and any digits, even none. */
  lemma {:induction false} NoIntegerDigit(c: char, f: string)
    requires AllDigits(f) && (c == '+' || c == '-')
    ensures var d := Parsed([c, '.'] + f);
            d == Num(Read(f), |f|, if c == '-' then Minus else Plus) && !Canonical(d)
  {
    var text := [c, '.'] + f;
    hide Read;
    ReadNothing();
    PointAt(text, 1, 1);
    assert text[1..1] == "" && text[2..] == f;
    assert Read(f) + [] == Read(f);
  }

  lemma {:induction false} ReadTop(t: string)
    requires AllDigits(t) && |t| >= 1
    ensures Read(t)[|t| - 1] == Numeric(t[0])
    decreases |t|
  {
    if |t| > 1 {
      ReadTop(t[..|t| - 1]);
    }
  }

  /** `decimal::from`: exact for every text and base. */
  method FromText(data: string, base: nat) returns (value: Num)
    ensures Canonical(value) && Value(value) == Horner(data, base) as real
  {
    hide Canonical, Value, Mapped;
    var radix := FromInteger(base);
    value := FromInteger(0);
    assert data[..0] == "";
    for i := 0 to |data|
      invariant Canonical(value) && Value(value) == Horner(data[..i], base) as real
    {
      var number := FromInteger(Mapped(data[i]));
      CanonicalWellFormed(value);
      CanonicalWellFormed(radix);
      CanonicalWellFormed(number);
      var product := Times(value, radix);
      CanonicalWellFormed(product);
      value := Add(product, number);
      assert data[..i + 1][..i] == data[..i];
    }
    assert data[..|data|] == data;
  }

  lemma {:induction false} CanonicalWellFormed(d: Num)
    requires Canonical(d)
    ensures WellFormed(d)
  {
  }
}

/**
 Printing a `uint256` in a base from 2 to 36 and reading it back. Hexadecimal
 goes through the big-endian bytes of the limbs, every other base through
 repeated division.
 */
module Uint256Text {
  import opened Words
  import opened Uint128
  import opened Uint256
  import opened Radix
  import opened Bytes

  // ---------------------------------------------------------------------
  // Printing
  // ---------------------------------------------------------------------

  /** The bytes a number takes without leading zero bytes. */
  function ByteCount(n: nat): nat
  {
    if n == 0 then 0 else 1 + ByteCount(n / 256)
  }

  lemma {:induction false} ByteCountIs(n: nat, k: nat)
    requires k >= 1 && Pow(256, k - 1) <= n < Pow(256, k)
    ensures ByteCount(n) == k
    decreases k
  {
    if k > 1 {
      assert Pow(256, k - 1) == 256 * Pow(256, k - 2);
      ByteCountIs(n / 256, k - 1);
    } else {
      assert Pow(256, 0) == 1 && ByteCount(n / 256) == 0;
    }
  }

  method Bytes256(x: U256) returns (size: nat)
    ensures size == ByteCount(x.Value())
    ensures x.Value() > 0 ==> 1 <= size <= 32 && Pow(256, size - 1) <= x.Value() < Pow(256, size)
  {
    if !IsTrue256(x) {
      return 0;
    }
    hide Pow, Pow2, U256.Value, ByteCount;
    var length := Bits256(x);
    length := length - 1;
    size := (length - length % 8 + 8) / 8;
    PowOf256(size);
    Pow2Monotonic(length + 1, 8 * size);
    PowOf256(size - 1);
    Pow2Monotonic(8 * (size - 1), length);
    ByteCountIs(x.Value(), size);
  }

  function Reverse(s: string): (r: string)
  {
    if s == [] then [] else [s[|s| - 1]] + Reverse(s[..|s| - 1])
  }

  lemma {:induction false} ReverseEmpty()
    ensures Reverse("") == ""
  {
  }

  lemma {:induction false} ReverseSnoc(s: string, c: char)
    ensures Reverse(s + [c]) == [c] + Reverse(s)
  {
    assert (s + [c])[..|s|] == s;
  }

  lemma {:induction false} MoveDigit(s: string, c: char, t: string)
    ensures (s + [c]) + t == s + ([c] + t)
  {
  }

  lemma {:induction false} PeelDigit(v: nat, base: nat)
    requires 2 <= base <= 36
    ensures Digits(v, base) == (if v / base > 0 then Digits(v / base, base) else []) + [DigitChar(v % base)]
    ensures v > 0 ==> v / base < v
  {
    hide DigitChar;
    if v >= base {
      ShrinkByDivision(v, base);
    } else {
      ModSmall(v, base);
    }
  }

  lemma {:induction false} ReversePadded(s: string, k: nat)
    ensures Reverse(s + Repeat('0', k)) == Repeat('0', k) + Reverse(s)
    decreases k
  {
    if k == 0 {
      assert s + Repeat('0', 0) == s;
    } else {
      assert s + Repeat('0', k) == (s + ['0']) + Repeat('0', k - 1);
      ReversePadded(s + ['0'], k - 1);
      ReverseSnoc(s, '0');
      hide Reverse;
      assert Repeat('0', k - 1) + (['0'] + Reverse(s)) == Repeat('0', k) + Reverse(s);
    }
  }

  lemma {:induction false} ReverseLength(s: string)
    ensures |Reverse(s)| == |s|
    decreases |s|
  {
    if s != [] {
      ReverseLength(s[..|s| - 1]);
    }
  }

  /** The zeros that bring `size` characters up to `length`. */
  function Missing(size: nat, length: nat): nat
  {
    if size < length then length - size else 0
  }

  /** Repeated division; padding goes behind the reversed digits, so in front of the number. */
  method DivisionText(x: U256, base: nat, length: nat) returns (output: string)
    requires 2 <= base <= 36 && x.Value() > 0
    ensures var digits := Digits(x.Value(), base); output == Repeat('0', Missing(|digits|, length)) + digits
  {
    hide DigitChar, Digits, U256.Value, IsTrue256, Reverse;
    output := "";
    ReverseEmpty();
    var rem, more := x, true;
    while more
      invariant more ==> rem.Value() > 0
      invariant Digits(x.Value(), base) == (if more then Digits(rem.Value(), base) else []) + Reverse(output)
      decreases if more then rem.Value() + 1 else 0
    {
      PeelDigit(rem.Value(), base);
      var q, c := NextDigit(rem, base);
      ReverseSnoc(output, c);
      MoveDigit(if q.Value() > 0 then Digits(q.Value(), base) else [], c, Reverse(output));
      output := output + [c];
      rem := q;
      more := IsTrue256(rem);
    }
    ReverseLength(output);
    ReversePadded(output, Missing(|output|, length));
    assert [] + Reverse(output) == Reverse(output);
    output := Reverse(output + Repeat('0', Missing(|output|, length)));
  }

  method NextDigit(rem: U256, base: nat) returns (q: U256, c: char)
    requires 2 <= base <= 36
    ensures q.Value() == rem.Value() / base && c == DigitChar(rem.Value() % base)
  {
    hide DigitChar, U256.Value, Of256, Of;
    var d;
    q, d := Divide256(rem, Of256(Of(base)));
    DivModUnique(rem.Value(), base, q.Value(), d.Value());
    LowByte(d);
    c := DigitChar(d.lower.lower % 256);
  }

  lemma {:induction false} LowByte(d: U256)
    ensures d.Value() < 256 ==> d.lower.lower % 256 == d.Value()
  {
  }

  /** Two hexadecimal digits for each byte. */
  method HexEncode(bytes: seq<Byte>) returns (output: string)
    ensures |output| == 2 * |bytes|
    ensures forall i :: 0 <= i < |output| ==> IsDigitOf(output[i], 16)
    ensures TextValue(output, 16) == BytesValue(bytes)
  {
    hide DigitChar, DigitValue, TextValue;
    output := "";
    TextValueEmpty(16);
    for i := 0 to |bytes|
      invariant |output| == 2 * i
      invariant forall j :: 0 <= j < |output| ==> IsDigitOf(output[j], 16)
      invariant TextValue(output, 16) == BytesValue(bytes[..i])
    {
      var c := bytes[i];
      AlphabetValue(c / 16);
      AlphabetValue(c % 16);
      TextValueSnoc(output, DigitChar(c / 16), 16);
      TextValueSnoc(output + [DigitChar(c / 16)], DigitChar(c % 16), 16);
      assert bytes[..i + 1][..i] == bytes[..i];
      output := output + [DigitChar(c / 16)];
      output := output + [DigitChar(c % 16)];
    }
    assert bytes[..|bytes|] == bytes;
  }

  /**
   The limbs written big-endian into a 32-byte array, of which only as many limbs
   as the number needs are filled; `stale` is what the array held before.
   */
  function LimbArray(x: U256, size: nat, stale: seq<Byte>): (memory: seq<Byte>)
    requires |stale| == 32 && 1 <= size <= 32
    ensures |memory| == 32
  {
    (if size > 24 then BigEndian(x.upper.upper, 8) else stale[..8])
    + (if size > 16 then BigEndian(x.upper.lower, 8) else stale[8..16])
    + (if size > 8 then BigEndian(x.lower.upper, 8) else stale[16..24])
    + BigEndian(x.lower.lower, 8)
  }

  lemma {:induction false} LimbBytes(l: U64)
    ensures BytesValue(BigEndian(l, 8)) == l
    ensures Pow(256, 8) == W64
  {
    PowOf256(8);
    Pow2Words();
    BigEndianValue(l, 8);
  }

  lemma {:induction false} FourLimbs(a: seq<Byte>, b: seq<Byte>, c: seq<Byte>, d: seq<Byte>)
    requires |b| == |c| == |d| == 8
    ensures BytesValue(c + d) == BytesValue(c) * W64 + BytesValue(d)
    ensures BytesValue(b + c + d) == BytesValue(b) * W128 + BytesValue(c) * W64 + BytesValue(d)
    ensures BytesValue(a + b + c + d)
            == BytesValue(a) * W192 + BytesValue(b) * W128 + BytesValue(c) * W64 + BytesValue(d)
  {
    PowWords();
    hide Pow, BytesValue;
    BytesConcat(c, d);
    BytesConcat(b, c);
    BytesConcat(b + c, d);
    BytesConcat(a, b);
    BytesConcat(a + b, c);
    BytesConcat(a + b + c, d);
  }

  lemma {:induction false} LimbView(x: U256, size: nat, stale: seq<Byte>, n: nat)
    requires |stale| == 32 && 1 <= size <= 32
    requires n == (if size > 24 then 32 else if size > 16 then 24 else if size > 8 then 16 else 8)
    ensures LimbArray(x, size, stale)[32 - n..]
         == if n == 32 then BigEndian(x.upper.upper, 8) + BigEndian(x.upper.lower, 8)
                            + BigEndian(x.lower.upper, 8) + BigEndian(x.lower.lower, 8)
            else if n == 24 then BigEndian(x.upper.lower, 8) + BigEndian(x.lower.upper, 8) + BigEndian(x.lower.lower, 8)
            else if n == 16 then BigEndian(x.lower.upper, 8) + BigEndian(x.lower.lower, 8)
            else BigEndian(x.lower.lower, 8)
  {
    hide BigEndian;
  }

  /** The filled limbs hold the whole number. */
  lemma {:induction false} FilledLimbs(x: U256, size: nat, stale: seq<Byte>, n: nat)
    requires |stale| == 32 && 1 <= size <= 32 && x.Value() < Pow(256, size)
    requires n == (if size > 24 then 32 else if size > 16 then 24 else if size > 8 then 16 else 8)
    ensures BytesValue(LimbArray(x, size, stale)[32 - n..]) == x.Value()
  {
    hide Pow, BytesValue, BigEndian, LimbArray;
    var a, b, c, d := BigEndian(x.upper.upper, 8), BigEndian(x.upper.lower, 8),
                      BigEndian(x.lower.upper, 8), BigEndian(x.lower.lower, 8);
    FourLimbs(a, b, c, d);
    LimbBytes(x.upper.upper);
    LimbBytes(x.upper.lower);
    LimbBytes(x.lower.upper);
    LimbBytes(x.lower.lower);
    PowWords();
    LimbView(x, size, stale, n);
    PowGrows(size, n);
  }

  lemma {:induction false} PowGrows(m: nat, n: nat)
    requires m <= n
    ensures Pow(256, m) <= Pow(256, n)
  {
    PowOf256(m);
    PowOf256(n);
    Pow2Monotonic(8 * m, 8 * n);
  }

  lemma {:induction false} PowWords()
    ensures Pow(256, 8) == W64 && Pow(256, 16) == W128 && Pow(256, 24) == W192
  {
    PowOf256(8);
    PowOf256(16);
    PowOf256(24);
    Pow2Words();
    Pow2Add(128, 64);
  }

  /** Removing leading zeros down to a numeral. */
  method StripZeros(text: string, base: nat) returns (output: string)
    requires 2 <= base <= 36 && |text| >= 1
    requires forall i :: 0 <= i < |text| ==> IsDigitOf(text[i], base)
    ensures output == Digits(TextValue(text, base), base)
  {
    output := text;
    while |output| > 1 && output[0] == '0'
      invariant |output| >= 1
      invariant forall i :: 0 <= i < |output| ==> IsDigitOf(output[i], base)
      invariant TextValue(output, base) == TextValue(text, base)
      decreases |output|
    {
      DropLeadingZero(output, base);
      output := output[1..];
    }
    NumeralUnique(output, base);
  }

  /** Padding of hexadecimal text goes behind the digits: the text is that of a larger number. */
  method HexText(x: U256, length: nat, stale: seq<Byte>) returns (output: string)
    requires |stale| == 32 && x.Value() > 0
    ensures output == Digits(x.Value() * Pow(16, Missing(2 * ByteCount(x.Value()), length)), 16)
  {
    hide TextValue, BytesValue, LimbArray, IsDigitOf, Digits, Pow, U256.Value, ByteCount, Repeat;
    var size := Bytes256(x);
    var memory := LimbArray(x, size, stale);
    ghost var n := if size > 24 then 32 else if size > 16 then 24 else if size > 8 then 16 else 8;
    FilledLimbs(x, size, stale, n);
    BytesSuffix(memory[32 - n..], size);
    assert memory[32 - n..][n - size..] == memory[32 - size..];
    output := HexEncode(memory[32 - size..]);
    var k := Missing(|output|, length);
    ZerosBehind(output, 16, k);
    output := output + Repeat('0', k);
    output := StripZeros(output, 16);
  }

  lemma {:induction false} ZerosBehind(s: string, base: nat, k: nat)
    requires 2 <= base <= 36 && forall i :: 0 <= i < |s| ==> IsDigitOf(s[i], base)
    ensures forall i :: 0 <= i < |s + Repeat('0', k)| ==> IsDigitOf((s + Repeat('0', k))[i], base)
    ensures TextValue(s + Repeat('0', k), base) == TextValue(s, base) * Pow(base, k)
  {
    ZerosValue(base, k);
    hide TextValue;
    TextValueConcat(s, Repeat('0', k), base);
    AlphabetValue(0);
    assert IsDigitOf('0', base);
  }

  lemma {:induction false} ZerosValue(base: nat, k: nat)
    ensures TextValue(Repeat('0', k), base) == 0
    decreases k
  {
    if k > 0 {
      ZerosValue(base, k - 1);
      assert Repeat('0', k)[..k - 1] == Repeat('0', k - 1);
    }
  }

  /** What `to_string(base, length)` prints. */
  function PaddedText(n: nat, base: nat, length: nat): string
    requires 2 <= base <= 36
  {
    if n == 0 then (if length == 0 then "0" else Repeat('0', length))
    else if base == 16 then Digits(n * Pow(16, Missing(2 * ByteCount(n), length)), 16)
    else Repeat('0', Missing(|Digits(n, base)|, length)) + Digits(n, base)
  }

  /** `to_string(base, length)`, whatever the array of limbs held before. */
  method ToText(x: U256, base: nat, length: nat, stale: seq<Byte>) returns (output: string)
    requires 2 <= base <= 36 && |stale| == 32
    ensures output == PaddedText(x.Value(), base, length)
  {
    hide Digits, Pow, ByteCount;
    if !IsTrue256(x) {
      return if length == 0 then "0" else Repeat('0', length);
    }
    if base == 16 {
      output := HexText(x, length, stale);
    } else {
      output := DivisionText(x, base, length);
    }
  }

  /** Without a length the text is the numeral of the number. */
  lemma {:induction false} UnpaddedText(n: nat, base: nat)
    requires 2 <= base <= 36
    ensures PaddedText(n, base, 0) == Digits(n, base)
  {
    hide Digits, ByteCount;
    if n == 0 {
      DigitsSmall(0, base);
      AlphabetValue(0);
    }
    assert Pow(16, 0) == 1;
  }

  /** Padding keeps the number if and only if the base is not 16, the number is zero, or there is nothing to pad. */
  lemma {:induction false} PaddingKeepsValueExactlyWhen(n: nat, base: nat, length: nat)
    requires 2 <= base <= 36
    ensures TextValue(PaddedText(n, base, length), base) == n <==> base != 16 || n == 0 || length <= 2 * ByteCount(n)
  {
    hide Digits, ByteCount, Pow, TextValue, Repeat;
    if n == 0 {
      ZeroText(base, length);
    } else if base == 16 {
      var k := Missing(2 * ByteCount(n), length);
      DigitsValue(n * Pow(16, k), 16);
      PowAbove(n, k);
    } else {
      var digits := Digits(n, base);
      ZerosValue(base, Missing(|digits|, length));
      TextValueConcat(Repeat('0', Missing(|digits|, length)), digits, base);
      DigitsValue(n, base);
    }
  }

  /**
   Where the padding stands: in front of the numeral up to the length, or, in base 16, behind it for
   each missing digit.
   */
  lemma {:induction false} PaddedTextIs(n: nat, base: nat, length: nat)
    requires 2 <= base <= 36
    ensures var t, numeral := PaddedText(n, base, length), Digits(n, base);
            if base == 16 && n > 0 then
              && (length > 2 * ByteCount(n) ==> |t| == |numeral| + (length - 2 * ByteCount(n)))
              && (length <= 2 * ByteCount(n) ==> |t| == |numeral|)
              && t[..|numeral|] == numeral && forall i :: |numeral| <= i < |t| ==> t[i] == '0'
            else
              && |t| == (if length > |numeral| then length else |numeral|)
              && t[|t| - |numeral|..] == numeral && forall i :: 0 <= i < |t| - |numeral| ==> t[i] == '0'
  {
    hide Digits, ByteCount, Pow;
    if n == 0 {
      ZeroNumeral(base);
    } else if base == 16 {
      ScaledNumeral(n, Missing(2 * ByteCount(n), length));
    }
  }

  lemma {:induction false} ZeroNumeral(base: nat)
    requires 2 <= base <= 36
    ensures Digits(0, base) == "0"
  {
    DigitsSmall(0, base);
    AlphabetValue(0);
  }

  lemma {:induction false} ScaledNumeral(n: nat, k: nat)
    requires n > 0
    ensures Digits(n * Pow(16, k), 16) == Digits(n, 16) + Repeat('0', k)
    decreases k
  {
    hide Digits, Pow, Repeat;
    RepeatSnoc(k);
    PowStep16(k);
    if k > 0 {
      var p := Pow(16, k - 1);
      ScaledNumeral(n, k - 1);
      PowPositive(16, k - 1);
      MulLe(1, n, p);
      Associate(n, 16, p);
      DigitsStep(n * p, 0, 16);
      AlphabetValue(0);
      Regroup(Digits(n, 16), Repeat('0', k - 1), ['0']);
    } else {
      assert Digits(n, 16) + "" == Digits(n, 16);
    }
  }

  lemma {:induction false} PowStep16(k: nat)
    ensures Pow(16, k) == if k == 0 then 1 else 16 * Pow(16, k - 1)
  {
  }

  lemma {:induction false} RepeatSnoc(k: nat)
    ensures Repeat('0', k) == if k == 0 then "" else Repeat('0', k - 1) + ['0']
  {
  }

  lemma {:induction false} ZeroText(base: nat, length: nat)
    requires 2 <= base <= 36
    ensures TextValue(PaddedText(0, base, length), base) == 0
  {
    if length > 0 {
      ZerosValue(base, length);
    } else {
      assert "0"[..0] == "";
    }
  }

  lemma {:induction false} PowAbove(n: nat, k: nat)
    requires n > 0
    ensures n * Pow(16, k) == n <==> k == 0
    ensures k > 0 ==> n * Pow(16, k) > n
    decreases k
  {
    if k > 0 {
      PowAbove(n, k - 1);
      Associate(16, n, Pow(16, k - 1));
    }
  }

  // ---------------------------------------------------------------------
  // Parsing
  // ---------------------------------------------------------------------

  lemma {:induction false} MulModulo(x: int, y: int, m: int)
    requires m > 0
    ensures ((x % m) * y) % m == (x * y) % m
  {
    DivMod(x, m);
    Distribute((x / m) * m, x % m, y);
    Associate(x / m, m, y);
    Associate(x / m, y, m);
    ModDrop(x * y, (x % m) * y, (x / m) * y, m);
  }

  lemma {:induction false} AddModulo(x: int, y: int, m: int)
    requires m > 0
    ensures (x % m + y % m) % m == (x + y) % m
  {
    DivMod(x, m);
    DivMod(y, m);
    Distribute(x / m, y / m, m);
    ModDrop(x + y, x % m + y % m, x / m + y / m, m);
  }

  /** The text constructor: digits from the right, each times a running power, modulo 2^256. */
  method FromText(text: string, base: nat) returns (r: U256)
    requires base < 256
    ensures r.Value() == TextValue(text, base) % W256
  {
    hide TextValue, DigitValue, Add256, U256.Value, Of256, Of;
    r := MIN;
    var power := UNIT;
    var pos := |text| - 1;
    MinIsZero();
    UnitIsOne();
    TextValueEmpty(base);
    ModSmall(0, W256);
    ModSmall(1, W256);
    assert text[pos + 1..] == [];
    while pos >= 0
      invariant -1 <= pos < |text|
      invariant r.Value() == TextValue(text[pos + 1..], base) % W256
      invariant power.Value() == Pow(base, |text| - 1 - pos) % W256
    {
      r, power := TakeDigit(r, power, text[pos..], base);
      assert text[pos..][1..] == text[pos + 1..];
      pos := pos - 1;
    }
    assert text[0..] == text;
  }

  method TakeDigit(r: U256, power: U256, text: string, base: nat) returns (r': U256, power': U256)
    requires base < 256 && |text| >= 1
    requires r.Value() == TextValue(text[1..], base) % W256
    requires power.Value() == Pow(base, |text| - 1) % W256
    ensures r'.Value() == TextValue(text, base) % W256
    ensures power'.Value() == Pow(base, |text|) % W256
  {
    hide TextValue, DigitValue, Add256, U256.Value, Of256, Of;
    var digit := DigitValue(text[0]);
    ghost var p := Pow(base, |text| - 1);
    var term := Multiply256(power, Of256(Of(digit)));
    MulModulo(p, digit, W256);
    Add256Value(r, term);
    AddModulo(TextValue(text[1..], base), p * digit, W256);
    TextValueFront(text, base);
    Commute(p, digit);
    r' := Add256(r, term);
    power' := Multiply256(power, Of256(Of(base)));
    MulModulo(p, base, W256);
    Commute(p, base);
  }

  lemma {:induction false} UnitIsOne()
    ensures UNIT.Value() == 1
  {
  }

  /** Printing in any base and parsing the text gives the number back. */
  method PrintThenParse(x: U256, base: nat, stale: seq<Byte>) returns (y: U256)
    requires 2 <= base <= 36 && |stale| == 32
    ensures y == x
  {
    var text := ToText(x, base, 0, stale);
    UnpaddedText(x.Value(), base);
    y := FromText(text, base);
    DigitsValue(x.Value(), base);
    ModSmall(x.Value(), W256);
    ValueInjective256(x, y);
  }
}

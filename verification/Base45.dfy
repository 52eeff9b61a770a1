/**
 Base 45 (RFC 9285, section 4): two bytes as three characters, a last single byte
 as two.
 */
module Base45 {
  import opened Words

  /** The character of a digit. */
  function Symbol(v: nat): char
    requires v < 45
  {
    if v < 10 then ('0' as int + v) as char
    else if v < 36 then ('A' as int + v - 10) as char
    else if v == 36 then ' ' else if v == 37 then '$' else if v == 38 then '%' else if v == 39 then '*'
    else if v == 40 then '+' else if v == 41 then '-' else if v == 42 then '.' else if v == 43 then '/' else ':'
  }

  /** The decoder's table as it is read: 255, the mark for no digit, becomes -1 in a signed char. */
  function Table(c: char): int
  {
    if '0' <= c <= '9' then c as int - '0' as int
    else if 'A' <= c <= 'Z' then c as int - 'A' as int + 10
    else if 'a' <= c <= 'z' then c as int - 'a' as int + 10
    else if c == '[' || c == '{' then 35
    else if c == ' ' then 36 else if c == '$' then 37 else if c == '%' then 38 else if c == '*' then 39
    else if c == '+' then 40 else if c == '-' then 41 else if c == '.' then 42 else if c == '/' then 43
    else if c == ':' then 44
    else -1
  }

  lemma {:induction false} TableInverts(v: nat)
    requires v < 45
    ensures Table(Symbol(v)) == v
  {
  }

  function Encoded(s: seq<Byte>): string
  {
    if s == [] then ""
    else if |s| == 1 then Pair(s[0])
    else Triple(s[0], s[1]) + Encoded(s[2..])
  }

  function Pair(b: Byte): string
  {
    [Symbol(b % 45), Symbol(b / 45)]
  }

  function Whole(x: int, y: int): int
  {
    x * 256 + y
  }

  function Triple(x: Byte, y: Byte): string
  {
    var n := Whole(x, y);
    [Symbol(n % 2025 % 45), Symbol(n % 2025 / 45), Symbol(n / 2025)]
  }

  /** Storing an int in a byte. */
  function Stored(x: int): Byte
  {
    x % 256
  }

  function PairValue(p: char, q: char): int
  {
    Table(p) + 45 * Table(q)
  }

  /** What the decoder makes of a text; a single last character is dropped. */
  function Decoded(t: string): seq<Byte>
  {
    if |t| < 2 then []
    else if |t| == 2 then [Stored(PairValue(t[0], t[1]))]
    else
      var x := PairValue(t[0], t[1]) + Table(t[2]) * 2025;
      [Stored(TruncDiv(x, 256)), Stored(x - TruncDiv(x, 256) * 256)] + Decoded(t[3..])
  }

  lemma {:induction false} PairDecodes(b: Byte)
    ensures Decoded(Pair(b)) == [b]
  {
    TableInverts(b % 45);
    TableInverts(b / 45);
    hide Symbol, Table;
  }

  lemma {:induction false} ThreeDigits(x: Byte, y: Byte)
    ensures var n := Whole(x, y);
            && n % 2025 % 45 + 45 * (n % 2025 / 45) + (n / 2025) * 2025 == n
            && Stored(TruncDiv(n, 256)) == x && Stored(n - TruncDiv(n, 256) * 256) == y
            && 0 <= n / 2025 < 45 && 0 <= n % 2025 / 45 < 45
  {
    var n := Whole(x, y);
    DivMod(n, 2025);
    DivMod(n % 2025, 45);
    DivModUnique(n, 256, x, y);
    ModSmall(x, 256);
    ModSmall(y, 256);
    DivBound(n, 45, 2025);
    DivBound(n % 2025, 45, 45);
  }

  lemma {:induction false} TripleDecodes(x: Byte, y: Byte, rest: string)
    ensures Decoded(Triple(x, y) + rest) == [x, y] + Decoded(rest)
  {
    hide Symbol, Table, TruncDiv, Stored, Whole;
    var n := Whole(x, y);
    ThreeDigits(x, y);
    TableInverts(n % 2025 % 45);
    TableInverts(n % 2025 / 45);
    TableInverts(n / 2025);
    var t := Triple(x, y) + rest;
    assert t[3..] == rest;
    assert PairValue(t[0], t[1]) + Table(t[2]) * 2025 == n;
  }

  /** Decoding inverts encoding. */
  lemma {:induction false} DecodeEncode(s: seq<Byte>)
    ensures Decoded(Encoded(s)) == s
    decreases |s|
  {
    hide Pair, Triple, Decoded;
    if s == [] {
      NothingDecoded();
    } else if |s| == 1 {
      PairDecodes(s[0]);
      assert s == [s[0]];
    } else {
      DecodeEncode(s[2..]);
      TripleDecodes(s[0], s[1], Encoded(s[2..]));
      assert s == [s[0], s[1]] + s[2..];
    }
  }

  lemma {:induction false} NothingDecoded()
    ensures Decoded("") == []
  {
  }

  /** `base45_encode` */
  method Encode(data: seq<Byte>) returns (result: string)
    ensures result == Encoded(data)
  {
    hide Symbol;
    result := "";
    var i := 0;
    assert data[0..] == data;
    while i < |data|
      invariant 0 <= i <= |data|
      invariant result + Encoded(data[i..]) == Encoded(data)
      decreases |data| - i
    {
      if |data| - i > 1 {
        var x := Whole(data[i], data[i + 1]);
        var e := x / 2025;
        x := x % 2025;
        var d, c := x / 45, x % 45;
        assert data[i..][2..] == data[i + 2..];
        result := result + [Symbol(c), Symbol(d), Symbol(e)];
        i := i + 2;
      } else {
        var x := data[i];
        result := result + [Symbol(x % 45), Symbol(x / 45)];
        i := i + 1;
        assert data[i..] == [];
      }
    }
    assert data[i..] == [];
  }

  /** `base45_decode` */
  method Decode(data: string) returns (result: seq<Byte>)
    ensures result == Decoded(data)
  {
    hide Table;
    result := [];
    var i := 0;
    assert data[0..] == data;
    while |data| - i >= 2
      invariant 0 <= i <= |data|
      invariant result + Decoded(data[i..]) == Decoded(data)
      decreases |data| - i
    {
      var a, b := Table(data[i]), Table(data[i + 1]);
      var x := a + 45 * b;
      if |data| - i >= 3 {
        a := Table(data[i + 2]);
        x := x + a * 45 * 45;
        assert data[i..][3..] == data[i + 3..];
        result := result + [Stored(TruncDiv(x, 256))];
        x := x - TruncDiv(x, 256) * 256;
        result := result + [Stored(x)];
        i := i + 3;
      } else {
        result := result + [Stored(x)];
        i := i + 2;
        assert data[i..] == "";
      }
    }
  }

  // ---------------------------------------------------------------------
  // What text and bytes mean
  // ---------------------------------------------------------------------

  /** The alphabet of section 4.2 of RFC 9285. */
  function Alphabet(): (s: string)
    ensures |s| == 45
  {
    "0123456789" + "ABCDEFGHIJKLMNOPQRSTUVWXYZ" + " $%*+-./:"
  }

  lemma {:induction false} SymbolIs(v: nat)
    requires v < 45
    ensures Symbol(v) == Alphabet()[v]
  {
    var digits, letters, rest := "0123456789", "ABCDEFGHIJKLMNOPQRSTUVWXYZ", " $%*+-./:";
    if v < 10 {
      assert digits[v] == ('0' as int + v) as char;
    } else if v < 36 {
      assert letters[v - 10] == ('A' as int + (v - 10)) as char;
    } else {
      assert Alphabet()[v] == rest[v - 36];
    }
  }

  /** The table: a character of the alphabet has its place, small letters those of the great ones, two brackets 35. */
  lemma {:induction false} TableIs(c: char)
    ensures forall v :: 0 <= v < 45 && Alphabet()[v] == c ==> Table(c) == v
    ensures 'a' <= c <= 'z' ==> Table(c) == Table((c as int - 32) as char)
    ensures c == '[' || c == '{' ==> Table(c) == 35
    ensures c !in Alphabet() && !('a' <= c <= 'z') && c != '[' && c != '{' ==> Table(c) == -1
  {
    forall v | 0 <= v < 45
      ensures Alphabet()[v] == c ==> Table(c) == v
    {
      SymbolIs(v);
      TableInverts(v);
    }
    if Table(c) != -1 && !('a' <= c <= 'z') && c != '[' && c != '{' {
      var v: nat := Table(c);
      TableSymbol(c);
      SymbolIs(v);
      assert Alphabet()[v] == c;
    }
  }

  lemma {:induction false} TableSymbol(c: char)
    requires Table(c) != -1 && !('a' <= c <= 'z') && c != '[' && c != '{'
    ensures 0 <= Table(c) < 45 && Symbol(Table(c)) == c
  {
  }

  /** Three characters are the digits of n in base 45, least significant first. */
  ghost predicate ThreeSpell(p: char, q: char, r: char, n: int)
  {
    exists c: nat, d: nat, e: nat ::
      c < 45 && d < 45 && e < 45 && c + 45 * d + 2025 * e == n
      && p == Alphabet()[c] && q == Alphabet()[d] && r == Alphabet()[e]
  }

  ghost predicate TwoSpell(p: char, q: char, n: int)
  {
    exists c: nat, d: nat :: c < 45 && d < 45 && c + 45 * d == n && p == Alphabet()[c] && q == Alphabet()[d]
  }

  /** Two bytes are three characters, and a last single byte is two. */
  lemma {:induction false} EncodedIs(s: seq<Byte>, k: nat)
    requires 2 * k < |s|
    ensures |Encoded(s)| == 3 * (|s| / 2) + 2 * (|s| % 2)
    ensures var t := Encoded(s);
            if 2 * k + 1 < |s| then ThreeSpell(t[3 * k], t[3 * k + 1], t[3 * k + 2], Whole(s[2 * k], s[2 * k + 1]))
            else TwoSpell(t[3 * k], t[3 * k + 1], s[2 * k])
    decreases |s|
  {
    hide Symbol, Alphabet, ThreeSpell, TwoSpell;
    EncodedLength(s);
    if k > 0 {
      EncodedIs(s[2..], k - 1);
      EncodedBehind(s);
    } else if |s| > 1 {
      TripleIs(s[0], s[1]);
    } else {
      PairIs(s[0]);
    }
  }

  lemma {:induction false} EncodedBehind(s: seq<Byte>)
    requires |s| > 1
    ensures Encoded(s)[3..] == Encoded(s[2..])
  {
    hide Symbol;
  }

  lemma {:induction false} EncodedLength(s: seq<Byte>)
    ensures |Encoded(s)| == 3 * (|s| / 2) + 2 * (|s| % 2)
    decreases |s|
  {
    hide Symbol;
    if |s| > 1 {
      EncodedLength(s[2..]);
    }
  }

  lemma {:induction false} TripleIs(x: Byte, y: Byte)
    ensures var t := Triple(x, y); ThreeSpell(t[0], t[1], t[2], Whole(x, y))
  {
    hide Symbol, Alphabet;
    var n := Whole(x, y);
    ThreeDigits(x, y);
    var c: nat, d: nat, e: nat := n % 2025 % 45, n % 2025 / 45, n / 2025;
    SymbolIs(c);
    SymbolIs(d);
    SymbolIs(e);
    assert c + 45 * d + 2025 * e == n;
  }

  lemma {:induction false} PairIs(b: Byte)
    ensures TwoSpell(Pair(b)[0], Pair(b)[1], b)
  {
    hide Symbol, Alphabet;
    var c: nat, d: nat := b % 45, b / 45;
    SymbolIs(c);
    SymbolIs(d);
    assert c + 45 * d == b;
  }

  /** What three characters give, known or not: division toward zero, and both parts cut to a byte. */
  lemma {:induction false} DecodedAny(t: string, k: nat)
    requires 3 * k + 2 < |t|
    ensures |Decoded(t)| >= 2 * k + 2
    ensures var x := Table(t[3 * k]) + 45 * Table(t[3 * k + 1]) + 2025 * Table(t[3 * k + 2]);
            var q := if x >= 0 then x / 256 else -((-x) / 256);
            Decoded(t)[2 * k] as int == q % 256 && Decoded(t)[2 * k + 1] as int == (x - 256 * q) % 256
    decreases |t|
  {
    hide Table, Decoded;
    if k > 0 {
      DecodedAny(t[3..], k - 1);
      DecodedBehind(t);
      DecodedLength(t);
    } else {
      FirstAny(t);
    }
  }

  lemma {:induction false} FirstAny(t: string)
    requires |t| >= 3
    ensures var x := Table(t[0]) + 45 * Table(t[1]) + 2025 * Table(t[2]);
            |Decoded(t)| >= 2 && Decoded(t)[0] == Stored(TruncDiv(x, 256))
            && Decoded(t)[1] == Stored(x - 256 * TruncDiv(x, 256))
  {
    hide Table, Stored, TruncDiv;
  }

  /** Three known digits are two bytes modulo 2^16, two known digits at the end one byte modulo 2^8. */
  lemma {:induction false} DecodedIs(t: string, k: nat)
    requires 3 * k + 1 < |t| && Table(t[3 * k]) >= 0 && Table(t[3 * k + 1]) >= 0
    requires 3 * k + 2 < |t| ==> Table(t[3 * k + 2]) >= 0
    ensures |Decoded(t)| == 2 * (|t| / 3) + (if |t| % 3 == 2 then 1 else 0)
    ensures var low := Table(t[3 * k]) + 45 * Table(t[3 * k + 1]);
            if 3 * k + 2 < |t|
            then Whole(Decoded(t)[2 * k], Decoded(t)[2 * k + 1]) == (low + 2025 * Table(t[3 * k + 2])) % 65536
            else Decoded(t)[2 * k] as int == low % 256
    decreases |t|
  {
    hide Table, Stored, TruncDiv;
    DecodedLength(t);
    if k > 0 {
      DecodedIs(t[3..], k - 1);
      DecodedBehind(t);
    } else if |t| > 2 {
      StoredWhole(PairValue(t[0], t[1]) + Table(t[2]) * 2025);
    } else {
      StoredIs(PairValue(t[0], t[1]));
    }
  }

  lemma {:induction false} DecodedBehind(t: string)
    requires |t| > 2
    ensures Decoded(t)[2..] == Decoded(t[3..])
  {
    hide Table, Stored, TruncDiv;
  }

  lemma {:induction false} StoredIs(x: int)
    ensures Stored(x) as int == x % 256
  {
  }

  lemma {:induction false} StoredWhole(x: nat)
    ensures Whole(Stored(TruncDiv(x, 256)), Stored(x - TruncDiv(x, 256) * 256)) == x % 65536
  {
    var h, l := x / 256, x % 256;
    DivMod(h, 256);
    ModSmall(l, 256);
    DivModUnique(x, 65536, h / 256, (h % 256) * 256 + l);
  }

  // ---------------------------------------------------------------------
  // Unknown characters
  // ---------------------------------------------------------------------

  /**
   The tests against 255 never hold on signed characters: the length of the text alone decides the length of the
   bytes.
   */
  lemma {:induction false} DecodedLength(t: string)
    ensures |Decoded(t)| == 2 * (|t| / 3) + (if |t| % 3 == 2 then 1 else 0)
    decreases |t|
  {
    hide Table;
    if |t| >= 3 {
      DecodedLength(t[3..]);
    }
  }

  /** The decoder as it would be with unsigned characters: it stops in front of a group with an unknown character. */
  function DecodedUnsigned(t: string): seq<Byte>
  {
    if |t| < 2 || Table(t[0]) == -1 || Table(t[1]) == -1 || (|t| > 2 && Table(t[2]) == -1) then []
    else if |t| == 2 then Decoded(t)
    else Decoded(t[..3]) + DecodedUnsigned(t[3..])
  }

  /** The characters that are looked at: all but a single last one. */
  function Examined(t: string): nat
  {
    if |t| % 3 == 1 then |t| - 1 else |t|
  }

  ghost predicate AllKnown(t: string)
  {
    forall i :: 0 <= i < Examined(t) ==> Table(t[i]) != -1
  }

  ghost predicate ThreeKnown(t: string)
    requires |t| >= 3
  {
    Table(t[0]) != -1 && Table(t[1]) != -1 && Table(t[2]) != -1
  }

  lemma {:induction false} KnownInGroups(t: string)
    requires |t| >= 3
    ensures AllKnown(t) <==> ThreeKnown(t) && AllKnown(t[3..])
  {
    hide Table;
    var rest := t[3..];
    assert Examined(t) == Examined(rest) + 3;
    assert forall i :: 0 <= i < Examined(rest) ==> rest[i] == t[i + 3];
    assert forall i :: 3 <= i < Examined(t) ==> t[i] == rest[i - 3];
  }

  lemma {:induction false} SameBehind(a: seq<Byte>, x: seq<Byte>, y: seq<Byte>)
    ensures a + x == a + y <==> x == y
    ensures x <= y ==> a + x <= a + y
  {
    assert (a + x)[|a|..] == x && (a + y)[|a|..] == y;
  }

  /** Such a build gives a prefix, and the same bytes if and only if every character that is looked at is known. */
  lemma {:induction false} UnsignedSameExactlyWhen(t: string)
    ensures DecodedUnsigned(t) <= Decoded(t)
    ensures DecodedUnsigned(t) == Decoded(t) <==> forall i :: 0 <= i < Examined(t) ==> Table(t[i]) != -1
    decreases |t|
  {
    hide Table, Stored, TruncDiv, Decoded;
    DecodedLength(t);
    if |t| >= 3 {
      var rest := t[3..];
      UnsignedSameExactlyWhen(rest);
      FirstGroup(t);
      KnownInGroups(t);
      SameBehind(Decoded(t[..3]), DecodedUnsigned(rest), Decoded(rest));
      UnsignedGroup(t);
      hide Examined;
    }
  }

  lemma {:induction false} UnsignedGroup(t: string)
    requires |t| >= 3
    ensures DecodedUnsigned(t) == if ThreeKnown(t) then Decoded(t[..3]) + DecodedUnsigned(t[3..]) else []
  {
    hide Table, Decoded;
  }

  lemma {:induction false} FirstGroup(t: string)
    requires |t| >= 3
    ensures Decoded(t) == Decoded(t[..3]) + Decoded(t[3..]) && |Decoded(t[..3])| == 2
  {
    hide Table, Stored;
    assert t[..3][3..] == "";
    NothingDecoded();
  }
}

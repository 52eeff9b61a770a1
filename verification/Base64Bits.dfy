/**
 * What base 64 text means, without reference to the other direction: the characters of a text are sextets that hold
 * the bits of the bytes, most significant first, and the decoder gives the whole bytes of the sextets it reads.
 */
module Base64Bits {
  import opened Words
  import opened Radix
  import opened Bytes
  import opened Base64

  /** The number of a sextet string, most significant first. */
  function Number(q: seq<Sextet>): nat
  {
    if q == [] then 0 else Number(q[..|q| - 1]) * 64 + q[|q| - 1]
  }

  lemma {:induction false} NumberConcat(q: seq<Sextet>, r: seq<Sextet>)
    ensures Number(q + r) == Number(q) * Pow(64, |r|) + Number(r)
    decreases |r|
  {
    if r == [] {
      assert q + r == q;
      assert Pow(64, 0) == 1;
    } else {
      var u := r[..|r| - 1];
      NumberConcat(q, u);
      assert (q + r)[..|q + r| - 1] == q + u;
      ConcatStep(Number(q), Pow(64, |u|), Number(u), 64, r[|r| - 1]);
    }
  }

  lemma {:induction false} PowOf64(n: nat)
    ensures Pow(64, n) == Pow2(6 * n)
  {
    if n > 0 {
      PowOf64(n - 1);
      Pow2Add(6, 6 * (n - 1));
      assert Pow2(6) == 64 by { Pow2Add(3, 3); assert Pow2(3) == 8; }
    } else {
      assert Pow(64, 0) == 1 && Pow2(0) == 1;
    }
  }

  /** The sextets hold the bits of the bytes, followed by less than one sextet of zero bits. */
  ghost predicate HoldsBits(q: seq<Sextet>, s: seq<Byte>)
  {
    0 <= 6 * |q| - 8 * |s| < 6 && Number(q) == BytesValue(s) * Pow2(6 * |q| - 8 * |s|)
  }

  /** The text writes the sextets in the alphabet, and fills its last four characters up with `=` if it is padded. */
  ghost predicate Spells(t: string, q: seq<Sextet>, alphabet: string, padding: bool)
    requires |alphabet| == 64
  {
    && |t| == (if padding then 4 * ((|q| + 3) / 4) else |q|)
    && (forall i :: 0 <= i < |q| ==> t[i] == alphabet[q[i]])
    && (forall i :: |q| <= i < |t| ==> t[i] == '=')
  }

  function Four(x: Byte, y: Byte, z: Byte): seq<Sextet>
  {
    [First(x), Second(x, y), Third(y, z), Fourth(z)]
  }

  lemma {:induction false} FourHold(x: Byte, y: Byte, z: Byte)
    ensures Number(Four(x, y, z)) == x * 65536 + y * 256 + z
    ensures Number(Four(x, y, 0)[..3]) == (x * 256 + y) * 4 && Number(Four(x, 0, 0)[..2]) == x * 16
  {
    FourNumber(First(x), Second(x, y), Third(y, z), Fourth(z));
    FourNumber(First(x), Second(x, y), Third(y, 0), Fourth(0));
    FourNumber(First(x), Second(x, 0), Third(0, 0), Fourth(0));
  }

  lemma {:induction false} FourNumber(a: Sextet, b: Sextet, c: Sextet, d: Sextet)
    ensures var q := [a, b, c, d];
            && Number(q[..1]) == a && Number(q[..2]) == a * 64 + b && Number(q[..3]) == a * 4096 + b * 64 + c
            && Number(q) == a * 262144 + b * 4096 + c * 64 + d
  {
    var q := [a, b, c, d];
    assert q[..1][..0] == [] && q[..2][..1] == q[..1] && q[..3][..2] == q[..2] && q[..3] == q[..|q| - 1];
  }

  lemma {:induction false} ThreeBytes(x: Byte, y: Byte, z: Byte)
    ensures BytesValue([x]) == x && BytesValue([x, y]) == x * 256 + y
    ensures BytesValue([x, y, z]) == x * 65536 + y * 256 + z
  {
    assert [x][..0] == [] && [x, y][..1] == [x] && [x, y, z][..2] == [x, y];
  }

  /** A group in front of what holds the rest holds the whole. */
  lemma {:induction false} GroupInFront(q4: seq<Sextet>, s3: seq<Byte>, q: seq<Sextet>, s: seq<Byte>)
    requires |q4| == 4 && |s3| == 3 && Number(q4) == BytesValue(s3) && HoldsBits(q, s)
    ensures HoldsBits(q4 + q, s3 + s)
  {
    hide Number, BytesValue, Pow, Pow2;
    var e, v := 6 * |q| - 8 * |s|, BytesValue(s3);
    NumberConcat(q4, q);
    BytesConcat(s3, s);
    PowOf64(|q|);
    PowOf256(|s|);
    Pow2Add(8 * |s|, e);
    Associate(v, Pow2(8 * |s|), Pow2(e));
    Distribute(v * Pow2(8 * |s|), BytesValue(s), Pow2(e));
  }

  /** The text of any byte string, padded or not, spells sextets that hold its bits. */
  lemma {:induction false} EncodedSpells(s: seq<Byte>, alphabet: string, padding: bool) returns (q: seq<Sextet>)
    requires |alphabet| == 64
    ensures Spells(Encoded(s, alphabet, padding), q, alphabet, padding) && HoldsBits(q, s)
    decreases |s|
  {
    hide First, Second, Third, Fourth, Spells, HoldsBits, Number, BytesValue;
    if |s| < 3 {
      q := ShortSpells(s, alphabet, padding);
    } else {
      var rest := EncodedSpells(s[3..], alphabet, padding);
      var four, three := Four(s[0], s[1], s[2]), [s[0], s[1], s[2]];
      q := four + rest;
      FourHold(s[0], s[1], s[2]);
      ThreeBytes(s[0], s[1], s[2]);
      assert s == three + s[3..];
      GroupInFront(four, three, rest, s[3..]);
      var quad := [alphabet[four[0]], alphabet[four[1]], alphabet[four[2]], alphabet[four[3]]];
      SpellsInFront(quad, Encoded(s[3..], alphabet, padding), four, rest, alphabet, padding);
    }
  }

  lemma {:induction false} SpellsInFront(
    quad: string, t: string, four: seq<Sextet>, q: seq<Sextet>, alphabet: string, padding: bool)
    requires |alphabet| == 64 && |four| == 4 && Spells(t, q, alphabet, padding)
    requires quad == [alphabet[four[0]], alphabet[four[1]], alphabet[four[2]], alphabet[four[3]]]
    ensures Spells(quad + t, four + q, alphabet, padding)
  {
    var u, r := quad + t, four + q;
    assert forall i :: 4 <= i < |u| ==> u[i] == t[i - 4];
    assert forall i :: 4 <= i < |r| ==> r[i] == q[i - 4];
  }

  lemma {:induction false} ShortSpells(s: seq<Byte>, alphabet: string, padding: bool) returns (q: seq<Sextet>)
    requires |alphabet| == 64 && |s| < 3
    ensures Spells(Encoded(s, alphabet, padding), q, alphabet, padding) && HoldsBits(q, s)
  {
    hide First, Second, Third, Fourth;
    SmallPowers();
    if s == [] {
      q := [];
    } else if |s| == 1 {
      q := Four(s[0], 0, 0)[..2];
      FourHold(s[0], 0, 0);
      ThreeBytes(s[0], 0, 0);
      assert s == [s[0]];
    } else {
      q := Four(s[0], s[1], 0)[..3];
      FourHold(s[0], s[1], 0);
      ThreeBytes(s[0], s[1], 0);
      assert s == [s[0], s[1]];
    }
  }

  lemma {:induction false} SmallPowers()
    ensures Pow2(0) == 1 && Pow2(2) == 4 && Pow2(4) == 16 && Pow2(6) == 64
  {
    assert Pow2(3) == 8;
    Pow2Add(3, 3);
  }

  /** What `encode64` writes. */
  method EncodeBits(alphabet: string, value: seq<Byte>, padding: bool) returns (result: string)
    requires |alphabet| == 64
    ensures exists q: seq<Sextet> :: Spells(result, q, alphabet, padding) && HoldsBits(q, value)
    ensures |result| == if padding then 4 * ((|value| + 2) / 3) else (4 * |value| + 2) / 3
  {
    hide Encoded, Spells, HoldsBits;
    result := Encode(alphabet, value, padding);
    ghost var q := EncodedSpells(value, alphabet, padding);
    SpelledLength(result, q, value, alphabet, padding);
  }

  lemma {:induction false} SpelledLength(t: string, q: seq<Sextet>, s: seq<Byte>, alphabet: string, padding: bool)
    requires |alphabet| == 64 && Spells(t, q, alphabet, padding) && HoldsBits(q, s)
    ensures |t| == if padding then 4 * ((|s| + 2) / 3) else (4 * |s| + 2) / 3
  {
    hide Number, BytesValue, Pow2;
    var k, r := |s| / 3, |s| % 3;
    assert |q| == 4 * k + (if r == 0 then 0 else r + 1);
  }

  // ---------------------------------------------------------------------
  // Decoding
  // ---------------------------------------------------------------------

  /** The place of a character is its first one in the alphabet, or 63. */
  lemma {:induction false} OffsetIs(alphabet: string, c: char, i: nat)
    requires |alphabet| == 64 && i <= 64
    ensures var r := OffsetOf(alphabet, c, i);
            if exists j :: i <= j < 64 && alphabet[j] == c
            then i <= r && alphabet[r] == c && forall j :: i <= j < r ==> alphabet[j] != c
            else r == 63
    decreases 64 - i
  {
    if i < 64 && alphabet[i] != c {
      OffsetIs(alphabet, c, i + 1);
    }
  }

  /** The sextets of the characters before the first at which the decoder stops. */
  function Read(t: string, alphabet: string, accepts: char -> bool): seq<Sextet>
    requires |alphabet| == 64
  {
    if t == "" || t[0] == '=' || !accepts(t[0]) then []
    else [OffsetOf(alphabet, t[0], 0)] + Read(t[1..], alphabet, accepts)
  }

  /** The bytes are the whole bytes of the sextets: a rest of less than eight bits is dropped. */
  ghost predicate HeldBytes(s: seq<Byte>, q: seq<Sextet>)
  {
    0 <= 6 * |q| - 8 * |s| < 8 && BytesValue(s) == Number(q) / Pow2(6 * |q| - 8 * |s|)
  }

  lemma {:induction false} DecodedHolds(t: string, alphabet: string, accepts: char -> bool)
    requires |alphabet| == 64
    ensures HeldBytes(Decoded(t, alphabet, accepts), Read(t, alphabet, accepts))
    decreases |t|
  {
    hide OffsetOf, ByteOne, ByteTwo, ByteThree;
    var q := Read(t, alphabet, accepts);
    if |q| < 4 {
      ShortHolds(t, alphabet, accepts);
    } else {
      ReadFour(t, alphabet, accepts);
      DecodedHolds(t[4..], alphabet, accepts);
      var a, b := OffsetOf(alphabet, t[0], 0), OffsetOf(alphabet, t[1], 0);
      var c, d := OffsetOf(alphabet, t[2], 0), OffsetOf(alphabet, t[3], 0);
      hide Read, Decoded, Number;
      GroupHeld([ByteOne(a, b), ByteTwo(b, c), ByteThree(c, d)], a, b, c, d, Decoded(t[4..], alphabet, accepts),
                Read(t[4..], alphabet, accepts));
    }
  }

  lemma {:induction false} ReadFour(t: string, alphabet: string, accepts: char -> bool)
    requires |alphabet| == 64 && |Read(t, alphabet, accepts)| >= 4
    ensures |t| >= 4
    ensures Read(t, alphabet, accepts)
            == [OffsetOf(alphabet, t[0], 0), OffsetOf(alphabet, t[1], 0),
                OffsetOf(alphabet, t[2], 0), OffsetOf(alphabet, t[3], 0)] + Read(t[4..], alphabet, accepts)
    ensures Decoded(t, alphabet, accepts)
            == Group(t[0], t[1], t[2], t[3], alphabet) + Decoded(t[4..], alphabet, accepts)
  {
    hide OffsetOf, Group;
    var u := t[1..];
    assert |Read(u, alphabet, accepts)| >= 3;
    assert |Read(u[1..], alphabet, accepts)| >= 2;
    assert |Read(u[1..][1..], alphabet, accepts)| >= 1;
    assert u[1..] == t[2..] && u[1..][1..] == t[3..] && t[3..][1..] == t[4..];
  }

  lemma {:induction false} ReadFirst(t: string, alphabet: string, accepts: char -> bool)
    requires |alphabet| == 64
    ensures var q := Read(t, alphabet, accepts);
            if q == [] then t == "" || Stops(t[0], accepts)
            else
              t != "" && !Stops(t[0], accepts) && q[0] == OffsetOf(alphabet, t[0], 0)
              && q[1..] == Read(t[1..], alphabet, accepts)
  {
    hide OffsetOf;
  }

  lemma {:induction false} ShortHolds(t: string, alphabet: string, accepts: char -> bool)
    requires |alphabet| == 64 && |Read(t, alphabet, accepts)| < 4
    ensures HeldBytes(Decoded(t, alphabet, accepts), Read(t, alphabet, accepts))
  {
    hide OffsetOf, ByteOne, ByteTwo, ByteThree, HeldBytes, Number, BytesValue, Read, Stops;
    var q := Read(t, alphabet, accepts);
    var s := Decoded(t, alphabet, accepts);
    ReadFirst(t, alphabet, accepts);
    if q == [] {
      TailHeld(0, 0, 0);
    } else {
      ReadFirst(t[1..], alphabet, accepts);
      if |q| == 1 {
        assert s == [] && q == [q[0]];
        TailHeld(q[0], 0, 0);
      } else {
        assert t[1..][1..] == t[2..];
        ReadFirst(t[2..], alphabet, accepts);
        assert q[1..][0] == q[1];
        if |q| == 2 {
          assert s == [ByteOne(q[0], q[1])] && q == [q[0], q[1]];
          TailHeld(q[0], q[1], 0);
        } else {
          assert t[2..][1..] == t[3..];
          assert q[1..][1..][0] == q[2];
          ReadFirst(t[3..], alphabet, accepts);
          assert s == [ByteOne(q[0], q[1]), ByteTwo(q[1], q[2])] && q == [q[0], q[1], q[2]];
          TailHeld(q[0], q[1], q[2]);
        }
      }
    }
  }

  /** What an incomplete group gives. */
  lemma {:induction false} TailHeld(a: Sextet, b: Sextet, c: Sextet)
    ensures HeldBytes([], []) && HeldBytes([], [a]) && HeldBytes([ByteOne(a, b)], [a, b])
    ensures HeldBytes([ByteOne(a, b), ByteTwo(b, c)], [a, b, c])
  {
    SmallPowers();
    hide Pow2, ByteOne, ByteTwo, ByteThree;
    FourNumber(a, b, c, 0);
    ThreeBytes(ByteOne(a, b), ByteTwo(b, c), 0);
    TailPacked(a, b, c);
    var q := [a, b, c, 0];
    assert [a] == q[..1] && [a, b] == q[..2] && [a, b, c] == q[..3];
    assert Number([]) == 0 && BytesValue([]) == 0;
    hide Number, BytesValue;
  }

  lemma {:induction false} TailPacked(a: Sextet, b: Sextet, c: Sextet)
    ensures a / 64 == 0 && ByteOne(a, b) == (a * 64 + b) / 16
    ensures ByteOne(a, b) * 256 + ByteTwo(b, c) == (a * 4096 + b * 64 + c) / 4
  {
  }

  lemma {:induction false} GroupHeld(
    s3: seq<Byte>, a: Sextet, b: Sextet, c: Sextet, d: Sextet, s: seq<Byte>, q: seq<Sextet>)
    requires s3 == [ByteOne(a, b), ByteTwo(b, c), ByteThree(c, d)] && HeldBytes(s, q)
    ensures HeldBytes(s3 + s, [a, b, c, d] + q)
  {
    hide Number, BytesValue, Pow, Pow2, ByteOne, ByteTwo, ByteThree;
    FourNumber(a, b, c, d);
    ThreeBytes(ByteOne(a, b), ByteTwo(b, c), ByteThree(c, d));
    FourPacked(a, b, c, d);
    var v, e := BytesValue(s3), 6 * |q| - 8 * |s|;
    NumberConcat([a, b, c, d], q);
    BytesConcat(s3, s);
    PowOf64(|q|);
    PowOf256(|s|);
    Pow2Add(8 * |s|, e);
    Associate(v, Pow2(8 * |s|), Pow2(e));
    DivShifted(v * Pow2(8 * |s|), Pow2(e), Number(q));
  }

  lemma {:induction false} FourPacked(a: Sextet, b: Sextet, c: Sextet, d: Sextet)
    ensures ByteOne(a, b) * 65536 + ByteTwo(b, c) * 256 + ByteThree(c, d) == a * 262144 + b * 4096 + c * 64 + d
  {
  }

  lemma {:induction false} DivShifted(x: nat, p: nat, y: nat)
    requires p > 0
    ensures (x * p + y) / p == x + y / p
  {
    DivMod(y, p);
    Distribute(x, y / p, p);
    DivModUnique(x * p + y, p, x + y / p, y % p);
  }

  /** The alphabets of sections 4 and 5 of RFC 4648. */
  lemma {:induction false} AlphabetsAre()
    ensures Alphabet('+', '/') == "ABCDEFGHIJKLMNOPQRSTUVWXYZ" + "abcdefghijklmnopqrstuvwxyz" + "0123456789" + "+/"
    ensures Alphabet('-', '_') == "ABCDEFGHIJKLMNOPQRSTUVWXYZ" + "abcdefghijklmnopqrstuvwxyz" + "0123456789" + "-_"
  {
    AlphabetIs('+', '/');
    AlphabetIs('-', '_');
  }

  lemma {:induction false} AlphabetIs(plus: char, slash: char)
    ensures Alphabet(plus, slash)
            == "ABCDEFGHIJKLMNOPQRSTUVWXYZ" + "abcdefghijklmnopqrstuvwxyz" + "0123456789" + [plus, slash]
  {
    var upper, lower, digits := "ABCDEFGHIJKLMNOPQRSTUVWXYZ", "abcdefghijklmnopqrstuvwxyz", "0123456789";
    assert forall i :: 0 <= i < 26 ==> upper[i] == ('A' as int + i) as char;
    assert forall i :: 0 <= i < 26 ==> lower[i] == ('a' as int + i) as char;
    assert forall i :: 0 <= i < 10 ==> digits[i] == ('0' as int + i) as char;
    AlphabetParts(upper, lower, digits, plus, slash);
  }

  lemma {:induction false} AlphabetParts(upper: string, lower: string, digits: string, plus: char, slash: char)
    requires |upper| == 26 && |lower| == 26 && |digits| == 10
    requires forall i :: 0 <= i < 26 ==> upper[i] == ('A' as int + i) as char
    requires forall i :: 0 <= i < 26 ==> lower[i] == ('a' as int + i) as char
    requires forall i :: 0 <= i < 10 ==> digits[i] == ('0' as int + i) as char
    ensures Alphabet(plus, slash) == upper + lower + digits + [plus, slash]
  {
  }
}

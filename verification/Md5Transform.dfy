/**
 * What the block transform computes, said without its own definitions: the order of the message words, the
 * four mixing functions bit by bit, the bytes of words and digests, an inverse of the 64 operations
 * that gives the incoming registers back, and the digest of the empty message.
 */
module Md5Transform {
  import opened Words
  import opened Radix
  import opened Md5

  // ---------------------------------------------------------------------
  // Words and bits
  // ---------------------------------------------------------------------

  /** The word of operation k in each of the four rounds. */
  lemma {:induction false} WordOrder(k: nat)
    requires k < 16
    ensures WORDS[k] == k && WORDS[16 + k] == (5 * k + 1) % 16
    ensures WORDS[32 + k] == (3 * k + 5) % 16 && WORDS[48 + k] == (7 * k) % 16
  {
    hide WORDS, WORDS1, WORDS2, WORDS3, WORDS4;
    WordRows(k);
    FirstRow(k);
    SecondRow(k);
    ThirdRow(k);
    FourthRow(k);
  }

  lemma {:induction false} FirstRow(k: nat)
    requires k < 16
    ensures |WORDS1| == 16 && WORDS1[k] == k
  {
  }

  lemma {:induction false} SecondRow(k: nat)
    requires k < 16
    ensures |WORDS2| == 16 && WORDS2[k] == (5 * k + 1) % 16
  {
  }

  lemma {:induction false} ThirdRow(k: nat)
    requires k < 16
    ensures |WORDS3| == 16 && WORDS3[k] == (3 * k + 5) % 16
  {
  }

  lemma {:induction false} FourthRow(k: nat)
    requires k < 16
    ensures |WORDS4| == 16 && WORDS4[k] == (7 * k) % 16
  {
  }

  lemma {:induction false} WordRows(k: nat)
    requires k < 16
    ensures WORDS[k] == WORDS1[k] && WORDS[16 + k] == WORDS2[k]
    ensures WORDS[32 + k] == WORDS3[k] && WORDS[48 + k] == WORDS4[k]
  {
    assert |WORDS1| == |WORDS2| == |WORDS3| == |WORDS4| == 16;
    hide WORDS1, WORDS2, WORDS3, WORDS4;
  }

  /** The amounts of the four operations that follow each other, in each of the four rounds. */
  lemma {:induction false} ShiftAmounts()
    ensures SHIFTS == [7, 12, 17, 22] + [5, 9, 14, 20] + [4, 11, 16, 23] + [6, 10, 15, 21]
  {
  }

  function And(x: bv32, y: bv32): bv32 { x & y }
  function Or(x: bv32, y: bv32): bv32 { x | y }
  function Not(x: bv32): bv32 { !x }

  /** A mask of a single bit. */
  predicate IsBit(m: bv32)
  {
    m != 0 && m & (m - 1) == 0
  }

  predicate Has(x: bv32, m: bv32)
  {
    And(x, m) != 0
  }

  /** Bit by bit: F chooses by x, G chooses by z, H is the parity, I is y against x or not z. */
  lemma {:induction false} MixBits(x: bv32, y: bv32, z: bv32, m: bv32)
    requires IsBit(m)
    ensures Has(Mix(0, x, y, z), m) == if Has(x, m) then Has(y, m) else Has(z, m)
    ensures Has(Mix(16, x, y, z), m) == if Has(z, m) then Has(x, m) else Has(y, m)
    ensures Has(Mix(32, x, y, z), m) == ((Has(x, m) != Has(y, m)) != Has(z, m))
    ensures Has(Mix(48, x, y, z), m) == (Has(y, m) != (Has(x, m) || !Has(z, m)))
  {
    hide And, Or, Xor, Not, Mix, Has, IsBit;
    MixIs(x, y, z);
    AndBits(x, y, m);
    AndBits(Not(x), z, m);
    AndBits(x, z, m);
    AndBits(y, Not(z), m);
    NotBits(x, m);
    NotBits(z, m);
    OrBits(And(x, y), And(Not(x), z), m);
    OrBits(And(x, z), And(y, Not(z)), m);
    XorBits(x, y, m);
    XorBits(Xor(x, y), z, m);
    OrBits(x, Not(z), m);
    XorBits(y, Or(x, Not(z)), m);
  }

  lemma {:induction false} MixIs(x: bv32, y: bv32, z: bv32)
    ensures Mix(0, x, y, z) == Or(And(x, y), And(Not(x), z))
    ensures Mix(16, x, y, z) == Or(And(x, z), And(y, Not(z)))
    ensures Mix(32, x, y, z) == Xor(Xor(x, y), z)
    ensures Mix(48, x, y, z) == Xor(y, Or(x, Not(z)))
  {
    hide Mix, And, Or, Xor, Not;
    MixF(x, y, z);
    MixG(x, y, z);
    MixH(x, y, z);
    MixI(x, y, z);
  }

  lemma {:induction false} MixF(x: bv32, y: bv32, z: bv32)
    ensures Mix(0, x, y, z) == Or(And(x, y), And(Not(x), z))
  {
  }

  lemma {:induction false} MixG(x: bv32, y: bv32, z: bv32)
    ensures Mix(16, x, y, z) == Or(And(x, z), And(y, Not(z)))
  {
  }

  lemma {:induction false} MixH(x: bv32, y: bv32, z: bv32)
    ensures Mix(32, x, y, z) == Xor(Xor(x, y), z)
  {
    hide Xor;
  }

  lemma {:induction false} MixI(x: bv32, y: bv32, z: bv32)
    ensures Mix(48, x, y, z) == Xor(y, Or(x, Not(z)))
  {
  }

  lemma {:induction false} AndBits(x: bv32, y: bv32, m: bv32)
    requires IsBit(m)
    ensures Has(And(x, y), m) == (Has(x, m) && Has(y, m))
  {
    AllOrNothing(x, m);
    AllOrNothing(y, m);
    MaskedAnd(x, y, m);
    hide IsBit;
  }

  lemma {:induction false} OrBits(x: bv32, y: bv32, m: bv32)
    requires IsBit(m)
    ensures Has(Or(x, y), m) == (Has(x, m) || Has(y, m))
  {
    hide IsBit, And, Or;
    MaskedOr(x, y, m);
    OrIsZero(And(x, m), And(y, m));
  }

  lemma {:induction false} OrIsZero(a: bv32, b: bv32)
    ensures Or(a, b) == 0 <==> a == 0 && b == 0
  {
  }

  lemma {:induction false} XorBits(x: bv32, y: bv32, m: bv32)
    requires IsBit(m)
    ensures Has(Xor(x, y), m) == (Has(x, m) != Has(y, m))
  {
    AllOrNothing(x, m);
    AllOrNothing(y, m);
    MaskedXor(x, y, m);
    hide IsBit;
  }

  lemma {:induction false} NotBits(x: bv32, m: bv32)
    requires IsBit(m)
    ensures Has(Not(x), m) == !Has(x, m)
  {
    AllOrNothing(x, m);
    hide IsBit, Not, And;
    if And(x, m) == 0 {
      NotOfNothing(x, m);
    } else {
      NotOfAll(x, m);
    }
  }

  lemma {:induction false} NotOfNothing(x: bv32, m: bv32)
    requires And(x, m) == 0
    ensures And(Not(x), m) == m
  {
  }

  lemma {:induction false} NotOfAll(x: bv32, m: bv32)
    requires And(x, m) == m
    ensures And(Not(x), m) == 0
  {
  }

  /** A mask of one bit takes from a word either nothing or itself. */
  lemma {:induction false} AllOrNothing(x: bv32, m: bv32)
    requires IsBit(m)
    ensures m != 0 && (And(x, m) == 0 || And(x, m) == m)
  {
  }

  lemma {:induction false} MaskedAnd(x: bv32, y: bv32, m: bv32)
    ensures And(And(x, y), m) == And(And(x, m), And(y, m))
  {
  }

  lemma {:induction false} MaskedOr(x: bv32, y: bv32, m: bv32)
    ensures And(Or(x, y), m) == Or(And(x, m), And(y, m))
  {
  }

  lemma {:induction false} MaskedXor(x: bv32, y: bv32, m: bv32)
    ensures And(Xor(x, y), m) == Xor(And(x, m), And(y, m))
  {
  }

  lemma {:induction false} MixOfRound(round: nat, x: bv32, y: bv32, z: bv32)
    requires round < 64
    ensures Mix(round, x, y, z) == Mix(16 * (round / 16), x, y, z)
  {
  }

  /** A word of the block in base 256, least significant byte first. */
  lemma {:induction false} WordIs(block: seq<Octet>, i: WordIndex)
    requires |block| == 64
    ensures Word(block, i)
            == block[4 * i] as bv32 + 0x100 * (block[4 * i + 1] as bv32)
               + 0x1_0000 * (block[4 * i + 2] as bv32) + 0x100_0000 * (block[4 * i + 3] as bv32)
  {
  }

  /** The bytes of a register, by division. */
  lemma {:induction false} WordBytesAre(x: bv32)
    ensures |WordBytes(x)| == 4
    ensures WordBytes(x)[0] as bv32 == x % 256 && WordBytes(x)[1] as bv32 == (x / 0x100) % 256
    ensures WordBytes(x)[2] as bv32 == (x / 0x1_0000) % 256 && WordBytes(x)[3] as bv32 == x / 0x100_0000
  {
  }

  /** The digest: the four registers one after the other, each with its least significant byte first. */
  lemma {:induction false} EncodedAre(r: Registers, k: nat)
    requires k < 4
    ensures |Encoded(r)| == 16
    ensures var x := if k == 0 then r.a else if k == 1 then r.b else if k == 2 then r.c else r.d;
            && Encoded(r)[4 * k] as bv32 == x % 256
            && Encoded(r)[4 * k + 1] as bv32 == (x / 0x100) % 256
            && Encoded(r)[4 * k + 2] as bv32 == (x / 0x1_0000) % 256
            && Encoded(r)[4 * k + 3] as bv32 == x / 0x100_0000
  {
    WordBytesAre(r.a);
    WordBytesAre(r.b);
    WordBytesAre(r.c);
    WordBytesAre(r.d);
    hide WordBytes;
  }

  // ---------------------------------------------------------------------
  // Padding, RFC 1321 sections 3.1 and 3.2
  // ---------------------------------------------------------------------

  /** The message, the byte 0x80, zeros up to 56 modulo 64, and the number of bits modulo 2^64, byte by byte. */
  lemma {:induction false} PaddedIs(m: seq<Octet>)
    ensures forall j :: 0 <= j < 8 ==> Pow(256, j) > 0
    ensures var p := Padded(m);
            && |p| % 64 == 0 && |m| + 9 <= |p| < |m| + 9 + 64
            && p[..|m|] == m && p[|m|] == 0x80
            && (forall i :: |m| < i < |p| - 8 ==> p[i] == 0)
            && forall j :: 0 <= j < 8 ==> p[|p| - 8 + j] == ((8 * |m| % W64 / Pow(256, j)) % 256) as bv8
  {
    hide Padded, Repeat, Count, PaddingSize, Pow;
    forall j | 0 <= j < 8
      ensures Pow(256, j) > 0
    {
      PowPositive(256, j);
    }
    PaddedLength(m);
    var bits, tail := (8 * |m|) % W64, Count((8 * |m|) % W64, 8);
    var head := PaddedParts(m);
    var p := Padded(m);
    forall j | 0 <= j < 8
      ensures p[|p| - 8 + j] == ((bits / Pow(256, j)) % 256) as bv8
    {
      CountAt(bits, 8, j);
      assert p[|head| + j] == tail[j];
    }
  }

  lemma {:induction false} PaddedParts(m: seq<Octet>) returns (head: seq<Octet>)
    ensures Padded(m) == head + Count((8 * |m|) % W64, 8) && |head| == |m| + PaddingSize(|m|)
    ensures head[..|m|] == m && head[|m|] == 0x80 && forall i :: |m| < i < |head| ==> head[i] == 0
  {
    head := m + ([0x80] + Repeat<Octet>(0, PaddingSize(|m|) - 1));
    hide Count;
  }

  lemma {:induction false} CountAt(n: nat, width: nat, j: nat)
    requires j < width
    ensures Pow(256, j) > 0 && n / Pow(256, j) >= 0 && Count(n, width)[j] == ((n / Pow(256, j)) % 256) as bv8
    decreases width
  {
    PowPositive(256, j);
    if j == 0 {
      assert Pow(256, 0) == 1;
    } else {
      PowPositive(256, j - 1);
      CountAt(n / 256, width - 1, j - 1);
      DivOfDiv(n, 256, Pow(256, j - 1));
    }
  }

  // ---------------------------------------------------------------------
  // Going back
  // ---------------------------------------------------------------------

  function RotateRight(x: bv32, n: Shift): bv32
  {
    (x >> n) | (x << (32 - n))
  }

  function Less(x: bv32, y: bv32): bv32 { x - y }

  /** The registers before an operation, from those after it. */
  function Undone(t: Registers, block: seq<Octet>, round: nat): Registers
    requires |block| == 64 && round < 64
  {
    var sum := RotateRight(Less(t.b, t.c), SHIFTS[4 * (round / 16) + round % 4]);
    var a := Less(Less(Less(sum, SINES[round]), Word(block, WORDS[round])), Mix(round, t.c, t.d, t.a));
    Registers(a, t.c, t.d, t.a)
  }

  /** The registers before operation `to`, from those after the last. */
  function Unwound(t: Registers, block: seq<Octet>, to: nat): Registers
    requires |block| == 64 && to <= 64
    decreases 64 - to
  {
    if to == 64 then t else Undone(Unwound(t, block, to + 1), block, to)
  }

  function Minus(t: Registers, r: Registers): Registers
  {
    Registers(Less(t.a, r.a), Less(t.b, r.b), Less(t.c, r.c), Less(t.d, r.d))
  }

  /** The transform adds the incoming registers to the outcome of 64 operations that can be undone one by one. */
  lemma {:induction false} TransformUndone(r: Registers, block: seq<Octet>)
    requires |block| == 64
    ensures Unwound(Minus(Transform(r, block), r), block, 0) == r
  {
    hide Rounds, Unwound, Plus, Less;
    var t := Rounds(r, block, 0);
    TakenOff(r.a, t.a);
    TakenOff(r.b, t.b);
    TakenOff(r.c, t.c);
    TakenOff(r.d, t.d);
    RoundsUndone(r, block, 0);
  }

  lemma {:induction false} TakenOff(x: bv32, y: bv32)
    ensures Less(Plus(x, y), x) == y && Less(Plus(x, y), y) == x
  {
  }

  lemma {:induction false} RoundsUndone(r: Registers, block: seq<Octet>, round: nat)
    requires |block| == 64 && round <= 64
    ensures Unwound(Rounds(r, block, round), block, round) == r
    decreases 64 - round
  {
    hide Rounds, Unwound, Undone, Operated;
    if round < 64 {
      var r' := Operated(r, block, round);
      NextOperation(r, block, round);
      RoundsUndone(r', block, round + 1);
      OperationUndone(r, block, round);
      UnwoundStep(Rounds(r', block, round + 1), block, round);
    } else {
      NothingLeft(r, block);
    }
  }

  lemma {:induction false} UnwoundStep(t: Registers, block: seq<Octet>, to: nat)
    requires |block| == 64 && to < 64
    ensures Unwound(t, block, to) == Undone(Unwound(t, block, to + 1), block, to)
  {
    hide Undone;
  }

  lemma {:induction false} NothingLeft(r: Registers, block: seq<Octet>)
    requires |block| == 64
    ensures Rounds(r, block, 64) == r && Unwound(r, block, 64) == r
  {
    hide Undone, Mix, Word, RotateLeft, Plus;
  }

  /** One operation, as the rounds do it. */
  function Operated(r: Registers, block: seq<Octet>, round: nat): Registers
    requires |block| == 64 && round < 64
  {
    var sum := Plus(Plus(Plus(r.a, Mix(round, r.b, r.c, r.d)), Word(block, WORDS[round])), SINES[round]);
    Registers(r.d, Plus(RotateLeft(sum, SHIFTS[4 * (round / 16) + round % 4]), r.b), r.b, r.c)
  }

  lemma {:induction false} NextOperation(r: Registers, block: seq<Octet>, round: nat)
    requires |block| == 64 && round < 64
    ensures Rounds(r, block, round) == Rounds(Operated(r, block, round), block, round + 1)
  {
    hide Mix, Word, RotateLeft, Plus;
  }

  lemma {:induction false} OperationUndone(r: Registers, block: seq<Octet>, round: nat)
    requires |block| == 64 && round < 64
    ensures Undone(Operated(r, block, round), block, round) == r
  {
    hide Mix, Word, RotateLeft, RotateRight, SINES, WORDS, SHIFTS, Plus, Less;
    Lookups(round);
    var i := 4 * (round / 16) + round % 4;
    var n, m, w, k := SHIFTS[i], Mix(round, r.b, r.c, r.d), Word(block, WORDS[round]), SINES[round];
    var x := Plus(Plus(r.a, m), w);
    Amounts(i);
    Rotated(Plus(x, k), n);
    TakenOff(RotateLeft(Plus(x, k), n), r.b);
    TakenOff(x, k);
    TakenOff(Plus(r.a, m), w);
    TakenOff(r.a, m);
  }

  lemma {:induction false} Lookups(round: nat)
    requires round < 64
    ensures |SHIFTS| == 16 && |WORDS| == 64 && |SINES| == 64 && 0 <= 4 * (round / 16) + round % 4 < 16
  {
  }

  predicate IsAmount(n: Shift)
  {
    n in {4, 5, 6, 7, 9, 10, 11, 12, 14, 15, 16, 17, 20, 21, 22, 23}
  }

  lemma {:induction false} Amounts(i: nat)
    requires i < 16
    ensures |SHIFTS| == 16 && IsAmount(SHIFTS[i])
  {
  }

  lemma {:induction false} Rotated(x: bv32, n: Shift)
    requires IsAmount(n)
    ensures RotateRight(RotateLeft(x, n), n) == x
  {
    hide RotateLeft, RotateRight;
    Rotated4(x);
    Rotated5(x);
    Rotated6(x);
    Rotated7(x);
    Rotated9(x);
    Rotated10(x);
    Rotated11(x);
    Rotated12(x);
    Rotated14(x);
    Rotated15(x);
    Rotated16(x);
    Rotated17(x);
    Rotated20(x);
    Rotated21(x);
    Rotated22(x);
    Rotated23(x);
  }

  lemma {:induction false} Rotated4(x: bv32) ensures RotateRight(RotateLeft(x, 4), 4) == x { }
  lemma {:induction false} Rotated5(x: bv32) ensures RotateRight(RotateLeft(x, 5), 5) == x { }
  lemma {:induction false} Rotated6(x: bv32) ensures RotateRight(RotateLeft(x, 6), 6) == x { }
  lemma {:induction false} Rotated7(x: bv32) ensures RotateRight(RotateLeft(x, 7), 7) == x { }
  lemma {:induction false} Rotated9(x: bv32) ensures RotateRight(RotateLeft(x, 9), 9) == x { }
  lemma {:induction false} Rotated10(x: bv32) ensures RotateRight(RotateLeft(x, 10), 10) == x { }
  lemma {:induction false} Rotated11(x: bv32) ensures RotateRight(RotateLeft(x, 11), 11) == x { }
  lemma {:induction false} Rotated12(x: bv32) ensures RotateRight(RotateLeft(x, 12), 12) == x { }
  lemma {:induction false} Rotated14(x: bv32) ensures RotateRight(RotateLeft(x, 14), 14) == x { }
  lemma {:induction false} Rotated15(x: bv32) ensures RotateRight(RotateLeft(x, 15), 15) == x { }
  lemma {:induction false} Rotated16(x: bv32) ensures RotateRight(RotateLeft(x, 16), 16) == x { }
  lemma {:induction false} Rotated17(x: bv32) ensures RotateRight(RotateLeft(x, 17), 17) == x { }
  lemma {:induction false} Rotated20(x: bv32) ensures RotateRight(RotateLeft(x, 20), 20) == x { }
  lemma {:induction false} Rotated21(x: bv32) ensures RotateRight(RotateLeft(x, 21), 21) == x { }
  lemma {:induction false} Rotated22(x: bv32) ensures RotateRight(RotateLeft(x, 22), 22) == x { }
  lemma {:induction false} Rotated23(x: bv32) ensures RotateRight(RotateLeft(x, 23), 23) == x { }
}

/**
 * The digest of the empty message, worked out operation by operation: the value that section A.5 of RFC 1321
 * gives. It fixes every constant of the transform.
 */
module Md5Empty {
  import opened Words
  import opened Md5
  import opened Md5Transform

  /** The one block of the empty message: the word 0x80 and fifteen zero words. */
  ghost predicate OnlyMark(block: seq<Octet>)
  {
    |block| == 64 && forall i: WordIndex :: Word(block, i) == if i == 0 then 0x80 else 0
  }

  lemma {:induction false} EmptyBlock()
    ensures OnlyMark(Padded([]))
  {
    hide Word;
    EmptyPadded();
    var block := Padded([]);
    forall i: WordIndex
      ensures Word(block, i) == if i == 0 then 0x80 else 0
    {
      MarkedWord(block, i);
    }
  }

  lemma {:induction false} EmptyPadded()
    ensures var block := Padded([]);
            |block| == 64 && block[0] == 0x80 && forall i :: 1 <= i < 64 ==> block[i] == 0
  {
    ZeroCount(8);
    ModSmall(0, W64);
  }

  lemma {:induction false} MarkedWord(block: seq<Octet>, i: WordIndex)
    requires |block| == 64 && block[0] == 0x80 && forall i :: 1 <= i < 64 ==> block[i] == 0
    ensures Word(block, i) == if i == 0 then 0x80 else 0
  {
    WordOfFour(block[4 * i], block[4 * i + 1], block[4 * i + 2], block[4 * i + 3]);
  }

  lemma {:induction false} WordOfFour(a: Octet, b: Octet, c: Octet, d: Octet)
    requires b == 0 && c == 0 && d == 0
    ensures (a as bv32) | ((b as bv32) << 8) | ((c as bv32) << 16) | ((d as bv32) << 24) == a as bv32
  {
  }

  lemma {:induction false} ZeroCount(width: nat)
    ensures Count(0, width) == Repeat<Octet>(0, width)
  {
    if width > 0 {
      ZeroCount(width - 1);
    }
  }

  /** An operation on words that are known. */
  lemma {:induction false} Operation(block: seq<Octet>, round: nat, r: Registers, k: bv32, n: Shift, b: bv32)
    requires OnlyMark(block) && round < 64 && SINES[round] == k && SHIFTS[4 * (round / 16) + round % 4] == n
    requires var w := if WORDS[round] == 0 then 0x80 else 0;
             b == Plus(RotateLeft(Plus(Plus(Plus(r.a, Mix(round, r.b, r.c, r.d)), w), k), n), r.b)
    ensures Rounds(r, block, round) == Rounds(Registers(r.d, b, r.b, r.c), block, round + 1)
  {
    hide Mix, Word, RotateLeft, Plus, SINES, SHIFTS, WORDS, Rounds;
    NextOperation(r, block, round);
    Lookups(round);
    assert Word(block, WORDS[round]) == if WORDS[round] == 0 then 0x80 else 0;
  }

  lemma {:induction false} MarkLength(block: seq<Octet>)
    requires OnlyMark(block)
    ensures |block| == 64
  {
  }

  lemma {:induction false} Operations1(block: seq<Octet>)
    requires OnlyMark(block)
    ensures Rounds(Registers(0x67452301, 0xefcdab89, 0x98badcfe, 0x10325476), block, 0)
            == Rounds(Registers(0x98badcfe, 0xf59592dd, 0xa5202774, 0xefcdab89), block, 2)
  {
    hide OnlyMark, Rounds, Word;
    Operation(block, 0, Registers(0x67452301, 0xefcdab89, 0x98badcfe, 0x10325476), 0xd76aa478, 7, 0xa5202774);
    Operation(block, 1, Registers(0x10325476, 0xa5202774, 0xefcdab89, 0x98badcfe), 0xe8c7b756, 12, 0xf59592dd);
  }

  lemma {:induction false} Operations2(block: seq<Octet>)
    requires OnlyMark(block)
    ensures Rounds(Registers(0x98badcfe, 0xf59592dd, 0xa5202774, 0xefcdab89), block, 2)
            == Rounds(Registers(0xa5202774, 0x1b163203, 0xe7f06b23, 0xf59592dd), block, 4)
  {
    hide OnlyMark, Rounds, Word;
    Operation(block, 2, Registers(0x98badcfe, 0xf59592dd, 0xa5202774, 0xefcdab89), 0x242070db, 17, 0xe7f06b23);
    Operation(block, 3, Registers(0xefcdab89, 0xe7f06b23, 0xf59592dd, 0xa5202774), 0xc1bdceee, 22, 0x1b163203);
  }

  lemma {:induction false} Operations3(block: seq<Octet>)
    requires OnlyMark(block)
    ensures Rounds(Registers(0xa5202774, 0x1b163203, 0xe7f06b23, 0xf59592dd), block, 4)
            == Rounds(Registers(0xe7f06b23, 0x2f35d494, 0x32033344, 0x1b163203), block, 6)
  {
    hide OnlyMark, Rounds, Word;
    Operation(block, 4, Registers(0xa5202774, 0x1b163203, 0xe7f06b23, 0xf59592dd), 0xf57c0faf, 7, 0x32033344);
    Operation(block, 5, Registers(0xf59592dd, 0x32033344, 0x1b163203, 0xe7f06b23), 0x4787c62a, 12, 0x2f35d494);
  }

  lemma {:induction false} Operations4(block: seq<Octet>)
    requires OnlyMark(block)
    ensures Rounds(Registers(0xe7f06b23, 0x2f35d494, 0x32033344, 0x1b163203), block, 6)
            == Rounds(Registers(0x32033344, 0x9bc13ce9, 0xf5b158db, 0x2f35d494), block, 8)
  {
    hide OnlyMark, Rounds, Word;
    Operation(block, 6, Registers(0xe7f06b23, 0x2f35d494, 0x32033344, 0x1b163203), 0xa8304613, 17, 0xf5b158db);
    Operation(block, 7, Registers(0x1b163203, 0xf5b158db, 0x2f35d494, 0x32033344), 0xfd469501, 22, 0x9bc13ce9);
  }

  lemma {:induction false} Operations5(block: seq<Octet>)
    requires OnlyMark(block)
    ensures Rounds(Registers(0x32033344, 0x9bc13ce9, 0xf5b158db, 0x2f35d494), block, 8)
            == Rounds(Registers(0xf5b158db, 0xfce4a312, 0x3893b991, 0x9bc13ce9), block, 10)
  {
    hide OnlyMark, Rounds, Word;
    Operation(block, 8, Registers(0x32033344, 0x9bc13ce9, 0xf5b158db, 0x2f35d494), 0x698098d8, 7, 0x3893b991);
    Operation(block, 9, Registers(0x2f35d494, 0x3893b991, 0x9bc13ce9, 0xf5b158db), 0x8b44f7af, 12, 0xfce4a312);
  }

  lemma {:induction false} Operations6(block: seq<Octet>)
    requires OnlyMark(block)
    ensures Rounds(Registers(0xf5b158db, 0xfce4a312, 0x3893b991, 0x9bc13ce9), block, 10)
            == Rounds(Registers(0x3893b991, 0x70768a29, 0xe1ef0576, 0xfce4a312), block, 12)
  {
    hide OnlyMark, Rounds, Word;
    Operation(block, 10, Registers(0xf5b158db, 0xfce4a312, 0x3893b991, 0x9bc13ce9), 0xffff5bb1, 17, 0xe1ef0576);
    Operation(block, 11, Registers(0x9bc13ce9, 0xe1ef0576, 0xfce4a312, 0x3893b991), 0x895cd7be, 22, 0x70768a29);
  }

  lemma {:induction false} Operations7(block: seq<Octet>)
    requires OnlyMark(block)
    ensures Rounds(Registers(0x3893b991, 0x70768a29, 0xe1ef0576, 0xfce4a312), block, 12)
            == Rounds(Registers(0xe1ef0576, 0x374943a7, 0xf56c7cf1, 0x70768a29), block, 14)
  {
    hide OnlyMark, Rounds, Word;
    Operation(block, 12, Registers(0x3893b991, 0x70768a29, 0xe1ef0576, 0xfce4a312), 0x6b901122, 7, 0xf56c7cf1);
    Operation(block, 13, Registers(0xfce4a312, 0xf56c7cf1, 0x70768a29, 0xe1ef0576), 0xfd987193, 12, 0x374943a7);
  }

  lemma {:induction false} Operations8(block: seq<Octet>)
    requires OnlyMark(block)
    ensures Rounds(Registers(0xe1ef0576, 0x374943a7, 0xf56c7cf1, 0x70768a29), block, 14)
            == Rounds(Registers(0xf56c7cf1, 0xd6819c6a, 0x5aa53f75, 0x374943a7), block, 16)
  {
    hide OnlyMark, Rounds, Word;
    Operation(block, 14, Registers(0xe1ef0576, 0x374943a7, 0xf56c7cf1, 0x70768a29), 0xa679438e, 17, 0x5aa53f75);
    Operation(block, 15, Registers(0x70768a29, 0x5aa53f75, 0x374943a7, 0xf56c7cf1), 0x49b40821, 22, 0xd6819c6a);
  }

  lemma {:induction false} Operations9(block: seq<Octet>)
    requires OnlyMark(block)
    ensures Rounds(Registers(0xf56c7cf1, 0xd6819c6a, 0x5aa53f75, 0x374943a7), block, 16)
            == Rounds(Registers(0x5aa53f75, 0x7bd57a3a, 0x1c7d7513, 0xd6819c6a), block, 18)
  {
    hide OnlyMark, Rounds, Word;
    Operation(block, 16, Registers(0xf56c7cf1, 0xd6819c6a, 0x5aa53f75, 0x374943a7), 0xf61e2562, 5, 0x1c7d7513);
    Operation(block, 17, Registers(0x374943a7, 0x1c7d7513, 0xd6819c6a, 0x5aa53f75), 0xc040b340, 9, 0x7bd57a3a);
  }

  lemma {:induction false} Operations10(block: seq<Octet>)
    requires OnlyMark(block)
    ensures Rounds(Registers(0x5aa53f75, 0x7bd57a3a, 0x1c7d7513, 0xd6819c6a), block, 18)
            == Rounds(Registers(0x1c7d7513, 0xbd782e17, 0xc095f13a, 0x7bd57a3a), block, 20)
  {
    hide OnlyMark, Rounds, Word;
    Operation(block, 18, Registers(0x5aa53f75, 0x7bd57a3a, 0x1c7d7513, 0xd6819c6a), 0x265e5a51, 14, 0xc095f13a);
    Operation(block, 19, Registers(0xd6819c6a, 0xc095f13a, 0x7bd57a3a, 0x1c7d7513), 0xe9b6c7aa, 20, 0xbd782e17);
  }

  lemma {:induction false} Operations11(block: seq<Octet>)
    requires OnlyMark(block)
    ensures Rounds(Registers(0x1c7d7513, 0xbd782e17, 0xc095f13a, 0x7bd57a3a), block, 20)
            == Rounds(Registers(0xc095f13a, 0x68b7b3e3, 0x3d1e3e6c, 0xbd782e17), block, 22)
  {
    hide OnlyMark, Rounds, Word;
    Operation(block, 20, Registers(0x1c7d7513, 0xbd782e17, 0xc095f13a, 0x7bd57a3a), 0xd62f105d, 5, 0x3d1e3e6c);
    Operation(block, 21, Registers(0x7bd57a3a, 0x3d1e3e6c, 0xbd782e17, 0xc095f13a), 0x02441453, 9, 0x68b7b3e3);
  }

  lemma {:induction false} Operations12(block: seq<Octet>)
    requires OnlyMark(block)
    ensures Rounds(Registers(0xc095f13a, 0x68b7b3e3, 0x3d1e3e6c, 0xbd782e17), block, 22)
            == Rounds(Registers(0x3d1e3e6c, 0xe422531a, 0xeb41643e, 0x68b7b3e3), block, 24)
  {
    hide OnlyMark, Rounds, Word;
    Operation(block, 22, Registers(0xc095f13a, 0x68b7b3e3, 0x3d1e3e6c, 0xbd782e17), 0xd8a1e681, 14, 0xeb41643e);
    Operation(block, 23, Registers(0xbd782e17, 0xeb41643e, 0x68b7b3e3, 0x3d1e3e6c), 0xe7d3fbc8, 20, 0xe422531a);
  }

  lemma {:induction false} Operations13(block: seq<Octet>)
    requires OnlyMark(block)
    ensures Rounds(Registers(0x3d1e3e6c, 0xe422531a, 0xeb41643e, 0x68b7b3e3), block, 24)
            == Rounds(Registers(0xeb41643e, 0xd28c77c2, 0x306ec122, 0xe422531a), block, 26)
  {
    hide OnlyMark, Rounds, Word;
    Operation(block, 24, Registers(0x3d1e3e6c, 0xe422531a, 0xeb41643e, 0x68b7b3e3), 0x21e1cde6, 5, 0x306ec122);
    Operation(block, 25, Registers(0x68b7b3e3, 0x306ec122, 0xe422531a, 0xeb41643e), 0xc33707d6, 9, 0xd28c77c2);
  }

  lemma {:induction false} Operations14(block: seq<Octet>)
    requires OnlyMark(block)
    ensures Rounds(Registers(0xeb41643e, 0xd28c77c2, 0x306ec122, 0xe422531a), block, 26)
            == Rounds(Registers(0x306ec122, 0xa0572807, 0xa3c663da, 0xd28c77c2), block, 28)
  {
    hide OnlyMark, Rounds, Word;
    Operation(block, 26, Registers(0xeb41643e, 0xd28c77c2, 0x306ec122, 0xe422531a), 0xf4d50d87, 14, 0xa3c663da);
    Operation(block, 27, Registers(0xe422531a, 0xa3c663da, 0xd28c77c2, 0x306ec122), 0x455a14ed, 20, 0xa0572807);
  }

  lemma {:induction false} Operations15(block: seq<Octet>)
    requires OnlyMark(block)
    ensures Rounds(Registers(0x306ec122, 0xa0572807, 0xa3c663da, 0xd28c77c2), block, 28)
            == Rounds(Registers(0xa3c663da, 0xae7813db, 0x13707036, 0xa0572807), block, 30)
  {
    hide OnlyMark, Rounds, Word;
    Operation(block, 28, Registers(0x306ec122, 0xa0572807, 0xa3c663da, 0xd28c77c2), 0xa9e3e905, 5, 0x13707036);
    Operation(block, 29, Registers(0xd28c77c2, 0x13707036, 0xa0572807, 0xa3c663da), 0xfcefa3f8, 9, 0xae7813db);
  }

  lemma {:induction false} Operations16(block: seq<Octet>)
    requires OnlyMark(block)
    ensures Rounds(Registers(0xa3c663da, 0xae7813db, 0x13707036, 0xa0572807), block, 30)
            == Rounds(Registers(0x13707036, 0xa2205f1f, 0x1c31c384, 0xae7813db), block, 32)
  {
    hide OnlyMark, Rounds, Word;
    Operation(block, 30, Registers(0xa3c663da, 0xae7813db, 0x13707036, 0xa0572807), 0x676f02d9, 14, 0x1c31c384);
    Operation(block, 31, Registers(0xa0572807, 0x1c31c384, 0xae7813db, 0x13707036), 0x8d2a4c8a, 20, 0xa2205f1f);
  }

  lemma {:induction false} Operations17(block: seq<Octet>)
    requires OnlyMark(block)
    ensures Rounds(Registers(0x13707036, 0xa2205f1f, 0x1c31c384, 0xae7813db), block, 32)
            == Rounds(Registers(0x1c31c384, 0xc3689f5b, 0xdf63eaa1, 0xa2205f1f), block, 34)
  {
    hide OnlyMark, Rounds, Word;
    Operation(block, 32, Registers(0x13707036, 0xa2205f1f, 0x1c31c384, 0xae7813db), 0xfffa3942, 4, 0xdf63eaa1);
    Operation(block, 33, Registers(0xae7813db, 0xdf63eaa1, 0xa2205f1f, 0x1c31c384), 0x8771f681, 11, 0xc3689f5b);
  }

  lemma {:induction false} Operations18(block: seq<Octet>)
    requires OnlyMark(block)
    ensures Rounds(Registers(0x1c31c384, 0xc3689f5b, 0xdf63eaa1, 0xa2205f1f), block, 34)
            == Rounds(Registers(0xdf63eaa1, 0x004b6669, 0x12f3e755, 0xc3689f5b), block, 36)
  {
    hide OnlyMark, Rounds, Word;
    Operation(block, 34, Registers(0x1c31c384, 0xc3689f5b, 0xdf63eaa1, 0xa2205f1f), 0x6d9d6122, 16, 0x12f3e755);
    Operation(block, 35, Registers(0xa2205f1f, 0x12f3e755, 0xc3689f5b, 0xdf63eaa1), 0xfde5380c, 23, 0x004b6669);
  }

  lemma {:induction false} Operations19(block: seq<Octet>)
    requires OnlyMark(block)
    ensures Rounds(Registers(0xdf63eaa1, 0x004b6669, 0x12f3e755, 0xc3689f5b), block, 36)
            == Rounds(Registers(0x12f3e755, 0xabc34e16, 0x5f7a9b2e, 0x004b6669), block, 38)
  {
    hide OnlyMark, Rounds, Word;
    Operation(block, 36, Registers(0xdf63eaa1, 0x004b6669, 0x12f3e755, 0xc3689f5b), 0xa4beea44, 4, 0x5f7a9b2e);
    Operation(block, 37, Registers(0xc3689f5b, 0x5f7a9b2e, 0x004b6669, 0x12f3e755), 0x4bdecfa9, 11, 0xabc34e16);
  }

  lemma {:induction false} Operations20(block: seq<Octet>)
    requires OnlyMark(block)
    ensures Rounds(Registers(0x12f3e755, 0xabc34e16, 0x5f7a9b2e, 0x004b6669), block, 38)
            == Rounds(Registers(0x5f7a9b2e, 0xc5dc8c15, 0x91ca4cb7, 0xabc34e16), block, 40)
  {
    hide OnlyMark, Rounds, Word;
    Operation(block, 38, Registers(0x12f3e755, 0xabc34e16, 0x5f7a9b2e, 0x004b6669), 0xf6bb4b60, 16, 0x91ca4cb7);
    Operation(block, 39, Registers(0x004b6669, 0x91ca4cb7, 0xabc34e16, 0x5f7a9b2e), 0xbebfbc70, 23, 0xc5dc8c15);
  }

  lemma {:induction false} Operations21(block: seq<Octet>)
    requires OnlyMark(block)
    ensures Rounds(Registers(0x5f7a9b2e, 0xc5dc8c15, 0x91ca4cb7, 0xabc34e16), block, 40)
            == Rounds(Registers(0x91ca4cb7, 0x76fd93d4, 0x4497169d, 0xc5dc8c15), block, 42)
  {
    hide OnlyMark, Rounds, Word;
    Operation(block, 40, Registers(0x5f7a9b2e, 0xc5dc8c15, 0x91ca4cb7, 0xabc34e16), 0x289b7ec6, 4, 0x4497169d);
    Operation(block, 41, Registers(0xabc34e16, 0x4497169d, 0xc5dc8c15, 0x91ca4cb7), 0xeaa127fa, 11, 0x76fd93d4);
  }

  lemma {:induction false} Operations22(block: seq<Octet>)
    requires OnlyMark(block)
    ensures Rounds(Registers(0x91ca4cb7, 0x76fd93d4, 0x4497169d, 0xc5dc8c15), block, 42)
            == Rounds(Registers(0x4497169d, 0x0fe32453, 0xfd95f243, 0x76fd93d4), block, 44)
  {
    hide OnlyMark, Rounds, Word;
    Operation(block, 42, Registers(0x91ca4cb7, 0x76fd93d4, 0x4497169d, 0xc5dc8c15), 0xd4ef3085, 16, 0xfd95f243);
    Operation(block, 43, Registers(0xc5dc8c15, 0xfd95f243, 0x76fd93d4, 0x4497169d), 0x04881d05, 23, 0x0fe32453);
  }

  lemma {:induction false} Operations23(block: seq<Octet>)
    requires OnlyMark(block)
    ensures Rounds(Registers(0x4497169d, 0x0fe32453, 0xfd95f243, 0x76fd93d4), block, 44)
            == Rounds(Registers(0xfd95f243, 0x22a31f54, 0x3f55edfd, 0x0fe32453), block, 46)
  {
    hide OnlyMark, Rounds, Word;
    Operation(block, 44, Registers(0x4497169d, 0x0fe32453, 0xfd95f243, 0x76fd93d4), 0xd9d4d039, 4, 0x3f55edfd);
    Operation(block, 45, Registers(0x76fd93d4, 0x3f55edfd, 0x0fe32453, 0xfd95f243), 0xe6db99e5, 11, 0x22a31f54);
  }

  lemma {:induction false} Operations24(block: seq<Octet>)
    requires OnlyMark(block)
    ensures Rounds(Registers(0xfd95f243, 0x22a31f54, 0x3f55edfd, 0x0fe32453), block, 46)
            == Rounds(Registers(0x3f55edfd, 0xca7d2dbd, 0x68d84ea2, 0x22a31f54), block, 48)
  {
    hide OnlyMark, Rounds, Word;
    Operation(block, 46, Registers(0xfd95f243, 0x22a31f54, 0x3f55edfd, 0x0fe32453), 0x1fa27cf8, 16, 0x68d84ea2);
    Operation(block, 47, Registers(0x0fe32453, 0x68d84ea2, 0x22a31f54, 0x3f55edfd), 0xc4ac5665, 23, 0xca7d2dbd);
  }

  lemma {:induction false} Operations25(block: seq<Octet>)
    requires OnlyMark(block)
    ensures Rounds(Registers(0x3f55edfd, 0xca7d2dbd, 0x68d84ea2, 0x22a31f54), block, 48)
            == Rounds(Registers(0x68d84ea2, 0x1688dc85, 0x93aa2577, 0xca7d2dbd), block, 50)
  {
    hide OnlyMark, Rounds, Word;
    Operation(block, 48, Registers(0x3f55edfd, 0xca7d2dbd, 0x68d84ea2, 0x22a31f54), 0xf4292244, 6, 0x93aa2577);
    Operation(block, 49, Registers(0x22a31f54, 0x93aa2577, 0xca7d2dbd, 0x68d84ea2), 0x432aff97, 10, 0x1688dc85);
  }

  lemma {:induction false} Operations26(block: seq<Octet>)
    requires OnlyMark(block)
    ensures Rounds(Registers(0x68d84ea2, 0x1688dc85, 0x93aa2577, 0xca7d2dbd), block, 50)
            == Rounds(Registers(0x93aa2577, 0x561e0689, 0xcd85b8cb, 0x1688dc85), block, 52)
  {
    hide OnlyMark, Rounds, Word;
    Operation(block, 50, Registers(0x68d84ea2, 0x1688dc85, 0x93aa2577, 0xca7d2dbd), 0xab9423a7, 15, 0xcd85b8cb);
    Operation(block, 51, Registers(0xca7d2dbd, 0xcd85b8cb, 0x1688dc85, 0x93aa2577), 0xfc93a039, 21, 0x561e0689);
  }

  lemma {:induction false} Operations27(block: seq<Octet>)
    requires OnlyMark(block)
    ensures Rounds(Registers(0x93aa2577, 0x561e0689, 0xcd85b8cb, 0x1688dc85), block, 52)
            == Rounds(Registers(0xcd85b8cb, 0x3450f42b, 0x5625a114, 0x561e0689), block, 54)
  {
    hide OnlyMark, Rounds, Word;
    Operation(block, 52, Registers(0x93aa2577, 0x561e0689, 0xcd85b8cb, 0x1688dc85), 0x655b59c3, 6, 0x5625a114);
    Operation(block, 53, Registers(0x1688dc85, 0x5625a114, 0x561e0689, 0xcd85b8cb), 0x8f0ccc92, 10, 0x3450f42b);
  }

  lemma {:induction false} Operations28(block: seq<Octet>)
    requires OnlyMark(block)
    ensures Rounds(Registers(0xcd85b8cb, 0x3450f42b, 0x5625a114, 0x561e0689), block, 54)
            == Rounds(Registers(0x5625a114, 0x1e77fa61, 0x392ad0d0, 0x3450f42b), block, 56)
  {
    hide OnlyMark, Rounds, Word;
    Operation(block, 54, Registers(0xcd85b8cb, 0x3450f42b, 0x5625a114, 0x561e0689), 0xffeff47d, 15, 0x392ad0d0);
    Operation(block, 55, Registers(0x561e0689, 0x392ad0d0, 0x3450f42b, 0x5625a114), 0x85845dd1, 21, 0x1e77fa61);
  }

  lemma {:induction false} Operations29(block: seq<Octet>)
    requires OnlyMark(block)
    ensures Rounds(Registers(0x5625a114, 0x1e77fa61, 0x392ad0d0, 0x3450f42b), block, 56)
            == Rounds(Registers(0x392ad0d0, 0xdfce00bc, 0x474a9c8c, 0x1e77fa61), block, 58)
  {
    hide OnlyMark, Rounds, Word;
    Operation(block, 56, Registers(0x5625a114, 0x1e77fa61, 0x392ad0d0, 0x3450f42b), 0x6fa87e4f, 6, 0x474a9c8c);
    Operation(block, 57, Registers(0x3450f42b, 0x474a9c8c, 0x1e77fa61, 0x392ad0d0), 0xfe2ce6e0, 10, 0xdfce00bc);
  }

  lemma {:induction false} Operations30(block: seq<Octet>)
    requires OnlyMark(block)
    ensures Rounds(Registers(0x392ad0d0, 0xdfce00bc, 0x474a9c8c, 0x1e77fa61), block, 58)
            == Rounds(Registers(0x474a9c8c, 0x30130182, 0x36594b14, 0xdfce00bc), block, 60)
  {
    hide OnlyMark, Rounds, Word;
    Operation(block, 58, Registers(0x392ad0d0, 0xdfce00bc, 0x474a9c8c, 0x1e77fa61), 0xa3014314, 15, 0x36594b14);
    Operation(block, 59, Registers(0x1e77fa61, 0x36594b14, 0xdfce00bc, 0x474a9c8c), 0x4e0811a1, 21, 0x30130182);
  }

  lemma {:induction false} Operations31(block: seq<Octet>)
    requires OnlyMark(block)
    ensures Rounds(Registers(0x474a9c8c, 0x30130182, 0x36594b14, 0xdfce00bc), block, 60)
            == Rounds(Registers(0x36594b14, 0x6e10a476, 0x7246fad3, 0x30130182), block, 62)
  {
    hide OnlyMark, Rounds, Word;
    Operation(block, 60, Registers(0x474a9c8c, 0x30130182, 0x36594b14, 0xdfce00bc), 0xf7537e82, 6, 0x7246fad3);
    Operation(block, 61, Registers(0xdfce00bc, 0x7246fad3, 0x30130182, 0x36594b14), 0xbd3af235, 10, 0x6e10a476);
  }

  lemma {:induction false} Operations32(block: seq<Octet>)
    requires OnlyMark(block)
    ensures Rounds(Registers(0x36594b14, 0x6e10a476, 0x7246fad3, 0x30130182), block, 62)
            == Rounds(Registers(0x7246fad3, 0x14e45506, 0xff4ea3eb, 0x6e10a476), block, 64)
  {
    hide OnlyMark, Rounds, Word;
    Operation(block, 62, Registers(0x36594b14, 0x6e10a476, 0x7246fad3, 0x30130182), 0x2ad7d2bb, 15, 0xff4ea3eb);
    Operation(block, 63, Registers(0x30130182, 0xff4ea3eb, 0x6e10a476, 0x7246fad3), 0xeb86d391, 21, 0x14e45506);
  }

  lemma {:induction false} EmptyRounds(block: seq<Octet>)
    requires OnlyMark(block)
    ensures Transform(INITIAL, block) == Registers(0xd98c1dd4, 0x04b2008f, 0x980980e9, 0x7e42f8ec)
  {
    hide OnlyMark, Rounds;
    MarkLength(block);
    Operations1(block);
    Operations2(block);
    Operations3(block);
    Operations4(block);
    Operations5(block);
    Operations6(block);
    Operations7(block);
    Operations8(block);
    Operations9(block);
    Operations10(block);
    Operations11(block);
    Operations12(block);
    Operations13(block);
    Operations14(block);
    Operations15(block);
    Operations16(block);
    Operations17(block);
    Operations18(block);
    Operations19(block);
    Operations20(block);
    Operations21(block);
    Operations22(block);
    Operations23(block);
    Operations24(block);
    Operations25(block);
    Operations26(block);
    Operations27(block);
    Operations28(block);
    Operations29(block);
    Operations30(block);
    Operations31(block);
    Operations32(block);
    NothingLeft(Registers(0x7246fad3, 0x14e45506, 0xff4ea3eb, 0x6e10a476), block);
  }

  /** d41d8cd98f00b204e9800998ecf8427e. */
  lemma {:induction false} EmptyDigest()
    ensures Digest([])
            == [0xd4, 0x1d, 0x8c, 0xd9, 0x8f, 0x00, 0xb2, 0x04, 0xe9, 0x80, 0x09, 0x98, 0xec, 0xf8, 0x42, 0x7e]
  {
    hide Padded, Fold, Transform, OnlyMark, INITIAL, Encoded;
    EmptyPadded();
    EmptyBlock();
    EmptyRounds(Padded([]));
    OneBlock(INITIAL, Padded([]));
    EmptyEncoded();
  }

  lemma {:induction false} EmptyEncoded()
    ensures Encoded(Registers(0xd98c1dd4, 0x04b2008f, 0x980980e9, 0x7e42f8ec))
            == [0xd4, 0x1d, 0x8c, 0xd9, 0x8f, 0x00, 0xb2, 0x04, 0xe9, 0x80, 0x09, 0x98, 0xec, 0xf8, 0x42, 0x7e]
  {
  }

  lemma {:induction false} OneBlock(r: Registers, block: seq<Octet>)
    requires |block| == 64
    ensures Fold(r, block) == Transform(r, block)
  {
    hide Transform;
    assert block[..64] == block && block[64..] == [];
  }
}

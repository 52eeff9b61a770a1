/**
 `md5_hasher`: a streaming hash over 64-byte blocks with a 64-bit bit count kept in
 two 32-bit words. However a message is cut into updates, the state is the fold of
 the block transform over its whole blocks, and the digest is that of the padded
 message of RFC 1321, sections 3.1 to 3.3.
 */
module Md5 {
  import opened Words
  import opened Radix

  type Octet = bv8

  // ---------------------------------------------------------------------
  // The block transform, RFC 1321 section 3.4
  // ---------------------------------------------------------------------

  datatype Registers = Registers(a: bv32, b: bv32, c: bv32, d: bv32)

  const INITIAL: Registers := Registers(0x67452301, 0xefcdab89, 0x98badcfe, 0x10325476)

  const SINES: seq<bv32> := SINES1 + SINES2 + SINES3 + SINES4
  const SINES1: seq<bv32> := [
    0xd76aa478, 0xe8c7b756, 0x242070db, 0xc1bdceee, 0xf57c0faf, 0x4787c62a, 0xa8304613, 0xfd469501,
    0x698098d8, 0x8b44f7af, 0xffff5bb1, 0x895cd7be, 0x6b901122, 0xfd987193, 0xa679438e, 0x49b40821]
  const SINES2: seq<bv32> := [
    0xf61e2562, 0xc040b340, 0x265e5a51, 0xe9b6c7aa, 0xd62f105d, 0x02441453, 0xd8a1e681, 0xe7d3fbc8,
    0x21e1cde6, 0xc33707d6, 0xf4d50d87, 0x455a14ed, 0xa9e3e905, 0xfcefa3f8, 0x676f02d9, 0x8d2a4c8a]
  const SINES3: seq<bv32> := [
    0xfffa3942, 0x8771f681, 0x6d9d6122, 0xfde5380c, 0xa4beea44, 0x4bdecfa9, 0xf6bb4b60, 0xbebfbc70,
    0x289b7ec6, 0xeaa127fa, 0xd4ef3085, 0x04881d05, 0xd9d4d039, 0xe6db99e5, 0x1fa27cf8, 0xc4ac5665]
  const SINES4: seq<bv32> := [
    0xf4292244, 0x432aff97, 0xab9423a7, 0xfc93a039, 0x655b59c3, 0x8f0ccc92, 0xffeff47d, 0x85845dd1,
    0x6fa87e4f, 0xfe2ce6e0, 0xa3014314, 0x4e0811a1, 0xf7537e82, 0xbd3af235, 0x2ad7d2bb, 0xeb86d391]

  type WordIndex = x: int | 0 <= x < 16

  const WORDS: seq<WordIndex> := WORDS1 + WORDS2 + WORDS3 + WORDS4
  const WORDS1: seq<WordIndex> := [0, 1, 2, 3, 4, 5, 6, 7, 8, 9, 10, 11, 12, 13, 14, 15]
  const WORDS2: seq<WordIndex> := [1, 6, 11, 0, 5, 10, 15, 4, 9, 14, 3, 8, 13, 2, 7, 12]
  const WORDS3: seq<WordIndex> := [5, 8, 11, 14, 1, 4, 7, 10, 13, 0, 3, 6, 9, 12, 15, 2]
  const WORDS4: seq<WordIndex> := [0, 7, 14, 5, 12, 3, 10, 1, 8, 15, 6, 13, 4, 11, 2, 9]

  type Shift = x: bv32 | 0 < x < 32 witness 1

  const SHIFTS: seq<Shift> := [
    7, 12, 17, 22,
    5, 9, 14, 20,
    4, 11, 16, 23,
    6, 10, 15, 21]

  function Xor(x: bv32, y: bv32): bv32 { x ^ y }

  function Plus(x: bv32, y: bv32): bv32 { x + y }

  function Mix(round: nat, x: bv32, y: bv32, z: bv32): bv32
  {
    if round < 16 then (x & y) | (!x & z)
    else if round < 32 then (x & z) | (y & !z)
    else if round < 48 then Xor(Xor(x, y), z)
    else y ^ (x | !z)
  }

  function RotateLeft(x: bv32, n: Shift): bv32
  {
    (x << n) | (x >> (32 - n))
  }

  function Word(block: seq<Octet>, i: WordIndex): bv32
    requires |block| == 64
  {
    (block[4 * i] as bv32) | ((block[4 * i + 1] as bv32) << 8)
    | ((block[4 * i + 2] as bv32) << 16) | ((block[4 * i + 3] as bv32) << 24)
  }

  /** Rounds from `round` on: each updates one register and turns the four around. */
  function Rounds(r: Registers, block: seq<Octet>, round: nat): Registers
    requires |block| == 64 && round <= 64
    decreases 64 - round
  {
    if round == 64 then r
    else
      var sum := Plus(Plus(Plus(r.a, Mix(round, r.b, r.c, r.d)), Word(block, WORDS[round])), SINES[round]);
      var turned := Plus(RotateLeft(sum, SHIFTS[4 * (round / 16) + round % 4]), r.b);
      Rounds(Registers(r.d, turned, r.b, r.c), block, round + 1)
  }

  function Transform(r: Registers, block: seq<Octet>): Registers
    requires |block| == 64
  {
    var t := Rounds(r, block, 0);
    Registers(Plus(r.a, t.a), Plus(r.b, t.b), Plus(r.c, t.c), Plus(r.d, t.d))
  }

  // ---------------------------------------------------------------------
  // Whole messages
  // ---------------------------------------------------------------------

  /** The transform folded over the whole blocks of a message. */
  function Fold(r: Registers, m: seq<Octet>): Registers
    decreases |m|
  {
    if |m| < 64 then r else Fold(Transform(r, m[..64]), m[64..])
  }

  function Rest(m: seq<Octet>): (t: seq<Octet>)
    ensures |t| == |m| % 64
  {
    m[|m| - |m| % 64..]
  }

  lemma {:induction false} RestDrop(m: seq<Octet>)
    requires |m| >= 64
    ensures Rest(m[64..]) == Rest(m)
  {
    ModDrop(|m|, |m| - 64, 1, 64);
  }

  /** More bytes fold on from the bytes that were left over. */
  lemma {:induction false} FoldMore(r: Registers, m: seq<Octet>, x: seq<Octet>)
    ensures Fold(r, m + x) == Fold(Fold(r, m), Rest(m) + x)
    ensures Rest(m + x) == Rest(Rest(m) + x)
    decreases |m|
  {
    hide Transform, Rest;
    if |m| < 64 {
      ShortFold(r, m);
    } else {
      assert (m + x)[..64] == m[..64] && (m + x)[64..] == m[64..] + x;
      FoldMore(Transform(r, m[..64]), m[64..], x);
      RestDrop(m);
      RestDrop(m + x);
    }
  }

  lemma {:induction false} FoldBlock(r: Registers, block: seq<Octet>, x: seq<Octet>)
    requires |block| == 64
    ensures Fold(r, block + x) == Fold(Transform(r, block), x)
    ensures Rest(block + x) == Rest(x)
  {
    hide Transform;
    assert (block + x)[..64] == block && (block + x)[64..] == x;
  }

  /** n in bytes, least significant first. */
  function Count(n: nat, width: nat): (s: seq<Octet>)
    ensures |s| == width
  {
    if width == 0 then [] else [(n % 256) as bv8] + Count(n / 256, width - 1)
  }

  function PaddingSize(length: nat): (k: nat)
    ensures 1 <= k <= 64 && (length + k) % 64 == 56
  {
    var index := length % 64;
    if index < 56 then 56 - index else 120 - index
  }

  /** RFC 1321 sections 3.1 and 3.2: a one bit, zeros up to 56 modulo 64, and the bit count modulo 2^64. */
  function Padded(m: seq<Octet>): seq<Octet>
  {
    m + ([0x80] + Repeat<Octet>(0, PaddingSize(|m|) - 1)) + Count((8 * |m|) % W64, 8)
  }

  lemma {:induction false} PaddedLength(m: seq<Octet>)
    ensures |Padded(m)| == |m| + PaddingSize(|m|) + 8 && |Padded(m)| % 64 == 0
  {
    hide Repeat, Count;
    var k := PaddingSize(|m|);
    ModDrop(|m| + k + 8, 0, (|m| + k + 8) / 64, 64);
  }

  function Encoded(r: Registers): seq<Octet>
  {
    WordBytes(r.a) + WordBytes(r.b) + WordBytes(r.c) + WordBytes(r.d)
  }

  function WordBytes(x: bv32): seq<Octet>
  {
    [(x & 0xff) as bv8, ((x >> 8) & 0xff) as bv8, ((x >> 16) & 0xff) as bv8, ((x >> 24) & 0xff) as bv8]
  }

  function Digest(m: seq<Octet>): seq<Octet>
  {
    Encoded(Fold(INITIAL, Padded(m)))
  }

  // ---------------------------------------------------------------------
  // The 32-bit loop guard
  // ---------------------------------------------------------------------

  /** Where the block loop of an update stops: the last multiple of 64 past the first chunk that is within the input. */
  function LastStart(index: nat, length: nat): (i: nat)
    requires index < 64 && length >= 64 - index
    ensures 64 - index <= i <= length < i + 64
  {
    (64 - index) + (length - (64 - index)) / 64 * 64
  }

  predicate GuardHolds(i: nat, length: nat)
  {
    (i + 64) % W32 <= length
  }

  /**
   The guard `i + 64 <= length` is computed in 32 bits. It stops the loop where it
   should exactly when that sum does not reach 2^32.
   */
  lemma {:induction false} GuardStopsExactlyWhen(index: nat, length: nat)
    requires index < 64 && 64 - index <= length < W32
    ensures !GuardHolds(LastStart(index, length), length) <==> LastStart(index, length) + 64 < W32
  {
    var i := LastStart(index, length);
    if i + 64 < W32 {
      ModSmall(i + 64, W32);
    } else {
      DivModUnique(i + 64, W32, 1, i + 64 - W32);
    }
  }

  /** Inputs an update can take without that happening; every input below 2^32 - 64 bytes is one. */
  predicate Acceptable(index: nat, length: nat)
    requires index < 64
  {
    length < W32 && (length >= 64 - index ==> LastStart(index, length) + 64 < W32)
  }

  lemma {:induction false} ShortIsAcceptable(index: nat, length: nat)
    requires index < 64 && length < W32 - 64
    ensures Acceptable(index, length)
  {
  }

  function Kept(input: seq<Octet>): (r: seq<Octet>)
    ensures |r| == |input| % W32
  {
    input[..|input| % W32]
  }

  /** The value of `i` when the guard is evaluated for the k-th time, as it would go on in 32 bits. */
  function Start(index: nat, k: nat): nat
    requires index < 64
  {
    (64 - index + 64 * k) % W32
  }

  /** The block loop of an update ends if and only if the input is acceptable; on any other it goes round for ever. */
  lemma {:induction false} LoopEndsExactlyWhen(index: nat, length: nat)
    requires index < 64 && 64 - index <= length < W32
    ensures (exists k: nat :: !GuardHolds(Start(index, k), length)) <==> Acceptable(index, length)
  {
    hide Start, GuardHolds, LastStart;
    var last := LastStart(index, length);
    if Acceptable(index, length) {
      var k := LastIsReached(index, length);
      GuardStopsExactlyWhen(index, length);
    } else {
      forall k: nat
        ensures GuardHolds(Start(index, k), length)
      {
        StartAligned(index, length, k);
        GuardKeepsHolding(last, length, Start(index, k));
      }
    }
  }

  lemma {:induction false} LastIsReached(index: nat, length: nat) returns (k: nat)
    requires index < 64 && 64 - index <= length < W32
    ensures Start(index, k) == LastStart(index, length)
  {
    k := (length - (64 - index)) / 64;
    ModSmall(LastStart(index, length), W32);
  }

  lemma {:induction false} StartAligned(index: nat, length: nat, k: nat)
    requires index < 64 && 64 - index <= length < W32
    ensures Start(index, k) < W32 && (LastStart(index, length) - Start(index, k)) % 64 == 0
  {
    var s := 64 - index + 64 * k;
    DivMod(s, W32);
    var j := (length - (64 - index)) / 64;
    assert LastStart(index, length) - Start(index, k) == 64 * (j - k + 0x400_0000 * (s / W32));
  }

  lemma {:induction false} GuardKeepsHolding(last: nat, length: nat, i: nat)
    requires last <= length < W32 <= last + 64 && i < W32 && (last - i) % 64 == 0
    ensures GuardHolds(i, length)
  {
    if i < last {
      ModSmall(i + 64, W32);
    } else {
      assert i == last;
      DivModUnique(i + 64, W32, 1, i + 64 - W32);
    }
  }

  // ---------------------------------------------------------------------
  // The object
  // ---------------------------------------------------------------------

  class Hasher {
    var buffer: array<Octet>
    var count0: nat
    var count1: nat
    var state: Registers
    var digest: seq<Octet>
    var finalized: bool
    ghost var origin: Registers
    ghost var fed: seq<Octet>

    /**
     The object is a function of the bytes fed so far, however they came. They are counted
     from `origin`: the initial registers, or the final ones once `finalize` has cleared the counts.
     */
    ghost predicate Valid()
      reads this, buffer
    {
      && buffer.Length == 64
      && (!finalized ==> origin == INITIAL)
      && state == Fold(origin, fed)
      && buffer[..|fed| % 64] == Rest(fed)
      && count0 < W32 && count1 < W32
      && count0 + count1 * W32 == (8 * |fed|) % W64
    }

    constructor ()
      ensures Valid() && fresh(buffer) && fed == [] && !finalized
    {
      hide Fold, Transform, Rest, INITIAL;
      StartsOver(INITIAL);
      buffer := new Octet[64](i => 0);
      digest := [];
      finalized := false;
      count0, count1 := 0, 0;
      state, origin := INITIAL, INITIAL;
      fed := [];
    }

    /** `memcpy(&buffer[index], source, |source|)` */
    method Copy(index: nat, source: seq<Octet>)
      requires index + |source| <= buffer.Length
      modifies buffer
      ensures buffer[..] == old(buffer[..index]) + source + old(buffer[index + |source|..])
    {
      for k := 0 to |source|
        invariant forall j :: 0 <= j < buffer.Length ==>
                    buffer[j] == if index <= j < index + k then source[j - index] else old(buffer[j])
      {
        buffer[index + k] := source[k];
      }
    }

    /** `update` with the default block size, also after `finalize`, on every input from which it returns. */
    method Update(input: seq<Octet>)
      requires Valid() && Acceptable(|fed| % 64, |input|)
      modifies this, buffer
      ensures Valid() && fed == old(fed) + input && origin == old(origin)
      ensures buffer == old(buffer) && finalized == old(finalized) && digest == old(digest)
    {
      hide Fold, Transform, Rest;
      assert |input| < W32;
      hide Acceptable;
      var index := count0 / 8 % 64;
      IndexIsRest(count0, count1, |fed|);
      ghost var bits := 8 * |fed|;
      Advance(|input|);
      ModDrop(bits % W64 + 8 * |input|, bits + 8 * |input|, -(bits / W64), W64);
      FoldMore(origin, fed, input);
      Absorb(input, index);
      fed := fed + input;
    }

    /** `update` of a string: its length is cut to 32 bits. */
    method UpdateString(input: seq<Octet>)
      requires Valid() && Acceptable(|fed| % 64, |Kept(input)|)
      modifies this, buffer
      ensures Valid() && fed == old(fed) + Kept(input) && origin == old(origin)
      ensures buffer == old(buffer) && finalized == old(finalized) && digest == old(digest)
    {
      Update(Kept(input));
    }

    /** The two count words after `length` more bytes. */
    method Advance(length: nat)
      requires length < W32 && count0 < W32 && count1 < W32
      modifies this`count0, this`count1
      ensures count0 < W32 && count1 < W32
      ensures count0 + count1 * W32 == (old(count0) + old(count1) * W32 + 8 * length) % W64
    {
      var low := (length * 8) % W32;
      count0 := (count0 + low) % W32;
      if count0 < low {
        count1 := (count1 + 1) % W32;
      }
      count1 := (count1 + length / 0x2000_0000) % W32;
      CountStep(old(count0), old(count1), length, low, count0, count1);
    }

    /** The block loop: whole blocks behind the first chunk are transformed where they stand. */
    method TransformBlocks(input: seq<Octet>, index: nat) returns (i: nat)
      requires index < 64 && 64 - index <= |input| && Acceptable(index, |input|)
      modifies this`state
      ensures i <= |input| < i + 64
      ensures state == Fold(old(state), input[64 - index..])
      ensures input[i..] == Rest(input[64 - index..])
    {
      hide Transform, Fold, Rest;
      ghost var r0, rest := state, input[64 - index..];
      var length := |input|;
      i := 64 - index;
      while (i + 64) % W32 <= length
        invariant 64 - index <= i <= length && (i - (64 - index)) % 64 == 0 && i <= LastStart(index, length)
        invariant Fold(r0, rest) == Fold(state, input[i..])
        invariant Rest(rest) == Rest(input[i..])
        decreases length - i
      {
        GuardStopsExactlyWhen(index, length);
        NextStart(index, length, i);
        FoldBlock(state, input[i..i + 64], input[i + 64..]);
        assert input[i..] == input[i..i + 64] + input[i + 64..];
        state := Transform(state, input[i..i + 64]);
        i := i + 64;
      }
      LoopEnd(index, length, i);
      ShortFold(state, input[i..]);
    }

    /** The buffering: complete the pending block, transform whole blocks in place, keep the rest. */
    method Absorb(input: seq<Octet>, index0: nat)
      requires buffer.Length == 64 && index0 == |fed| % 64 && Acceptable(index0, |input|)
      requires buffer[..index0] == Rest(fed)
      modifies this`state, buffer
      ensures state == Fold(old(state), Rest(fed) + input)
      ensures buffer[..|Rest(Rest(fed) + input)|] == Rest(Rest(fed) + input)
    {
      hide Transform, Fold;
      ghost var r0, pending := state, Rest(fed);
      var index, i, length := index0, 0, |input|;
      var chunk := 64 - index;
      if length >= chunk {
        Copy(index, input[..chunk]);
        ghost var block := pending + input[..chunk];
        assert buffer[..] == block;
        state := Transform(state, buffer[..]);
        FoldBlock(r0, block, input[chunk..]);
        assert pending + input == block + input[chunk..];
        i := TransformBlocks(input, index);
        index := 0;
      } else {
        ShortFold(state, pending + input);
      }
      ghost var before := buffer[..];
      Copy(index, input[i..]);
    }

    /**
     `finalize`: padding and bit count as two more updates, then the digest; a second call does
     nothing. Whole blocks have been fed by then, and the counts start again from the final registers.
     */
    method Finalize()
      requires Valid()
      modifies this, buffer
      ensures Valid() && finalized && buffer == old(buffer)
      ensures !old(finalized) ==> count0 == count1 == 0 && forall k :: 0 <= k < buffer.Length ==> buffer[k] == 0
      ensures !old(finalized) ==> digest == Digest(old(fed)) && fed == [] && |Padded(old(fed))| % 64 == 0
      ensures !old(finalized) ==> state == origin == Fold(INITIAL, Padded(old(fed)))
      ensures old(finalized) ==>
              digest == old(digest) && state == old(state) && fed == old(fed) && origin == old(origin)
    {
      hide Transform, Fold, Digest, Padded, Encoded, Rest, W64, INITIAL;
      if finalized {
        return;
      }
      Pad();
      PaddedLength(old(fed));
      DigestIs(old(fed));
      digest := Encoded(state);
      Wipe();
      count0, count1 := 0, 0;
      finalized := true;
      origin, fed := state, [];
      StartsOver(origin);
    }

    method Wipe()
      modifies buffer
      ensures forall k :: 0 <= k < buffer.Length ==> buffer[k] == 0
    {
      for k := 0 to buffer.Length
        invariant forall j :: 0 <= j < k ==> buffer[j] == 0
      {
        buffer[k] := 0;
      }
    }

    /** The bit count is taken first, then padding and count are fed as ordinary input. */
    method Pad()
      requires Valid() && !finalized
      modifies this, buffer
      ensures Valid() && !finalized && buffer == old(buffer) && fed == Padded(old(fed))
    {
      hide Fold, Transform, Rest, Repeat, Count, Acceptable, LastStart;
      ghost var message := fed;
      var bits := Count(count0, 4) + Count(count1, 4);
      CountWords(count0, count1);
      var index := count0 / 8 % 64;
      IndexIsRest(count0, count1, |fed|);
      var size := if index < 56 then 56 - index else 120 - index;
      var padding := [0x80] + Repeat<Octet>(0, 63);
      ZerosPrefix(63, size - 1);
      assert padding[..size] == [0x80] + Repeat<Octet>(0, 63)[..size - 1];
      ShortIsAcceptable(|fed| % 64, size);
      Update(padding[..size]);
      ShortIsAcceptable(|fed| % 64, 8);
      Update(bits);
    }
  }

  lemma {:induction false} ZerosPrefix(n: nat, k: nat)
    requires k <= n
    ensures Repeat<Octet>(0, n)[..k] == Repeat<Octet>(0, k)
  {
  }

  lemma {:induction false} StartsOver(r: Registers)
    ensures Fold(r, []) == r && Rest([]) == [] && (8 * 0) % W64 == 0
  {
    ModSmall(0, W64);
  }

  lemma {:induction false} DigestIs(m: seq<Octet>)
    ensures Digest(m) == Encoded(Fold(INITIAL, Padded(m)))
  {
  }

  /** The low count word is enough to know the position in the block. */
  lemma {:induction false} IndexIsRest(count0: nat, count1: nat, length: nat)
    requires count0 < W32 && count0 + count1 * W32 == (8 * length) % W64
    ensures count0 / 8 % 64 == length % 64
  {
    var q := (8 * length) / W64;
    assert 8 * length == q * W64 + count1 * W32 + count0;
    var k := q * 0x2000_0000_0000_0000 + count1 * 0x2000_0000;
    assert length == k + count0 / 8;
    ModDrop(length, count0 / 8, q * 0x80_0000_0000_0000 + count1 * 0x80_0000, 64);
  }

  lemma {:induction false} CountStep(c0: nat, c1: nat, length: nat, low: nat, d0: nat, d1: nat)
    requires c0 < W32 && c1 < W32 && length < W32 && low == (length * 8) % W32 && d0 == (c0 + low) % W32
    requires d1 == ((if d0 < low then (c1 + 1) % W32 else c1) + length / 0x2000_0000) % W32
    ensures d0 + d1 * W32 == (c0 + c1 * W32 + 8 * length) % W64
  {
    var carry, high := if d0 < low then 1 else 0, length / 0x2000_0000;
    WrapAdd(c0, low);
    EightTimes(length);
    var e := (c1 + carry) % W32;
    WrapAdd(c1, carry);
    WrapAdd(e, high);
    var k := (if e < carry then 1 else 0) + (if d1 < high then 1 else 0);
    ModSmall(c1, W32);
    assert c0 + c1 * W32 + 8 * length == k * W64 + (d0 + d1 * W32);
    DivModUnique(c0 + c1 * W32 + 8 * length, W64, k, d0 + d1 * W32);
  }

  lemma {:induction false} WrapAdd(x: nat, y: nat)
    requires x < W32 && y < W32
    ensures var s := (x + y) % W32; 0 <= s < W32 && x + y == s + (if s < y then W32 else 0)
  {
    if x + y < W32 {
      ModSmall(x + y, W32);
    } else {
      DivModUnique(x + y, W32, 1, x + y - W32);
    }
  }

  lemma {:induction false} EightTimes(length: nat)
    requires length < W32
    ensures length / 0x2000_0000 < 8 && 8 * length == (length / 0x2000_0000) * W32 + (length * 8) % W32
  {
    var high, rest := length / 0x2000_0000, length % 0x2000_0000;
    DivModUnique(length * 8, W32, high, 8 * rest);
  }

  lemma {:induction false} CountWords(count0: nat, count1: nat)
    requires count0 < W32 && count1 < W32
    ensures Count(count0, 4) + Count(count1, 4) == Count(count0 + count1 * W32, 8)
  {
    CountConcat(count0, count1, 4, 4);
    assert Pow(256, 4) == W32 by { assert Pow(256, 2) == 65536; }
  }

  lemma {:induction false} CountConcat(x: nat, y: nat, m: nat, n: nat)
    requires x < Pow(256, m)
    ensures x + y * Pow(256, m) >= 0 && Count(x, m) + Count(y, n) == Count(x + y * Pow(256, m), m + n)
    decreases m
  {
    hide Pow, Count;
    PowStep(m);
    if m == 0 {
      CountNothing(x, y, n);
    } else {
      var p := Pow(256, m - 1);
      CountConcat(x / 256, y, m - 1, n);
      LowCount(x, y, p);
      CountSplit(x, m);
      CountSplit(x + y * (256 * p), m + n);
      assert [(x % 256) as bv8] + Count(x / 256, m - 1) + Count(y, n)
          == [(x % 256) as bv8] + (Count(x / 256, m - 1) + Count(y, n));
    }
  }

  lemma {:induction false} PowStep(m: nat)
    ensures Pow(256, m) == if m == 0 then 1 else 256 * Pow(256, m - 1)
  {
  }

  lemma {:induction false} CountNothing(x: nat, y: nat, n: nat)
    ensures Count(x, 0) + Count(y, n) == Count(y, n)
  {
  }

  lemma {:induction false} CountSplit(x: nat, m: nat)
    requires m > 0
    ensures Count(x, m) == [(x % 256) as bv8] + Count(x / 256, m - 1)
  {
  }

  lemma {:induction false} LowCount(x: nat, y: nat, p: nat)
    ensures y * (256 * p) == 256 * (y * p) && x + y * (256 * p) >= 0
    ensures (x + y * (256 * p)) % 256 == x % 256 && (x + y * (256 * p)) / 256 == x / 256 + y * p
  {
    Associate(y, 256, p);
    Associate(256, y, p);
    ProductNotNegative(y, p);
    DivModUnique(x + 256 * (y * p), 256, x / 256 + y * p, x % 256);
  }

  lemma {:induction false} ProductNotNegative(x: nat, y: nat)
    ensures x * y >= 0
  {
  }

  /** Before the last start the true guard holds and there is another block. */
  lemma {:induction false} NextStart(index: nat, length: nat, i: nat)
    requires index < 64 && 64 - index <= length && LastStart(index, length) + 64 < W32
    requires 64 - index <= i <= LastStart(index, length) && (i - (64 - index)) % 64 == 0
    requires (i + 64) % W32 <= length
    ensures i + 64 <= LastStart(index, length) && (i + 64 - (64 - index)) % 64 == 0
  {
    ModSmall(i + 64, W32);
  }

  lemma {:induction false} LoopEnd(index: nat, length: nat, i: nat)
    requires index < 64 && 64 - index <= length && LastStart(index, length) + 64 < W32
    requires 64 - index <= i <= LastStart(index, length) && (i + 64) % W32 > length
    ensures length - i < 64
  {
    ModSmall(i + 64, W32);
  }

  lemma {:induction false} ShortFold(r: Registers, m: seq<Octet>)
    requires |m| < 64
    ensures Fold(r, m) == r && Rest(m) == m
  {
  }

  // ---------------------------------------------------------------------
  // Any split of a message
  // ---------------------------------------------------------------------

  function Joined(parts: seq<seq<Octet>>): seq<Octet>
  {
    if parts == [] then [] else Joined(parts[..|parts| - 1]) + parts[|parts| - 1]
  }

  /** The bytes that reach the hash: of each part what its length, cut to 32 bits, covers. */
  function Fed(parts: seq<seq<Octet>>): seq<Octet>
  {
    if parts == [] then [] else Fed(parts[..|parts| - 1]) + Kept(parts[|parts| - 1])
  }

  lemma {:induction false} FedIsJoined(parts: seq<seq<Octet>>)
    requires forall i :: 0 <= i < |parts| ==> |parts[i]| < W32
    ensures Fed(parts) == Joined(parts)
    decreases |parts|
  {
    if parts != [] {
      FedIsJoined(parts[..|parts| - 1]);
      ModSmall(|parts[|parts| - 1]|, W32);
    }
  }

  /** Each part is one from which an update returns after the parts before it. */
  predicate AllAcceptable(parts: seq<seq<Octet>>)
  {
    parts == []
    || (AllAcceptable(parts[..|parts| - 1])
        && Acceptable(|Fed(parts[..|parts| - 1])| % 64, |Kept(parts[|parts| - 1])|))
  }

  lemma {:induction false} PrefixAcceptable(parts: seq<seq<Octet>>, i: nat)
    requires AllAcceptable(parts) && i < |parts|
    ensures Acceptable(|Fed(parts[..i])| % 64, |Kept(parts[i])|)
    decreases |parts|
  {
    hide Acceptable, Fed, Kept;
    if i < |parts| - 1 {
      PrefixAcceptable(parts[..|parts| - 1], i);
      assert parts[..|parts| - 1][..i] == parts[..i];
    }
  }

  lemma {:induction false} ShortAllAcceptable(parts: seq<seq<Octet>>)
    requires forall i :: 0 <= i < |parts| ==> |parts[i]| < W32 - 64
    ensures AllAcceptable(parts)
    decreases |parts|
  {
    if parts != [] {
      ModSmall(|parts[|parts| - 1]|, W32);
      hide Acceptable, Fed;
      ShortAllAcceptable(parts[..|parts| - 1]);
      ShortIsAcceptable(|Fed(parts[..|parts| - 1])| % 64, |Kept(parts[|parts| - 1])|);
    }
  }

  /** However a message is cut, the digest is that of the padded whole. */
  method HashParts(parts: seq<seq<Octet>>) returns (digest: seq<Octet>)
    requires AllAcceptable(parts)
    ensures digest == Digest(Fed(parts))
    ensures (forall i :: 0 <= i < |parts| ==> |parts[i]| < W32) ==> digest == Digest(Joined(parts))
  {
    hide Fold, Digest, AllAcceptable, Kept, Joined;
    var hasher := new Hasher();
    for i := 0 to |parts|
      invariant hasher.Valid() && !hasher.finalized && fresh(hasher) && fresh(hasher.buffer)
      invariant hasher.fed == Fed(parts[..i])
    {
      PrefixAcceptable(parts, i);
      hasher.UpdateString(parts[i]);
      assert parts[..i + 1][..i] == parts[..i];
    }
    assert parts[..|parts|] == parts;
    hasher.Finalize();
    digest := hasher.digest;
    if forall i :: 0 <= i < |parts| ==> |parts[i]| < W32 {
      FedIsJoined(parts);
    }
  }
}

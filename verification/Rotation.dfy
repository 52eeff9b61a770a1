/**
 `rotate_buffer`: a keyed byte rotation in place. Each byte moves by a hash of the
 rotated bytes before it and of a running counter, so going back needs a copy of
 the rotated buffer.
 */
module Rotation {
  import opened Words

  const LIMIT: int := 254

  /** Any deterministic hash of a string. */
  type Hash = seq<Byte> -> nat

  /** The amount for the byte after `prefix`: the counter stands in the last place of the hashed string. */
  function Amount(hasher: Hash, prefix: seq<Byte>, counter: nat): Byte
  {
    hasher(prefix + [counter % LIMIT]) % LIMIT
  }

  /** The counter when byte i is reached: a 64-bit increment before each byte. */
  function Counter(seed: U64, i: nat): U64
  {
    (seed + i + 1) % W64
  }

  /** Byte arithmetic wraps. */
  function Turn(x: int, k: int): Byte { (x + k) % 256 }
  function TurnBack(x: int, k: int): Byte { (x - k) % 256 }

  function Forward(s: seq<Byte>, hasher: Hash, seed: U64): (r: seq<Byte>)
    ensures |r| == |s|
  {
    if s == [] then []
    else
      var i := |s| - 1;
      var r := Forward(s[..i], hasher, seed);
      r + [Turn(s[i], Amount(hasher, r, Counter(seed, i)))]
  }

  function Backward(r: seq<Byte>, hasher: Hash, seed: U64): (s: seq<Byte>)
    ensures |s| == |r|
  {
    if r == [] then []
    else
      var i := |r| - 1;
      Backward(r[..i], hasher, seed) + [TurnBack(r[i], Amount(hasher, r[..i], Counter(seed, i)))]
  }

  /** Rotating back undoes rotating forward. */
  lemma {:induction false} BackwardUndoesForward(s: seq<Byte>, hasher: Hash, seed: U64)
    ensures Backward(Forward(s, hasher, seed), hasher, seed) == s
    decreases |s|
  {
    hide Amount, Counter, Turn, TurnBack;
    if s != [] {
      var i := |s| - 1;
      BackwardUndoesForward(s[..i], hasher, seed);
      var r := Forward(s, hasher, seed);
      assert r[..i] == Forward(s[..i], hasher, seed);
      assert s == s[..i] + [s[i]];
      AddThenSubtract(s[i], Amount(hasher, r[..i], Counter(seed, i)));
    }
  }

  /** And the other way around. */
  lemma {:induction false} ForwardUndoesBackward(r: seq<Byte>, hasher: Hash, seed: U64)
    ensures Forward(Backward(r, hasher, seed), hasher, seed) == r
    decreases |r|
  {
    hide Amount, Counter, Turn, TurnBack;
    if r != [] {
      var i := |r| - 1;
      ForwardUndoesBackward(r[..i], hasher, seed);
      var s := Backward(r, hasher, seed);
      assert s[..i] == Backward(r[..i], hasher, seed);
      assert r == r[..i] + [r[i]];
      AddThenSubtract(r[i], Amount(hasher, r[..i], Counter(seed, i)));
    }
  }

  lemma {:induction false} AddThenSubtract(x: Byte, k: Byte)
    ensures TurnBack(Turn(x, k), k) == x && Turn(TurnBack(x, k), k) == x
  {
  }

  /** What a byte moved by, modulo 256. */
  function Move(before: int, after: int): int
  {
    (after - before) % 256
  }

  /**
   `rotate_buffer`: backward for a negative direction, forward otherwise. Each byte moves, modulo
   256, by the hash of the rotated bytes before it and the counter, modulo 254.
   */
  method RotateBuffer(buffer: array<Byte>, hasher: Hash, seed: U64, direction: int)
    modifies buffer
    ensures buffer[..] == if direction < 0 then Backward(old(buffer[..]), hasher, seed)
                          else Forward(old(buffer[..]), hasher, seed)
    ensures direction >= 0 ==> forall i :: 0 <= i < buffer.Length ==>
              Move(old(buffer[i]), buffer[i])
              == hasher(buffer[..][..i] + [(seed + i + 1) % 0x1_0000_0000_0000_0000 % 254]) % 254
    ensures direction < 0 ==> forall i :: 0 <= i < buffer.Length ==>
              Move(buffer[i], old(buffer[i]))
              == hasher(old(buffer[..])[..i] + [(seed + i + 1) % 0x1_0000_0000_0000_0000 % 254]) % 254
  {
    hide Forward, Backward, Move;
    ghost var was := buffer[..];
    if direction < 0 {
      RotateBack(buffer, hasher, seed);
      BackwardMovesAll(was, hasher, seed);
    } else {
      RotateOn(buffer, hasher, seed);
      ForwardMovesAll(was, hasher, seed);
    }
  }

  lemma {:induction false} ForwardMovesAll(s: seq<Byte>, hasher: Hash, seed: U64)
    ensures var r := Forward(s, hasher, seed);
            forall i :: 0 <= i < |s| ==>
              Move(s[i], r[i]) == hasher(r[..i] + [(seed + i + 1) % 0x1_0000_0000_0000_0000 % 254]) % 254
  {
    hide Forward, Move;
    forall i | 0 <= i < |s|
      ensures var r := Forward(s, hasher, seed);
              Move(s[i], r[i]) == hasher(r[..i] + [(seed + i + 1) % 0x1_0000_0000_0000_0000 % 254]) % 254
    {
      ForwardMoves(s, hasher, seed, i);
    }
  }

  lemma {:induction false} BackwardMovesAll(r: seq<Byte>, hasher: Hash, seed: U64)
    ensures var s := Backward(r, hasher, seed);
            forall i :: 0 <= i < |r| ==>
              Move(s[i], r[i]) == hasher(r[..i] + [(seed + i + 1) % 0x1_0000_0000_0000_0000 % 254]) % 254
  {
    hide Backward, Move;
    forall i | 0 <= i < |r|
      ensures var s := Backward(r, hasher, seed);
              Move(s[i], r[i]) == hasher(r[..i] + [(seed + i + 1) % 0x1_0000_0000_0000_0000 % 254]) % 254
    {
      BackwardMoves(r, hasher, seed, i);
    }
  }

  lemma {:induction false} ForwardMoves(s: seq<Byte>, hasher: Hash, seed: U64, i: nat)
    requires i < |s|
    ensures var r := Forward(s, hasher, seed);
            Move(s[i], r[i]) == hasher(r[..i] + [(seed + i + 1) % 0x1_0000_0000_0000_0000 % 254]) % 254
    decreases |s|
  {
    hide Move, Turn;
    var n := |s| - 1;
    var r := Forward(s, hasher, seed);
    assert r[..n] == Forward(s[..n], hasher, seed);
    if i < n {
      ForwardMoves(s[..n], hasher, seed, i);
      assert r[..n][..i] == r[..i];
    } else {
      TurnedBy(s[i], Amount(hasher, r[..n], Counter(seed, n)));
    }
  }

  lemma {:induction false} BackwardMoves(r: seq<Byte>, hasher: Hash, seed: U64, i: nat)
    requires i < |r|
    ensures var s := Backward(r, hasher, seed);
            Move(s[i], r[i]) == hasher(r[..i] + [(seed + i + 1) % 0x1_0000_0000_0000_0000 % 254]) % 254
    decreases |r|
  {
    hide Move, TurnBack;
    var n := |r| - 1;
    var s := Backward(r, hasher, seed);
    assert s[..n] == Backward(r[..n], hasher, seed);
    if i < n {
      BackwardMoves(r[..n], hasher, seed, i);
      assert r[..n][..i] == r[..i];
    } else {
      TurnedBy(r[i], Amount(hasher, r[..n], Counter(seed, n)));
    }
  }

  lemma {:induction false} TurnedBy(x: Byte, k: Byte)
    ensures Move(x, Turn(x, k)) == k && Move(TurnBack(x, k), x) == k
  {
    DivMod(x + k, 256);
    DivMod(x - k, 256);
    ModDrop((x + k) % 256 - x, k, -((x + k) / 256), 256);
    ModDrop(x - (x - k) % 256, k, (x - k) / 256, 256);
    ModSmall(k, 256);
  }

  lemma {:induction false} ForwardNext(s: seq<Byte>, i: nat, hasher: Hash, seed: U64)
    requires i < |s|
    ensures var r := Forward(s[..i], hasher, seed);
            Forward(s[..i + 1], hasher, seed) == r + [Turn(s[i], Amount(hasher, r, Counter(seed, i)))]
  {
    hide Amount, Counter, Turn;
    assert s[..i + 1][..i] == s[..i];
  }

  lemma {:induction false} BackwardNext(r: seq<Byte>, i: nat, hasher: Hash, seed: U64)
    requires i < |r|
    ensures Backward(r[..i + 1], hasher, seed)
            == Backward(r[..i], hasher, seed) + [TurnBack(r[i], Amount(hasher, r[..i], Counter(seed, i)))]
  {
    hide Amount, Counter, TurnBack;
    assert r[..i + 1][..i] == r[..i];
  }

  lemma {:induction false} NothingTurned(hasher: Hash, seed: U64)
    ensures Forward([], hasher, seed) == [] && Backward([], hasher, seed) == []
  {
  }

  method RotateBack(buffer: array<Byte>, hasher: Hash, seed: U64)
    modifies buffer
    ensures buffer[..] == Backward(old(buffer[..]), hasher, seed)
  {
    hide Amount, Turn, TurnBack, Counter, Backward;
    NothingTurned(hasher, seed);
    var rotated := buffer[..];
    var hash := seed;
    for i := 0 to buffer.Length
      invariant hash == (seed + i) % W64
      invariant buffer[..i] == Backward(rotated[..i], hasher, seed)
      invariant buffer[i..] == rotated[i..]
    {
      hash := (hash + 1) % W64;
      NextCounter(seed, i, hash);
      var rotation := Amount(hasher, rotated[..i], hash);
      ghost var done := buffer[..i];
      buffer[i] := TurnBack(buffer[i], rotation);
      assert buffer[..i] == done;
      BackwardNext(rotated, i, hasher, seed);
      assert buffer[..i + 1] == done + [buffer[i]];
    }
    assert rotated[..buffer.Length] == rotated && buffer[..buffer.Length] == buffer[..];
  }

  method RotateOn(buffer: array<Byte>, hasher: Hash, seed: U64)
    modifies buffer
    ensures buffer[..] == Forward(old(buffer[..]), hasher, seed)
  {
    hide Amount, Turn, TurnBack, Counter, Forward;
    NothingTurned(hasher, seed);
    ghost var was := buffer[..];
    var hash := seed;
    for i := 0 to buffer.Length
      invariant hash == (seed + i) % W64
      invariant buffer[..i] == Forward(was[..i], hasher, seed)
      invariant buffer[i..] == was[i..]
    {
      hash := (hash + 1) % W64;
      NextCounter(seed, i, hash);
      var rotation := Amount(hasher, buffer[..i], hash);
      ghost var done := buffer[..i];
      buffer[i] := Turn(buffer[i], rotation);
      assert buffer[..i] == done;
      ForwardNext(was, i, hasher, seed);
      assert buffer[..i + 1] == done + [buffer[i]];
    }
    assert was[..buffer.Length] == was && buffer[..buffer.Length] == buffer[..];
  }

  lemma {:induction false} NextCounter(seed: U64, i: nat, hash: U64)
    requires hash == ((seed + i) % W64 + 1) % W64
    ensures hash == Counter(seed, i)
  {
    ModDrop((seed + i) % W64 + 1, seed + i + 1, -((seed + i) / W64), W64);
  }
}

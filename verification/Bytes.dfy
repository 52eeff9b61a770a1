/**
 Byte strings as big-endian numbers.
 */
module Bytes {
  import opened Words
  import opened Radix

  /** The n low bytes of x, most significant first. */
  function BigEndian(x: nat, n: nat): (s: seq<Byte>)
    ensures |s| == n
  {
    if n == 0 then [] else BigEndian(x / 256, n - 1) + [x % 256]
  }

  function BytesValue(s: seq<Byte>): (v: nat)
  {
    if s == [] then 0 else BytesValue(s[..|s| - 1]) * 256 + s[|s| - 1]
  }

  lemma {:induction false} BigEndianValue(x: nat, n: nat)
    requires x < Pow(256, n)
    ensures BytesValue(BigEndian(x, n)) == x
    decreases n
  {
    if n > 0 {
      BigEndianValue(x / 256, n - 1);
      assert BigEndian(x, n)[..n - 1] == BigEndian(x / 256, n - 1);
    }
  }

  lemma {:induction false} BytesConcat(s: seq<Byte>, t: seq<Byte>)
    ensures BytesValue(s + t) == BytesValue(s) * Pow(256, |t|) + BytesValue(t)
    decreases |t|
  {
    if t == [] {
      assert s + t == s;
    } else {
      var u := t[..|t| - 1];
      BytesConcat(s, u);
      assert (s + t)[..|s + t| - 1] == s + u;
      ConcatStep(BytesValue(s), Pow(256, |u|), BytesValue(u), 256, t[|t| - 1]);
    }
  }

  lemma {:induction false} BytesBound(s: seq<Byte>)
    ensures BytesValue(s) < Pow(256, |s|)
    decreases |s|
  {
    if s != [] {
      BytesBound(s[..|s| - 1]);
    }
  }

  /** Cutting a byte string down to its low part loses nothing when the number fits there. */
  lemma {:induction false} BytesSuffix(s: seq<Byte>, n: nat)
    requires n <= |s| && BytesValue(s) < Pow(256, n)
    ensures BytesValue(s[|s| - n..]) == BytesValue(s)
  {
    var h, l := s[..|s| - n], s[|s| - n..];
    assert s == h + l;
    BytesConcat(h, l);
    BytesBound(l);
    if BytesValue(h) >= 1 {
      MulLe(1, BytesValue(h), Pow(256, n));
    }
  }

  lemma {:induction false} PowOf256(n: nat)
    ensures Pow(256, n) == Pow2(8 * n)
  {
    if n > 0 {
      PowOf256(n - 1);
      Pow2Add(8, 8 * (n - 1));
      assert Pow2(8) == 256 by { Pow2Add(4, 4); assert Pow2(4) == 16; }
    }
  }

  lemma {:induction false} BytesSnoc(s: seq<Byte>, b: Byte)
    ensures BytesValue(s + [b]) == BytesValue(s) * 256 + b
  {
    assert (s + [b])[..|s|] == s;
  }

  /** Byte strings of one length are told apart by their numbers. */
  lemma {:induction false} BytesInjective(s: seq<Byte>, t: seq<Byte>)
    requires |s| == |t| && BytesValue(s) == BytesValue(t)
    ensures s == t
    decreases |s|
  {
    if s != [] {
      BytesInjective(s[..|s| - 1], t[..|t| - 1]);
      assert s == s[..|s| - 1] + [s[|s| - 1]] && t == t[..|t| - 1] + [t[|t| - 1]];
    }
  }
}

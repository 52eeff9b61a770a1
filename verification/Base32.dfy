/**
 Base 32 (RFC 4648, section 6) without padding characters. Both directions run a
 64-bit accumulator that is shifted and never cleared; only its low bits are ever
 looked at, so it may wrap.
 */
module Base32 {
  import opened Words
  import opened Radix
  import opened Bytes

  type Quintet = x: int | 0 <= x < 32

  function Symbol(v: Quintet): char
  {
    if v < 26 then ('A' as int + v) as char else ('2' as int + v - 26) as char
  }

  /** A character as the decoder reads it, after its three substitutions: -1 skips, -2 stops. */
  function Quint(c: char): int
  {
    if c == ' ' || c == '\t' || c == '\r' || c == '\n' || c == '-' then -1
    else if c == '0' then 14
    else if c == '1' then 11
    else if c == '8' then 1
    else if 'A' <= c <= 'Z' then c as int - 'A' as int
    else if 'a' <= c <= 'z' then c as int - 'a' as int
    else if '2' <= c <= '7' then c as int - '2' as int + 26
    else -2
  }

  lemma {:induction false} SymbolRead(v: Quintet)
    ensures Quint(Symbol(v)) == v
  {
  }

  /** The alphabet of section 6 of RFC 4648. */
  lemma {:induction false} SymbolIs(v: Quintet)
    ensures Symbol(v) == ("ABCDEFGHIJKLMNOPQRSTUVWXYZ" + "234567")[v]
  {
    var letters, digits := "ABCDEFGHIJKLMNOPQRSTUVWXYZ", "234567";
    if v < 26 {
      assert letters[v] == ('A' as int + v) as char;
    } else {
      assert digits[v - 26] == ('2' as int + (v - 26)) as char;
    }
  }

  /** What the decoder reads: the alphabet in both cases, three digits for the letters they look like, and blanks. */
  lemma {:induction false} QuintIs(c: char)
    ensures forall v: Quintet :: Symbol(v) == c ==> Quint(c) == v
    ensures 'a' <= c <= 'z' ==> Quint(c) == Quint((c as int - 32) as char)
    ensures Quint('0') == Quint('O') && Quint('1') == Quint('L') && Quint('8') == Quint('B')
    ensures Quint(c) == -1 <==> c in " \t\r\n-"
    ensures Quint(c) == -2 <==>
              !('a' <= c <= 'z') && c !in "018" && c !in " \t\r\n-" && forall v: Quintet :: Symbol(v) != c
  {
    forall v: Quintet | Symbol(v) == c
      ensures Quint(c) == v
    {
      SymbolRead(v);
    }
    if 0 <= Quint(c) < 32 && !('a' <= c <= 'z') && c !in "018" {
      var v: Quintet := Quint(c);
      assert Symbol(v) == c;
    }
  }

  /** The number of a digit string in base 32. */
  function Number(q: seq<Quintet>): nat
  {
    if q == [] then 0 else Number(q[..|q| - 1]) * 32 + q[|q| - 1]
  }

  lemma {:induction false} NumberSnoc(q: seq<Quintet>, v: Quintet)
    ensures Number(q + [v]) == Number(q) * 32 + v
  {
    assert (q + [v])[..|q|] == q;
  }

  function Text(q: seq<Quintet>): (t: string)
    ensures |t| == |q|
    ensures forall i :: 0 <= i < |t| ==> t[i] == Symbol(q[i])
  {
    seq(|q|, i requires 0 <= i < |q| => Symbol(q[i]))
  }

  // ---------------------------------------------------------------------
  // Accumulators
  // ---------------------------------------------------------------------

  /** Shifting left and ORing a small value in, in 64 bits. */
  function PushBits(acc: U64, k: nat, v: nat): U64
    requires k <= 8 && v < Pow2(k)
  {
    var shifted := (acc * Pow2(k)) % W64;
    PushedIsSum(acc, k, v);
    Or(shifted, v)
  }

  lemma {:induction false} PushedIsSum(acc: U64, k: nat, v: nat)
    requires k <= 8 && v < Pow2(k)
    ensures var shifted := (acc * Pow2(k)) % W64; Or(shifted, v) == shifted + v < W64
  {
    Pow2Words();
    Pow2Split(k, 64);
    var p, q := Pow2(k), Pow2(64 - k);
    MulLe(1, q, p);
    hide Pow2, Or;
    ScaleByMod(acc, p, q);
    OrDisjoint(acc % q, v, k);
    MulLe(acc % q + 1, q, p);
    Distribute(acc % q, 1, p);
    Commute(p, q);
  }

  lemma {:induction false} ScaleByMod(x: nat, p: nat, q: nat)
    requires p >= 1 && q >= 1 && p * q == W64
    ensures (x * p) % W64 == (x % q) * p
  {
    DivMod(x, q);
    MulLe(x % q + 1, q, p);
    MulLe(0, x % q, p);
    Distribute(x % q, 1, p);
    Distribute((x / q) * q, x % q, p);
    Associate(x / q, q, p);
    Commute(p, q);
    DivModUnique(x * p, W64, x / q, (x % q) * p);
  }

  lemma {:induction false} ModOfMultiple(x: nat, m: nat, k: nat)
    requires m >= 1 && k >= 1
    ensures m * k >= 1 && (x % (m * k)) % m == x % m
  {
    MulLe(1, k, m);
    Commute(m, k);
    var q := m * k;
    DivMod(x, q);
    Associate(x / q, k, m);
    ModDrop(x, x % q, (x / q) * k, m);
  }

  lemma {:induction false} LowAfterShift(acc: nat, p: nat, m: nat, k: nat, v: nat)
    requires p >= 1 && m >= 1 && k >= 1 && p * (m * k) == W64 && v < p
    ensures m * p >= 1 && ((acc * p) % W64 + v) % (m * p) == (acc % m) * p + v
  {
    ModOfMultiple(acc, m, k);
    ScaleByMod(acc, p, m * k);
    var y := acc % (m * k);
    DivMod(y, m);
    Distribute((y / m) * m, y % m, p);
    Associate(y / m, m, p);
    MulLe(y % m + 1, m, p);
    MulLe(0, y % m, p);
    Distribute(y % m, 1, p);
    MulLe(1, m, p);
    DivModUnique(y * p + v, m * p, y / m, (y % m) * p + v);
  }

  /** The low bits after a push: the old low bits moved up, and the new ones. */
  lemma {:induction false} PushedLow(acc: U64, k: nat, v: nat, r: nat)
    requires k <= 8 && v < Pow2(k) && r + k <= 64
    ensures PushBits(acc, k, v) % Pow2(r + k) == (acc % Pow2(r)) * Pow2(k) + v
  {
    PushedIsSum(acc, k, v);
    Pow2Words();
    hide Pow2, Or;
    Pow2Add(r, k);
    Pow2Split(k, 64);
    Pow2Split(r, 64 - k);
    LowAfterShift(acc, Pow2(k), Pow2(r), Pow2(64 - k - r), v);
  }

  /** Taking the top k of the r low bits. */
  lemma {:induction false} TopBits(acc: nat, k: nat, r: nat)
    requires k <= r
    ensures (acc / Pow2(r - k)) % Pow2(k) == (acc % Pow2(r)) / Pow2(r - k)
    ensures acc % Pow2(r) == ((acc / Pow2(r - k)) % Pow2(k)) * Pow2(r - k) + acc % Pow2(r - k)
  {
    Pow2Add(k, r - k);
    hide Pow2;
    var p, q := Pow2(k), Pow2(r - k);
    DivMod(acc, q);
    DivMod(acc / q, p);
    var h, t, l := (acc / q) / p, (acc / q) % p, acc % q;
    Distribute(h * p, t, q);
    Associate(h, p, q);
    MulLe(t + 1, p, q);
    MulLe(0, t, q);
    Distribute(t, 1, q);
    DivModUnique(acc, p * q, h, t * q + l);
    DivModUnique(t * q + l, q, t, l);
  }

  /** n as `head` followed by the r low bits of the accumulator. */
  ghost predicate Holds(head: nat, acc: nat, r: nat, n: int)
  {
    head * Pow2(r) + acc % Pow2(r) == n
  }

  lemma {:induction false} PushKeeps(head: nat, acc: U64, r: nat, n: int, k: nat, v: nat)
    requires Holds(head, acc, r, n) && k <= 8 && v < Pow2(k) && r + k <= 64
    ensures Holds(head, PushBits(acc, k, v), r + k, n * Pow2(k) + v)
  {
    PushedLow(acc, k, v, r);
    hide PushBits, Pow2;
    Pow2Add(r, k);
    Associate(head, Pow2(r), Pow2(k));
    Distribute(head * Pow2(r), acc % Pow2(r), Pow2(k));
  }

  lemma {:induction false} TakeKeeps(head: nat, acc: nat, r: nat, n: int, w: nat)
    requires Holds(head, acc, r, n) && w <= r
    ensures Holds(head * Pow2(w) + (acc / Pow2(r - w)) % Pow2(w), acc, r - w, n)
  {
    TopBits(acc, w, r);
    hide Pow2;
    Pow2Add(w, r - w);
    var top := (acc / Pow2(r - w)) % Pow2(w);
    Distribute(head * Pow2(w), top, Pow2(r - w));
    Associate(head, Pow2(w), Pow2(r - w));
  }

  lemma {:induction false} PowersUsed()
    ensures Pow2(0) == 1 && Pow2(5) == 32 && Pow2(8) == 256
  {
    assert Pow2(4) == 16;
    Pow2Add(4, 4);
    assert Pow2(5) == 2 * Pow2(4);
  }

  // ---------------------------------------------------------------------
  // Encoding
  // ---------------------------------------------------------------------

  /** The shortest run of quintets that holds the bits of the bytes, with zero bits at the end. */
  ghost predicate Encodes(value: seq<Byte>, q: seq<Quintet>, pad: nat)
  {
    pad < 5 && 5 * |q| == 8 * |value| + pad && Number(q) == BytesValue(value) * Pow2(pad)
  }

  /** `base32_encode`; the first byte enters the accumulator sign-extended, as a signed char does. */
  method Encode(value: seq<Byte>) returns (result: string)
    ensures 0 <= 5 * |result| - 8 * |value| < 5
    ensures result == Text(Quintets(result)) && Encodes(value, Quintets(result), 5 * |result| - 8 * |value|)
  {
    hide Pow2, PushBits, Holds, Symbol, Quintets, Quint, Number, BytesValue, Window, Text;
    result := "";
    ghost var q: seq<Quintet>, pad := [], 0;
    TextRead(q);
    EmptyText(value);
    if value == [] {
      return;
    }
    var next: U64 := if value[0] < 128 then value[0] else W64 - 256 + value[0];
    var offset, remainder := 1, 8;
    FirstByte(value, next);
    while remainder > 0 || offset < |value|
      invariant 1 <= offset <= |value| && 0 <= remainder <= 8 && pad < 5
      invariant pad > 0 ==> remainder == 0 && offset == |value|
      invariant 5 * |q| + remainder == 8 * offset + pad
      invariant Holds(Number(q), next, remainder, BytesValue(value[..offset]) * Pow2(pad))
      invariant result == Text(q)
      decreases 8 * (|value| - offset) + remainder
    {
      if remainder < 5 {
        next, offset, remainder, pad := Refill(value, next, offset, remainder, Number(q));
      }
      QuintetOut(q, next, remainder, BytesValue(value[..offset]) * Pow2(pad));
      remainder := remainder - 5;
      var index: Quintet := Window(next, remainder);
      result := result + [Symbol(index)];
      q := q + [index];
    }
    assert value[..offset] == value;
    HoldsAll(Number(q), next, BytesValue(value) * Pow2(pad));
    TextRead(q);
  }

  /** One more byte into the accumulator, or zero bits to fill the last quintet. */
  method Refill(value: seq<Byte>, next: U64, offset: nat, remainder: nat, ghost head: nat)
    returns (next': U64, offset': nat, remainder': nat, ghost pad: nat)
    requires 1 <= offset <= |value| && remainder < 5 && (remainder > 0 || offset < |value|)
    requires Holds(head, next, remainder, BytesValue(value[..offset]) * Pow2(0))
    ensures offset <= offset' <= |value| && 5 <= remainder' <= 12 && pad < 5
    ensures remainder' == remainder + 8 * (offset' - offset) + pad
    ensures pad > 0 ==> remainder' == 5 && offset' == |value|
    ensures 8 * (|value| - offset') + remainder' - 5 < 8 * (|value| - offset) + remainder
    ensures Holds(head, next', remainder', BytesValue(value[..offset']) * Pow2(pad))
  {
    PowersUsed();
    hide Pow2, PushBits, Holds, BytesValue;
    offset' := offset;
    if offset < |value| {
      PushKeeps(head, next, remainder, BytesValue(value[..offset]), 8, value[offset]);
      BytesSnoc(value[..offset], value[offset]);
      assert value[..offset] + [value[offset]] == value[..offset + 1];
      next' := PushBits(next, 8, value[offset]);
      offset', remainder', pad := offset + 1, remainder + 8, 0;
    } else {
      pad := 5 - remainder;
      PushKeeps(head, next, remainder, BytesValue(value[..offset]), pad, 0);
      next' := PushBits(next, 5 - remainder, 0);
      remainder' := 5;
    }
  }

  lemma {:induction false} EmptyText(value: seq<Byte>)
    ensures Text([]) == "" && (value == [] ==> Encodes(value, [], 0))
  {
    assert Pow2(0) == 1;
    assert Number([]) == 0 && BytesValue([]) == 0;
  }

  lemma {:induction false} TextSnoc(q: seq<Quintet>, v: Quintet)
    ensures Text(q + [v]) == Text(q) + [Symbol(v)]
  {
    hide Symbol;
  }

  /** The top five of the held bits become a character. */
  lemma {:induction false} QuintetOut(q: seq<Quintet>, next: U64, remainder: nat, n: int)
    requires remainder >= 5 && Holds(Number(q), next, remainder, n)
    ensures var v := Window(next, remainder - 5);
            Holds(Number(q + [v]), next, remainder - 5, n) && Text(q + [v]) == Text(q) + [Symbol(v)]
  {
    PowersUsed();
    hide Pow2, Holds, Symbol, Text, Number;
    var v := Window(next, remainder - 5);
    TakeKeeps(Number(q), next, remainder, n, 5);
    NumberSnoc(q, v);
    TextSnoc(q, v);
  }

  function Window(acc: nat, r: nat): Quintet
  {
    (acc / Pow2(r)) % 32
  }

  lemma {:induction false} HoldsAll(head: nat, acc: nat, n: int)
    requires Holds(head, acc, 0, n)
    ensures head == n
  {
  }

  lemma {:induction false} FirstByte(value: seq<Byte>, next: U64)
    requires value != [] && next == if value[0] < 128 then value[0] else W64 - 256 + value[0]
    ensures Holds(Number([]), next, 8, BytesValue(value[..1]) * Pow2(0))
  {
    PowersUsed();
    hide Pow2;
    assert next % 256 == value[0];
    assert value[..1] == [] + [value[0]];
    BytesSnoc([], value[0]);
  }

  // ---------------------------------------------------------------------
  // Decoding
  // ---------------------------------------------------------------------

  /** The quintets the decoder reads: some characters are passed over, and the first it does not know ends the text. */
  function Quintets(t: string): (q: seq<Quintet>)
  {
    if t == "" || Quint(t[0]) == -2 then []
    else if Quint(t[0]) == -1 then Quintets(t[1..])
    else QuintRange(t[0]); [Quint(t[0])] + Quintets(t[1..])
  }

  lemma {:induction false} QuintetsNext(t: string, i: nat)
    requires i < |t|
    ensures Quint(t[i]) == -2 ==> Quintets(t[i..]) == []
    ensures Quint(t[i]) == -1 ==> Quintets(t[i..]) == Quintets(t[i + 1..])
    ensures Quint(t[i]) >= 0 ==> Quint(t[i]) < 32 && Quintets(t[i..]) == [Quint(t[i])] + Quintets(t[i + 1..])
  {
    hide Quint;
    QuintRange(t[i]);
    assert t[i..][1..] == t[i + 1..];
  }

  /** `base32_decode` on any text: all whole bytes of the bits it reads, the rest dropped. */
  method Decode(value: string) returns (result: seq<Byte>)
    ensures var q := Quintets(value);
            8 * |result| + (5 * |q|) % 8 == 5 * |q| && BytesValue(result) == Number(q) / Pow2((5 * |q|) % 8)
  {
    hide Pow2, Holds, Quint, Quintets, Number, BytesValue;
    result := [];
    var prev: U64, bits := 0, 0;
    ghost var q: seq<Quintet> := [];
    NothingHeld();
    assert value[0..] == value && [] + Quintets(value) == Quintets(value);
    var i := 0;
    while i < |value|
      invariant 0 <= i <= |value|
      invariant 0 <= bits < 8 && 8 * |result| + bits == 5 * |q|
      invariant Holds(BytesValue(result), prev, bits, Number(q))
      invariant Quintets(value) == q + Quintets(value[i..])
    {
      var v := Quint(value[i]);
      QuintRange(value[i]);
      QuintetsNext(value, i);
      if v == -2 {
        break;
      }
      if v != -1 {
        NumberSnoc(q, v);
        assert q + ([v] + Quintets(value[i + 1..])) == (q + [v]) + Quintets(value[i + 1..]);
        result, prev, bits := TakeQuintet(result, prev, bits, v, Number(q));
        q := q + [v];
      }
      i := i + 1;
    }
    QuintetsEnd(value, i);
    assert q + [] == q;
    HeldHead(BytesValue(result), prev, bits, Number(q));
    DivModUnique(5 * |q|, 8, |result|, bits);
  }

  lemma {:induction false} QuintetsEnd(t: string, i: nat)
    requires i <= |t| && (i < |t| ==> Quint(t[i]) == -2)
    ensures Quintets(t[i..]) == []
  {
    hide Quint;
  }

  /** Five bits in, and a byte out if there are eight. */
  method TakeQuintet(result: seq<Byte>, prev: U64, bits: nat, v: Quintet, ghost n: int)
    returns (result': seq<Byte>, prev': U64, bits': nat)
    requires bits < 8 && Holds(BytesValue(result), prev, bits, n)
    ensures bits' < 8 && 8 * |result'| + bits' == 8 * |result| + bits + 5
    ensures Holds(BytesValue(result'), prev', bits', n * 32 + v)
  {
    PowersUsed();
    hide Pow2, PushBits, Holds;
    PushKeeps(BytesValue(result), prev, bits, n, 5, v);
    prev' := PushBits(prev, 5, v);
    bits' := bits + 5;
    result' := result;
    if bits' >= 8 {
      TakeKeeps(BytesValue(result), prev', bits', n * 32 + v, 8);
      var byte := ByteWindow(prev', bits' - 8);
      BytesSnoc(result, byte);
      result' := result + [byte];
      bits' := bits' - 8;
    }
  }

  function ByteWindow(acc: nat, r: nat): Byte
  {
    (acc / Pow2(r)) % 256
  }

  lemma {:induction false} QuintRange(c: char)
    ensures -2 <= Quint(c) < 32
  {
  }

  lemma {:induction false} NothingHeld()
    ensures Holds(BytesValue([]), 0, 0, Number([]))
  {
    assert Pow2(0) == 1;
    assert Number([]) == 0;
  }

  lemma {:induction false} HeldHead(head: nat, acc: nat, r: nat, n: int)
    requires Holds(head, acc, r, n)
    ensures n / Pow2(r) == head
  {
    hide Pow2;
    DivMod(acc, Pow2(r));
    DivModUnique(n, Pow2(r), head, acc % Pow2(r));
  }

  // ---------------------------------------------------------------------
  // Round trip
  // ---------------------------------------------------------------------

  /** The alphabet's text of quintets is read as those quintets. */
  lemma {:induction false} TextRead(q: seq<Quintet>)
    ensures Quintets(Text(q)) == q
    decreases |q|
  {
    hide Symbol, Quint;
    if q != [] {
      SymbolRead(q[0]);
      TextRead(q[1..]);
      assert Text(q)[1..] == Text(q[1..]);
      hide Text;
      assert Quintets(Text(q)) == [q[0]] + Quintets(Text(q[1..]));
    } else {
      assert Text(q) == "";
    }
  }

  /** Decoding the text of a byte string gives the byte string back. */
  method EncodeThenDecode(value: seq<Byte>) returns (result: seq<Byte>)
    ensures result == value
  {
    hide Pow2, Text, Quintets, Number, BytesValue;
    var text := Encode(value);
    result := Decode(text);
    ghost var q, pad := Quintets(text), 5 * |text| - 8 * |value|;
    DivModUnique(5 * |text|, 8, |value|, pad);
    DivModUnique(Number(q), Pow2(pad), BytesValue(value), 0);
    BytesInjective(result, value);
  }
}

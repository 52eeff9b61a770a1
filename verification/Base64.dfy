/**
 Base 64 with either alphabet of RFC 4648 (sections 4 and 5), padded or not.
 */
module Base64 {
  import opened Words

  type Sextet = x: int | 0 <= x < 64

  /** What an alphabet must give: 64 different characters, all of them accepted, none of them the padding or NUL. */
  ghost predicate IsAlphabet(alphabet: string, accepts: char -> bool)
  {
    && |alphabet| == 64
    && (forall i, j :: 0 <= i < j < 64 ==> alphabet[i] != alphabet[j])
    && (forall i :: 0 <= i < 64 ==> accepts(alphabet[i]) && alphabet[i] != '=' && alphabet[i] != '\0')
  }

  /** Three bytes as four sextets, and back. */
  function First(x: Byte): Sextet { x / 4 }
  function Second(x: Byte, y: Byte): Sextet { (x % 4) * 16 + y / 16 }
  function Third(y: Byte, z: Byte): Sextet { (y % 16) * 4 + z / 64 }
  function Fourth(z: Byte): Sextet { z % 64 }

  function ByteOne(a: Sextet, b: Sextet): Byte { a * 4 + b / 16 }
  function ByteTwo(b: Sextet, c: Sextet): Byte { (b % 16) * 16 + c / 4 }
  function ByteThree(c: Sextet, d: Sextet): Byte { (c % 4) * 64 + d }

  lemma {:induction false} Packing(x: Byte, y: Byte, z: Byte)
    ensures ByteOne(First(x), Second(x, y)) == x
    ensures ByteTwo(Second(x, y), Third(y, z)) == y
    ensures ByteThree(Third(y, z), Fourth(z)) == z
  {
  }

  /** The text of a byte string. */
  function Encoded(s: seq<Byte>, alphabet: string, padding: bool): string
    requires |alphabet| == 64
  {
    if s == [] then ""
    else if |s| == 1 then
      [alphabet[First(s[0])], alphabet[Second(s[0], 0)]] + (if padding then "==" else "")
    else if |s| == 2 then
      [alphabet[First(s[0])], alphabet[Second(s[0], s[1])], alphabet[Third(s[1], 0)]] + (if padding then "=" else "")
    else
      [alphabet[First(s[0])], alphabet[Second(s[0], s[1])], alphabet[Third(s[1], s[2])], alphabet[Fourth(s[2])]]
      + Encoded(s[3..], alphabet, padding)
  }

  /** `offset_of64`: the place of a character, 63 for a character that is not there. */
  function OffsetOf(alphabet: string, c: char, i: nat): (r: Sextet)
    requires |alphabet| == 64 && i <= 64
    decreases 64 - i
  {
    if i == 64 then 63 else if alphabet[i] == c then i else OffsetOf(alphabet, c, i + 1)
  }

  lemma {:induction false} OffsetFound(alphabet: string, accepts: char -> bool, v: Sextet, i: nat)
    requires IsAlphabet(alphabet, accepts) && i <= v
    ensures OffsetOf(alphabet, alphabet[v], i) == v
    decreases v - i
  {
    if i < v {
      OffsetFound(alphabet, accepts, v, i + 1);
    }
  }

  predicate Stops(c: char, accepts: char -> bool)
  {
    c == '=' || !accepts(c)
  }

  /** What the decoder makes of a text: groups of four up to the first character it stops at. */
  function Decoded(t: string, alphabet: string, accepts: char -> bool): seq<Byte>
    requires |alphabet| == 64
    decreases |t|
  {
    if |t| < 1 || Stops(t[0], accepts) then []
    else if |t| < 2 || Stops(t[1], accepts) then Tail([t[0]], alphabet)
    else if |t| < 3 || Stops(t[2], accepts) then Tail([t[0], t[1]], alphabet)
    else if |t| < 4 || Stops(t[3], accepts) then Tail([t[0], t[1], t[2]], alphabet)
    else Group(t[0], t[1], t[2], t[3], alphabet) + Decoded(t[4..], alphabet, accepts)
  }

  function Group(p: char, q: char, r: char, s: char, alphabet: string): seq<Byte>
    requires |alphabet| == 64
  {
    var a, b := OffsetOf(alphabet, p, 0), OffsetOf(alphabet, q, 0);
    var c, d := OffsetOf(alphabet, r, 0), OffsetOf(alphabet, s, 0);
    [ByteOne(a, b), ByteTwo(b, c), ByteThree(c, d)]
  }

  /** An incomplete group is filled with NUL, and one byte less than it has characters is kept. */
  function Tail(row: string, alphabet: string): seq<Byte>
    requires |alphabet| == 64 && 1 <= |row| <= 3
  {
    Group(row[0], CharAt(row, 1), CharAt(row, 2), '\0', alphabet)[..|row| - 1]
  }

  function CharAt(row: string, i: nat): char
  {
    if i < |row| then row[i] else '\0'
  }

  /** The four characters of three bytes are read back as those bytes, and none of them stops the decoder. */
  lemma {:induction false} GroupDecodes(x: Byte, y: Byte, z: Byte, alphabet: string, accepts: char -> bool)
    requires IsAlphabet(alphabet, accepts)
    ensures var p, q, r, s := alphabet[First(x)], alphabet[Second(x, y)], alphabet[Third(y, z)], alphabet[Fourth(z)];
            && Group(p, q, r, s, alphabet) == [x, y, z]
            && !Stops(p, accepts) && !Stops(q, accepts) && !Stops(r, accepts) && !Stops(s, accepts)
  {
    hide First, Second, Third, Fourth, ByteOne, ByteTwo, ByteThree, OffsetOf;
    Packing(x, y, z);
    OffsetFound(alphabet, accepts, First(x), 0);
    OffsetFound(alphabet, accepts, Second(x, y), 0);
    OffsetFound(alphabet, accepts, Third(y, z), 0);
    OffsetFound(alphabet, accepts, Fourth(z), 0);
  }

  /** An incomplete group reads back the bytes it was made of: they do not depend on the missing characters. */
  lemma {:induction false} TailOfOne(x: Byte, alphabet: string, accepts: char -> bool)
    requires IsAlphabet(alphabet, accepts)
    ensures Tail([alphabet[First(x)], alphabet[Second(x, 0)]], alphabet) == [x]
  {
    hide First, Second, ByteOne, ByteTwo, ByteThree, OffsetOf, IsAlphabet;
    Packing(x, 0, 0);
    OffsetFound(alphabet, accepts, First(x), 0);
    OffsetFound(alphabet, accepts, Second(x, 0), 0);
    AlphabetSize(alphabet, accepts);
    var row := [alphabet[First(x)], alphabet[Second(x, 0)]];
    var g := Group(row[0], row[1], '\0', '\0', alphabet);
    assert g[0] == x;
    assert g[..1] == [x];
  }

  lemma {:induction false} TailOfTwo(x: Byte, y: Byte, alphabet: string, accepts: char -> bool)
    requires IsAlphabet(alphabet, accepts)
    ensures Tail([alphabet[First(x)], alphabet[Second(x, y)], alphabet[Third(y, 0)]], alphabet) == [x, y]
  {
    hide First, Second, Third, ByteOne, ByteTwo, ByteThree, OffsetOf, IsAlphabet;
    Packing(x, y, 0);
    OffsetFound(alphabet, accepts, First(x), 0);
    OffsetFound(alphabet, accepts, Second(x, y), 0);
    OffsetFound(alphabet, accepts, Third(y, 0), 0);
    AlphabetSize(alphabet, accepts);
    var row := [alphabet[First(x)], alphabet[Second(x, y)], alphabet[Third(y, 0)]];
    var g := Group(row[0], row[1], row[2], '\0', alphabet);
    assert g[0] == x && g[1] == y;
    assert g[..2] == [x, y];
  }

  /** Decoding inverts encoding, for every byte string, alphabet and padding choice. */
  lemma {:induction false} DecodeEncode(s: seq<Byte>, alphabet: string, accepts: char -> bool, padding: bool)
    requires IsAlphabet(alphabet, accepts)
    ensures Decoded(Encoded(s, alphabet, padding), alphabet, accepts) == s
    decreases |s|
  {
    hide First, Second, Third, Fourth, Group, Tail, IsAlphabet;
    AlphabetSize(alphabet, accepts);
    var t := Encoded(s, alphabet, padding);
    if |s| >= 3 {
      GroupDecodes(s[0], s[1], s[2], alphabet, accepts);
      DecodeEncode(s[3..], alphabet, accepts, padding);
      assert t[4..] == Encoded(s[3..], alphabet, padding);
      assert s == [s[0], s[1], s[2]] + s[3..];
    } else if |s| == 2 {
      GroupDecodes(s[0], s[1], 0, alphabet, accepts);
      TailOfTwo(s[0], s[1], alphabet, accepts);
      assert s == [s[0], s[1]];
    } else if |s| == 1 {
      GroupDecodes(s[0], 0, 0, alphabet, accepts);
      TailOfOne(s[0], alphabet, accepts);
      assert s == [s[0]];
    }
  }

  lemma {:induction false} AlphabetSize(alphabet: string, accepts: char -> bool)
    requires IsAlphabet(alphabet, accepts)
    ensures |alphabet| == 64
  {
  }

  // ---------------------------------------------------------------------
  // The loops
  // ---------------------------------------------------------------------

  /** One full row as four characters. */
  function Quad(x: Byte, y: Byte, z: Byte, alphabet: string): string
    requires |alphabet| == 64
  {
    [alphabet[First(x)], alphabet[Second(x, y)], alphabet[Third(y, z)], alphabet[Fourth(z)]]
  }

  lemma {:induction false} EncodedRow(row: seq<Byte>, rest: seq<Byte>, alphabet: string, padding: bool)
    requires |row| == 3 && |alphabet| == 64
    ensures Encoded(row + rest, alphabet, padding)
         == Quad(row[0], row[1], row[2], alphabet) + Encoded([] + rest, alphabet, padding)
  {
    hide First, Second, Third, Fourth;
    assert (row + rest)[3..] == rest == [] + rest;
  }

  /** `encode64`: collect three bytes, emit four characters; flush what is left. */
  method Encode(alphabet: string, value: seq<Byte>, padding: bool) returns (result: string)
    requires |alphabet| == 64
    ensures result == Encoded(value, alphabet, padding)
  {
    hide Encoded, Quad;
    result := "";
    var row: seq<Byte> := [];
    assert row + value[0..] == value;
    for i := 0 to |value|
      invariant |row| < 3
      invariant result + Encoded(row + value[i..], alphabet, padding) == Encoded(value, alphabet, padding)
    {
      assert row + value[i..] == (row + [value[i]]) + value[i + 1..];
      row := row + [value[i]];
      if |row| == 3 {
        EncodedRow(row, value[i + 1..], alphabet, padding);
        result := result + Quad(row[0], row[1], row[2], alphabet);
        row := [];
      }
    }
    assert row + value[|value|..] == row;
    var last := Flush(row, alphabet, padding);
    result := result + last;
  }

  /** The end of `encode64`: zero bytes complete the row, only the characters that carry bits are kept. */
  method Flush(row: seq<Byte>, alphabet: string, padding: bool) returns (last: string)
    requires |row| < 3 && |alphabet| == 64
    ensures last == Encoded(row, alphabet, padding)
  {
    hide First, Second, Third, Fourth;
    if row == [] {
      return "";
    }
    var quad := Quad(row[0], if |row| > 1 then row[1] else 0, 0, alphabet);
    last := quad[..|row| + 1];
    if !padding {
      return;
    }
    last := last + (if |row| == 1 then "==" else "=");
  }

  /** `decode64` */
  method Decode(alphabet: string, value: string, accepts: char -> bool) returns (result: seq<Byte>)
    requires |alphabet| == 64
    ensures result == Decoded(value, alphabet, accepts)
  {
    hide Group;
    result := [];
    var row := "";
    var focus := 0;
    assert row + value[0..] == value;
    while focus < |value| && !Stops(value[focus], accepts)
      invariant focus <= |value| && |row| < 4
      invariant forall i :: 0 <= i < |row| ==> !Stops(row[i], accepts)
      invariant result + Decoded(row + value[focus..], alphabet, accepts) == Decoded(value, alphabet, accepts)
      decreases |value| - focus
    {
      assert row + value[focus..] == (row + [value[focus]]) + value[focus + 1..];
      row := row + [value[focus]];
      focus := focus + 1;
      if |row| == 4 {
        assert (row + value[focus..])[4..] == value[focus..];
        assert "" + value[focus..] == value[focus..];
        result := result + Group(row[0], row[1], row[2], row[3], alphabet);
        row := "";
      }
    }
    Leftover(row, value[focus..], alphabet, accepts);
    if row == "" {
      return;
    }
    result := result + Tail(row, alphabet);
  }

  lemma {:induction false} Leftover(row: string, rest: string, alphabet: string, accepts: char -> bool)
    requires |alphabet| == 64 && |row| < 4 && (rest != "" ==> Stops(rest[0], accepts))
    requires forall i :: 0 <= i < |row| ==> !Stops(row[i], accepts)
    ensures Decoded(row + rest, alphabet, accepts) == if row == "" then [] else Tail(row, alphabet)
  {
    hide Group;
    var t := row + rest;
    if |row| == 1 {
      assert row == [t[0]];
    } else if |row| == 2 {
      assert row == [t[0], t[1]];
    } else if |row| == 3 {
      assert row == [t[0], t[1], t[2]];
    }
  }

  // ---------------------------------------------------------------------
  // The two alphabets
  // ---------------------------------------------------------------------

  predicate IsBase64(c: char)
  {
    ('0' <= c <= '9') || ('a' <= c <= 'z') || ('A' <= c <= 'Z') || c == '+' || c == '/'
  }

  predicate IsBase64Url(c: char)
  {
    ('0' <= c <= '9') || ('a' <= c <= 'z') || ('A' <= c <= 'Z') || c == '-' || c == '_'
  }

  /** The character of a sextet: A-Z, a-z, 0-9 and two characters in which the alphabets differ. */
  function Symbol(i: nat, plus: char, slash: char): char
    requires i < 64
  {
    if i < 26 then ('A' as int + i) as char
    else if i < 52 then ('a' as int + i - 26) as char
    else if i < 62 then ('0' as int + i - 52) as char
    else if i == 62 then plus else slash
  }

  function Alphabet(plus: char, slash: char): (s: string)
    ensures |s| == 64 && forall i :: 0 <= i < 64 ==> s[i] == Symbol(i, plus, slash)
  {
    seq(64, i requires 0 <= i < 64 => Symbol(i, plus, slash))
  }

  /** The standard and the URL alphabet meet what encoding and decoding need. */
  lemma {:induction false} BothAreAlphabets()
    ensures IsAlphabet(Alphabet('+', '/'), IsBase64) && IsAlphabet(Alphabet('-', '_'), IsBase64Url)
  {
    ByRange(Alphabet('+', '/'), '+', '/', IsBase64);
    ByRange(Alphabet('-', '_'), '-', '_', IsBase64Url);
  }

  lemma {:induction false} ByRange(alphabet: string, plus: char, slash: char, accepts: char -> bool)
    requires |alphabet| == 64 && (forall i :: 0 <= i < 64 ==> alphabet[i] == Symbol(i, plus, slash))
    requires plus in {'+', '-'} && slash in {'/', '_'} && accepts(plus) && accepts(slash)
    requires forall c :: ('0' <= c <= '9') || ('a' <= c <= 'z') || ('A' <= c <= 'Z') ==> accepts(c)
    ensures IsAlphabet(alphabet, accepts)
  {
  }
}

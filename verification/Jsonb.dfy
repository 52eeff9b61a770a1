/**
 The binary form of `schema` trees: a version, a dictionary of key names, and the
 tree with its keys as dictionary numbers. Every length field is narrower than the
 length it carries, so the writer's casts are written out.
 */
module Jsonb {
  import opened Words
  import opened Radix
  import opened Decimal
  import opened DecimalText
  import Digits10

  const W16: int := 65536
  const VERSION: nat := 0xef1033dd
  const NO_KEY: int := 0xffff_ffff

  /** Type codes without a payload, and codes the reader does not know, are Plain. */
  datatype Value =
    | Plain(code: Byte)
    | Object
    | Array
    | Pointer(address: U64)
    | Text(bytes: seq<Byte>)
    | Binary(bytes: seq<Byte>)
    | Integer(bits: U64)
    | Number(bits: U64)
    | Dec(num: Num)
    | Boolean(b: bool)

  datatype Node = Node(key: seq<Byte>, value: Value, nodes: seq<Node>)

  function Code(v: Value): Byte
  {
    match v
    case Plain(code) => code
    case Object => 2
    case Array => 3
    case Pointer(_) => 4
    case Text(_) => 5
    case Binary(_) => 6
    case Integer(_) => 7
    case Number(_) => 8
    case Dec(_) => 9
    case Boolean(_) => 10
  }

  // ---------------------------------------------------------------------
  // Fields
  // ---------------------------------------------------------------------

  /** The n low bytes of x, least significant first. */
  function LittleEndian(x: nat, n: nat): (s: seq<Byte>)
    ensures |s| == n
  {
    if n == 0 then [] else [x % 256] + LittleEndian(x / 256, n - 1)
  }

  function FieldValue(s: seq<Byte>): (x: nat)
  {
    if s == [] then 0 else s[0] + 256 * FieldValue(s[1..])
  }

  lemma {:induction false} FieldRoundTrip(x: nat, n: nat)
    requires x < Pow(256, n)
    ensures FieldValue(LittleEndian(x, n)) == x
    decreases n
  {
    if n > 0 {
      FieldRoundTrip(x / 256, n - 1);
      assert LittleEndian(x, n)[1..] == LittleEndian(x / 256, n - 1);
    }
  }

  lemma {:induction false} FieldWidths()
    ensures Pow(256, 2) == W16 && Pow(256, 4) == W32 && Pow(256, 8) == W64
  {
    assert Pow(256, 4) == 256 * (256 * (256 * (256 * Pow(256, 0))));
    assert Pow(256, 8) == 256 * (256 * (256 * (256 * Pow(256, 4))));
  }

  predicate IsAscii(t: string)
  {
    forall i :: 0 <= i < |t| ==> t[i] as int < 256
  }

  function ToBytes(t: string): (s: seq<Byte>)
    requires IsAscii(t)
    ensures |s| == |t|
  {
    if t == "" then [] else [t[0] as int] + ToBytes(t[1..])
  }

  function FromBytes(s: seq<Byte>): (t: string)
    ensures |t| == |s|
  {
    if s == [] then "" else [s[0] as char] + FromBytes(s[1..])
  }

  lemma {:induction false} ShownAscii(s: seq<Digits10.Digit>)
    ensures IsAscii(Shown(s))
    decreases |s|
  {
    if s != [] {
      ShownAscii(s[1..]);
    }
  }

  lemma {:induction false} PrintedAscii(d: Num)
    requires d.length <= |d.source|
    ensures IsAscii(Printed(d))
  {
    hide Untrailed, Layout, Prefixed, IsAscii;
    UntrailedBounds(d);
    var u := Untrailed(d);
    LayoutAscii(u.source, u.length);
    PrefixAscii(d.sign, Layout(u.source, u.length));
    NotANumberAscii();
  }

  lemma {:induction false} NotANumberAscii()
    ensures IsAscii("NaN")
  {
  }

  lemma {:induction false} PrefixAscii(sign: Sign, body: string)
    requires IsAscii(body)
    ensures IsAscii(Prefixed(sign, body))
  {
  }

  lemma {:induction false} LayoutAscii(source: seq<Digits10.Digit>, length: nat)
    requires length <= |source|
    ensures IsAscii(Layout(source, length))
  {
    hide Shown;
    ShownAscii(source);
    ShownAscii(source[length..]);
    ShownAscii(source[..length]);
  }

  lemma {:induction false} TextRoundTrip(t: string, n: nat)
    requires IsAscii(t) && n <= |t|
    ensures FromBytes(ToBytes(t)[..n]) == t[..n]
    decreases |t|
  {
    if n > 0 {
      TextRoundTrip(t[1..], n - 1);
      assert ToBytes(t)[..n][1..] == ToBytes(t[1..])[..n - 1];
      assert t[..n] == [t[0]] + t[1..][..n - 1];
    }
  }

  // ---------------------------------------------------------------------
  // The dictionary
  // ---------------------------------------------------------------------

  type Names = map<seq<Byte>, nat>

  /** `generate_naming_table`: keys in the order they are met, each numbered once. */
  function Name(key: seq<Byte>, m: Names): Names
  {
    if key == [] || key in m then m else m[key := |m|]
  }

  function NamesOf(n: Node, m: Names): Names
    decreases n, 0
  {
    NamesOfAll(n.nodes, Name(n.key, m))
  }

  function NamesOfAll(ns: seq<Node>, m: Names): Names
    decreases ns
  {
    if ns == [] then m else NamesOfAll(ns[1..], NamesOf(ns[0], m))
  }

  /** Numbers are below the size and no two names share one. */
  ghost predicate Numbered(m: Names)
  {
    && (forall k :: k in m ==> k != [] && m[k] < |m|)
    && (forall j, k :: j in m && k in m && m[j] == m[k] ==> j == k)
  }

  ghost predicate Extends(m: Names, m': Names)
  {
    forall k :: k in m ==> k in m' && m'[k] == m[k]
  }

  /** Every key of the tree has a number. */
  ghost predicate Covers(m: Names, n: Node)
    decreases n, 0
  {
    (n.key != [] ==> n.key in m) && CoversAll(m, n.nodes)
  }

  ghost predicate CoversAll(m: Names, ns: seq<Node>)
    decreases ns
  {
    ns == [] || (Covers(m, ns[0]) && CoversAll(m, ns[1..]))
  }

  lemma {:induction false} NameKeeps(key: seq<Byte>, m: Names)
    requires Numbered(m)
    ensures var m' := Name(key, m); Numbered(m') && Extends(m, m') && (key != [] ==> key in m')
  {
    if key != [] && key !in m {
      var m' := m[key := |m|];
      assert m'.Keys == m.Keys + {key};
      assert |m'| == |m| + 1;
    }
  }

  lemma {:induction false} CoversMore(m: Names, m': Names, n: Node)
    requires Extends(m, m') && Covers(m, n)
    ensures Covers(m', n)
    decreases n, 0
  {
    CoversMoreAll(m, m', n.nodes);
  }

  lemma {:induction false} CoversMoreAll(m: Names, m': Names, ns: seq<Node>)
    requires Extends(m, m') && CoversAll(m, ns)
    ensures CoversAll(m', ns)
    decreases ns
  {
    if ns != [] {
      CoversMore(m, m', ns[0]);
      CoversMoreAll(m, m', ns[1..]);
    }
  }

  lemma {:induction false} NamesCover(n: Node, m: Names)
    requires Numbered(m)
    ensures var m' := NamesOf(n, m); Numbered(m') && Extends(m, m') && Covers(m', n)
    decreases n, 0
  {
    NameKeeps(n.key, m);
    NamesCoverAll(n.nodes, Name(n.key, m));
  }

  lemma {:induction false} NamesCoverAll(ns: seq<Node>, m: Names)
    requires Numbered(m)
    ensures var m' := NamesOfAll(ns, m); Numbered(m') && Extends(m, m') && CoversAll(m', ns)
    decreases ns
  {
    if ns != [] {
      NamesCover(ns[0], m);
      NamesCoverAll(ns[1..], NamesOf(ns[0], m));
      CoversMore(NamesOf(ns[0], m), NamesOfAll(ns, m), ns[0]);
    }
  }

  // ---------------------------------------------------------------------
  // Writing
  // ---------------------------------------------------------------------

  /** A length cut to its field, and the bytes that go with it. */
  function Sized(s: seq<Byte>, width: nat): seq<Byte>
  {
    LittleEndian(|s| % Limit(width), width) + s[..|s| % Limit(width)]
  }

  function Limit(width: nat): (l: nat)
    ensures l > 0
  {
    if width == 2 then W16 else W32
  }

  /** What the model stores: children only under objects and arrays, and counts that fit their field. */
  predicate Storable(n: Node)
    decreases n, 0
  {
    && (n.value.Dec? ==> n.value.num.length <= |n.value.num.source|)
    && (n.value.Plain? ==> n.value.code !in {2, 3, 4, 5, 6, 7, 8, 9, 10})
    && (!n.value.Object? && !n.value.Array? ==> n.nodes == [])
    && |n.nodes| < W32
    && StorableAll(n.nodes)
  }

  predicate StorableAll(ns: seq<Node>)
    decreases ns
  {
    ns == [] || (Storable(ns[0]) && StorableAll(ns[1..]))
  }

  function KeyField(key: seq<Byte>, m: Names): nat
    requires key != [] ==> key in m
  {
    if key == [] then NO_KEY else m[key] % W32
  }

  function Write(n: Node, m: Names): seq<Byte>
    requires Storable(n) && Covers(m, n)
    decreases n, 0
  {
    LittleEndian(KeyField(n.key, m), 4) + [Code(n.value)] + Payload(n, m)
  }

  function Payload(n: Node, m: Names): seq<Byte>
    requires Storable(n) && Covers(m, n)
    decreases n.nodes, 1
  {
    match n.value
    case Object => LittleEndian(|n.nodes| % W32, 4) + WriteAll(n.nodes, m)
    case Array => LittleEndian(|n.nodes| % W32, 4) + WriteAll(n.nodes, m)
    case Text(s) => Sized(s, 4)
    case Binary(s) => Sized(s, 4)
    case Dec(d) => PrintedAscii(d); Sized(ToBytes(Printed(d)), 2)
    case Integer(bits) => LittleEndian(bits, 8)
    case Number(bits) => LittleEndian(bits, 8)
    case Boolean(b) => [if b then 1 else 0]
    case Pointer(_) => []
    case Plain(_) => []
  }

  function WriteAll(ns: seq<Node>, m: Names): seq<Byte>
    requires StorableAll(ns) && CoversAll(m, ns)
    decreases ns, 0
  {
    if ns == [] then [] else Write(ns[0], m) + WriteAll(ns[1..], m)
  }

  /** The dictionary in any order of its entries. */
  function WriteEntries(order: seq<seq<Byte>>, m: Names): seq<Byte>
    requires forall i :: 0 <= i < |order| ==> order[i] in m
  {
    if order == [] then []
    else LittleEndian(m[order[0]] % W32, 4) + Sized(order[0], 2) + WriteEntries(order[1..], m)
  }

  /** An iteration order of the dictionary: every name exactly once. */
  ghost predicate IsOrder(order: seq<seq<Byte>>, m: Names)
  {
    && |order| == |m|
    && (forall i :: 0 <= i < |order| ==> order[i] in m)
    && (forall k :: k in m ==> k in order)
    && (forall i, j :: 0 <= i < j < |order| ==> order[i] != order[j])
  }

  function WriteTree(n: Node, order: seq<seq<Byte>>, m: Names): seq<Byte>
    requires Storable(n) && Covers(m, n) && forall i :: 0 <= i < |order| ==> order[i] in m
  {
    LittleEndian(VERSION, 8) + LittleEndian(|m| % W32, 4) + WriteEntries(order, m) + Write(n, m)
  }

  // ---------------------------------------------------------------------
  // Reading
  // ---------------------------------------------------------------------

  datatype Error =
    | BadVersion | BadDictionary | BadNameIndex | BadName
    | BadKeyName | BadKeyType | BadValue | BadString | BadInteger | BadDouble | BadBoolean

  datatype Result<T> = Fail(error: Error) | Ok(item: T, pos: nat)

  type Keys = map<nat, seq<Byte>>

  /** A field of n bytes at a position, if there are that many. */
  function Field(b: seq<Byte>, pos: nat, n: nat, error: Error): (r: Result<seq<Byte>>)
    ensures r.Ok? <==> pos + n <= |b|
    ensures r.Ok? ==> r.pos == pos + n && r.item == b[pos..pos + n]
  {
    if pos + n > |b| then Fail(error) else Ok(b[pos..pos + n], pos + n)
  }

  /** A size field and that many bytes. */
  function SizedField(b: seq<Byte>, pos: nat, width: nat): (r: Result<seq<Byte>>)
    ensures r.Ok? ==> r.pos >= pos + width && r.pos <= |b|
  {
    match Field(b, pos, width, BadValue)
    case Fail(e) => Fail(e)
    case Ok(size, p) => Field(b, p, FieldValue(size), BadString)
  }

  function KeyOf(field: nat, keys: Keys): seq<Byte>
  {
    if field != NO_KEY && field in keys then keys[field] else []
  }

  function ReadNode(b: seq<Byte>, pos: nat, keys: Keys): (r: Result<Node>)
    requires pos <= |b|
    ensures r.Ok? ==> pos < r.pos <= |b|
    decreases |b| - pos, 0
  {
    match Field(b, pos, 4, BadKeyName)
    case Fail(e) => Fail(e)
    case Ok(id, p) =>
      var key := KeyOf(FieldValue(id), keys);
      match Field(b, p, 1, BadKeyType)
      case Fail(e) => Fail(e)
      case Ok(code, q) => ReadPayload(b, q, keys, key, code[0])
  }

  function ReadPayload(b: seq<Byte>, pos: nat, keys: Keys, key: seq<Byte>, code: Byte): (r: Result<Node>)
    requires pos <= |b|
    ensures r.Ok? ==> pos <= r.pos <= |b|
    decreases |b| - pos, 2
  {
    if code == 2 || code == 3 then
      match Field(b, pos, 4, BadValue)
      case Fail(e) => Fail(e)
      case Ok(count, p) =>
        match ReadNodes(b, p, keys, FieldValue(count), [])
        case Fail(e) => Fail(e)
        case Ok(nodes, q) => Ok(Node(key, if code == 2 then Object else Array, nodes), q)
    else ReadScalar(b, pos, key, code)
  }

  function ReadNodes(b: seq<Byte>, pos: nat, keys: Keys, count: nat, acc: seq<Node>): (r: Result<seq<Node>>)
    requires pos <= |b|
    ensures r.Ok? ==> pos <= r.pos <= |b|
    decreases |b| - pos, 1
  {
    if count == 0 then Ok(acc, pos)
    else
      match ReadNode(b, pos, keys)
      case Fail(e) => Fail(e)
      case Ok(n, p) => ReadNodes(b, p, keys, count - 1, acc + [n])
  }

  function ReadScalar(b: seq<Byte>, pos: nat, key: seq<Byte>, code: Byte): (r: Result<Node>)
    requires pos <= |b| && code != 2 && code != 3
    ensures r.Ok? ==> pos <= r.pos <= |b|
  {
    if code == 5 || code == 6 then
      match SizedField(b, pos, 4)
      case Fail(e) => Fail(e)
      case Ok(s, p) => Ok(Node(key, if code == 5 then Text(s) else Binary(s), []), p)
    else if code == 7 then
      match Field(b, pos, 8, BadInteger)
      case Fail(e) => Fail(e)
      case Ok(s, p) => FieldBound(s); Ok(Node(key, Integer(FieldValue(s)), []), p)
    else if code == 8 then
      match Field(b, pos, 8, BadDouble)
      case Fail(e) => Fail(e)
      case Ok(s, p) => FieldBound(s); Ok(Node(key, Number(FieldValue(s)), []), p)
    else if code == 9 then
      match SizedField(b, pos, 2)
      case Fail(e) => Fail(e)
      case Ok(s, p) => Ok(Node(key, Dec(Parsed(FromBytes(s))), []), p)
    else if code == 10 then
      match Field(b, pos, 1, BadBoolean)
      case Fail(e) => Fail(e)
      case Ok(s, p) => Ok(Node(key, Boolean(s[0] != 0), []), p)
    else Ok(Node(key, if code == 4 then Pointer(0) else Plain(code), []), pos)
  }

  lemma {:induction false} FieldBound(s: seq<Byte>)
    requires |s| == 8
    ensures FieldValue(s) < W64
  {
    FieldBelow(s);
    FieldWidths();
  }

  lemma {:induction false} FieldBelow(s: seq<Byte>)
    ensures FieldValue(s) < Pow(256, |s|)
    decreases |s|
  {
    if s != [] {
      FieldBelow(s[1..]);
    }
  }

  /** `map.insert` keeps the first name of a number; an empty name is skipped. */
  function Insert(keys: Keys, id: nat, name: seq<Byte>): Keys
  {
    if name == [] || id in keys then keys else keys[id := name]
  }

  function ReadEntries(b: seq<Byte>, pos: nat, count: nat, keys: Keys): (r: Result<Keys>)
    requires pos <= |b|
    ensures r.Ok? ==> pos <= r.pos <= |b|
    decreases count
  {
    if count == 0 then Ok(keys, pos)
    else
      match Field(b, pos, 4, BadNameIndex)
      case Fail(e) => Fail(e)
      case Ok(id, p) =>
        match Field(b, p, 2, BadName)
        case Fail(e) => Fail(e)
        case Ok(size, q) =>
          match Field(b, q, FieldValue(size), BadName)
          case Fail(e) => Fail(e)
          case Ok(name, s) => ReadEntries(b, s, count - 1, Insert(keys, FieldValue(id), name))
  }

  function ReadTree(b: seq<Byte>): Result<Node>
  {
    match Field(b, 0, 8, BadVersion)
    case Fail(e) => Fail(e)
    case Ok(version, p) =>
      if FieldValue(version) != VERSION then Fail(BadVersion)
      else
        match Field(b, p, 4, BadDictionary)
        case Fail(e) => Fail(e)
        case Ok(count, q) =>
          match ReadEntries(b, q, FieldValue(count), map[])
          case Fail(e) => Fail(e)
          case Ok(keys, s) => ReadNode(b, s, keys)
  }
}

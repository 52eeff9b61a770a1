/**
 * The bytes of the format, said in numbers: the header, the dictionary and the nodes as little-endian fields and
 * type bytes. A document has this layout if and only if the writer writes it, and the reader reads it.
 */
module JsonbLayout {
  import opened Words
  import opened Radix
  import opened Decimal
  import opened DecimalText
  import opened Jsonb
  import opened JsonbRoundTrip

  /** The n bytes at pos are those of x, least significant first. */
  ghost predicate FieldIs(b: seq<Byte>, pos: nat, n: nat, x: nat)
  {
    pos + n <= |b| && forall j: nat :: j < n ==> Pow(256, j) > 0 && b[pos + j] as int == x / Pow(256, j) % 256
  }

  ghost predicate BytesAre(b: seq<Byte>, pos: nat, end: nat, s: seq<Byte>)
  {
    pos <= end <= |b| && b[pos..end] == s
  }

  /** The node takes the bytes from pos to end. */
  ghost predicate NodeIs(b: seq<Byte>, pos: nat, end: nat, n: Node, m: Names)
    requires Storable(n) && Covers(m, n)
    decreases n, 1
  {
    && FieldIs(b, pos, 4, if n.key == [] then 0xffff_ffff else m[n.key] % 0x1_0000_0000)
    && pos + 5 <= end <= |b|
    && match n.value
       case Plain(code) => b[pos + 4] == code && end == pos + 5
       case Object => b[pos + 4] == 2 && ChildrenAre(b, pos + 5, end, n.nodes, m)
       case Array => b[pos + 4] == 3 && ChildrenAre(b, pos + 5, end, n.nodes, m)
       case Pointer(_) => b[pos + 4] == 4 && end == pos + 5
       case Text(s) => b[pos + 4] == 5 && SizedIs(b, pos + 5, end, 4, s, 0x1_0000_0000)
       case Binary(s) => b[pos + 4] == 6 && SizedIs(b, pos + 5, end, 4, s, 0x1_0000_0000)
       case Integer(bits) => b[pos + 4] == 7 && FieldIs(b, pos + 5, 8, bits) && end == pos + 13
       case Number(bits) => b[pos + 4] == 8 && FieldIs(b, pos + 5, 8, bits) && end == pos + 13
       case Dec(d) =>
         PrintedAscii(d);
         b[pos + 4] == 9 && SizedIs(b, pos + 5, end, 2, ToBytes(Printed(d)), 0x1_0000)
       case Boolean(v) => b[pos + 4] == 10 && end == pos + 6 && b[pos + 5] == (if v then 1 else 0)
  }

  /** A length, cut to its field, and as many bytes. */
  ghost predicate SizedIs(b: seq<Byte>, pos: nat, end: nat, width: nat, s: seq<Byte>, limit: nat)
    requires limit > 0
  {
    FieldIs(b, pos, width, |s| % limit) && BytesAre(b, pos + width, end, s[..|s| % limit])
  }

  ghost predicate ChildrenAre(b: seq<Byte>, pos: nat, end: nat, ns: seq<Node>, m: Names)
    requires StorableAll(ns) && CoversAll(m, ns)
    decreases ns, 1
  {
    FieldIs(b, pos, 4, |ns| % 0x1_0000_0000) && NodesAre(b, pos + 4, end, ns, m)
  }

  ghost predicate NodesAre(b: seq<Byte>, pos: nat, end: nat, ns: seq<Node>, m: Names)
    requires StorableAll(ns) && CoversAll(m, ns)
    decreases ns, 0
  {
    if ns == [] then pos == end <= |b|
    else exists mid: nat :: NodeIs(b, pos, mid, ns[0], m) && NodesAre(b, mid, end, ns[1..], m)
  }

  // ---------------------------------------------------------------------
  // Fields
  // ---------------------------------------------------------------------

  lemma {:induction false} EndianByte(x: nat, n: nat, j: nat)
    requires j < n
    ensures Pow(256, j) > 0 && LittleEndian(x, n)[j] as int == x / Pow(256, j) % 256
    decreases n
  {
    PowPositive(256, j);
    if j == 0 {
      assert Pow(256, 0) == 1;
    } else {
      PowPositive(256, j - 1);
      EndianByte(x / 256, n - 1, j - 1);
      DivOfDiv(x, 256, Pow(256, j - 1));
    }
  }

  lemma {:induction false} FieldExactly(b: seq<Byte>, pos: nat, n: nat, x: nat)
    ensures FieldIs(b, pos, n, x) <==> At(b, pos, LittleEndian(x, n))
  {
    var f := LittleEndian(x, n);
    forall j: nat | j < n
      ensures Pow(256, j) > 0 && f[j] as int == x / Pow(256, j) % 256
    {
      EndianByte(x, n, j);
    }
    hide LittleEndian, Pow;
    if pos + n <= |b| {
      var field := b[pos..pos + n];
      assert forall j :: 0 <= j < n ==> field[j] == b[pos + j];
    }
  }

  lemma {:induction false} SizedExactly(b: seq<Byte>, pos: nat, end: nat, width: nat, s: seq<Byte>, limit: nat)
    requires limit > 0 && limit == Limit(width) && (width == 2 || width == 4)
    ensures SizedIs(b, pos, end, width, s, limit) <==> At(b, pos, Sized(s, width)) && end == pos + |Sized(s, width)|
  {
    var f, t := LittleEndian(|s| % limit, width), s[..|s| % limit];
    FieldExactly(b, pos, width, |s| % limit);
    AtSplit(b, pos, f, t);
    hide LittleEndian, FieldIs;
  }

  // ---------------------------------------------------------------------
  // Nodes
  // ---------------------------------------------------------------------

  /** Fields and bytes at a place, one behind the other. */
  lemma {:induction false} Behind(b: seq<Byte>, pos: nat, u: seq<Byte>, v: seq<Byte>, end: nat)
    ensures At(b, pos, u + v) && end == pos + |u + v|
            <==> At(b, pos, u) && At(b, pos + |u|, v) && end == pos + |u| + |v|
  {
    hide At;
    AtSplit(b, pos, u, v);
  }

  lemma {:induction false} OneByte(b: seq<Byte>, pos: nat, x: Byte)
    ensures At(b, pos, [x]) <==> pos < |b| && b[pos] == x
  {
    if pos < |b| {
      assert b[pos..pos + 1] == [b[pos]];
    }
  }

  lemma {:induction false} AtFirst(b: seq<Byte>, pos: nat, u: seq<Byte>)
    ensures At(b, pos, u) ==> pos + |u| <= |b|
    ensures At(b, pos, []) <==> pos <= |b|
  {
    if pos <= |b| {
      assert b[pos..pos] == [];
    }
  }

  /** What stands behind the type byte. */
  ghost predicate PayloadIs(b: seq<Byte>, pos: nat, end: nat, n: Node, m: Names)
    requires Storable(n) && Covers(m, n)
  {
    pos <= end <= |b|
    && match n.value
       case Plain(_) => end == pos
       case Object => ChildrenAre(b, pos, end, n.nodes, m)
       case Array => ChildrenAre(b, pos, end, n.nodes, m)
       case Pointer(_) => end == pos
       case Text(s) => SizedIs(b, pos, end, 4, s, 0x1_0000_0000)
       case Binary(s) => SizedIs(b, pos, end, 4, s, 0x1_0000_0000)
       case Integer(bits) => FieldIs(b, pos, 8, bits) && end == pos + 8
       case Number(bits) => FieldIs(b, pos, 8, bits) && end == pos + 8
       case Dec(d) => PrintedAscii(d); SizedIs(b, pos, end, 2, ToBytes(Printed(d)), 0x1_0000)
       case Boolean(v) => end == pos + 1 && b[pos] == (if v then 1 else 0)
  }

  /** The numbers of the types. */
  lemma {:induction false} TypeNumbers(v: Value)
    ensures Code(v) as int == match v
                              case Plain(code) => code
                              case Object => 2
                              case Array => 3
                              case Pointer(_) => 4
                              case Text(_) => 5
                              case Binary(_) => 6
                              case Integer(_) => 7
                              case Number(_) => 8
                              case Dec(_) => 9
                              case Boolean(_) => 10
  {
  }

  lemma {:induction false} NodeParts(b: seq<Byte>, pos: nat, end: nat, n: Node, m: Names)
    requires Storable(n) && Covers(m, n)
    ensures NodeIs(b, pos, end, n, m)
            <==> FieldIs(b, pos, 4, if n.key == [] then 0xffff_ffff else m[n.key] % 0x1_0000_0000)
                 && pos + 5 <= |b| && b[pos + 4] == Code(n.value) && PayloadIs(b, pos + 5, end, n, m)
  {
    hide FieldIs, SizedIs, ChildrenAre, Printed, ToBytes;
    TypeNumbers(n.value);
  }

  lemma {:induction false} PayloadExactly(b: seq<Byte>, pos: nat, end: nat, n: Node, m: Names)
    requires Storable(n) && Covers(m, n)
    ensures PayloadIs(b, pos, end, n, m) <==> At(b, pos, Payload(n, m)) && end == pos + |Payload(n, m)|
    decreases n, 0
  {
    hide FieldIs, At, SizedIs, Sized, LittleEndian, Printed, NodesAre, WriteAll;
    AtFirst(b, pos, Payload(n, m));
    match n.value
    case Object => ChildrenExactly(b, pos, end, n.nodes, m);
    case Array => ChildrenExactly(b, pos, end, n.nodes, m);
    case Text(s) => SizedExactly(b, pos, end, 4, s, 0x1_0000_0000);
    case Binary(s) => SizedExactly(b, pos, end, 4, s, 0x1_0000_0000);
    case Dec(d) =>
      PrintedAscii(d);
      SizedExactly(b, pos, end, 2, ToBytes(Printed(d)), 0x1_0000);
    case Integer(bits) => FieldExactly(b, pos, 8, bits);
    case Number(bits) => FieldExactly(b, pos, 8, bits);
    case Boolean(v) => OneByte(b, pos, if v then 1 else 0);
    case Pointer(_) =>
    case Plain(_) =>
  }

  lemma {:induction false} ChildrenExactly(b: seq<Byte>, pos: nat, end: nat, ns: seq<Node>, m: Names)
    requires StorableAll(ns) && CoversAll(m, ns)
    ensures pos <= end <= |b| && ChildrenAre(b, pos, end, ns, m)
            <==> At(b, pos, LittleEndian(|ns| % W32, 4) + WriteAll(ns, m))
                 && end == pos + |LittleEndian(|ns| % W32, 4) + WriteAll(ns, m)|
    decreases ns, 1
  {
    hide FieldIs, At, LittleEndian, NodesAre, WriteAll;
    var f := LittleEndian(|ns| % W32, 4);
    FieldExactly(b, pos, 4, |ns| % W32);
    NodesExactly(b, pos + 4, end, ns, m);
    Behind(b, pos, f, WriteAll(ns, m), end);
    AtFirst(b, pos + 4, WriteAll(ns, m));
  }

  lemma {:induction false} NodesExactly(b: seq<Byte>, pos: nat, end: nat, ns: seq<Node>, m: Names)
    requires StorableAll(ns) && CoversAll(m, ns)
    ensures NodesAre(b, pos, end, ns, m) <==> At(b, pos, WriteAll(ns, m)) && end == pos + |WriteAll(ns, m)|
    decreases ns, 0
  {
    hide At, NodeIs, Write;
    if ns == [] {
      AtFirst(b, pos, []);
    } else {
      var u, v := Write(ns[0], m), WriteAll(ns[1..], m);
      Behind(b, pos, u, v, end);
      NodeExactly(b, pos, pos + |u|, ns[0], m);
      NodesExactly(b, pos + |u|, end, ns[1..], m);
      if mid: nat :| NodeIs(b, pos, mid, ns[0], m) && NodesAre(b, mid, end, ns[1..], m) {
        NodeExactly(b, pos, mid, ns[0], m);
      }
    }
  }

  /** A node has the layout at a place exactly when the writer's bytes stand there. */
  lemma {:induction false} NodeExactly(b: seq<Byte>, pos: nat, end: nat, n: Node, m: Names)
    requires Storable(n) && Covers(m, n)
    ensures NodeIs(b, pos, end, n, m) <==> At(b, pos, Write(n, m)) && end == pos + |Write(n, m)|
    decreases n, 1
  {
    hide FieldIs, At, LittleEndian, NodeIs, PayloadIs, Payload, Code;
    var f, c, p := LittleEndian(KeyField(n.key, m), 4), [Code(n.value)], Payload(n, m);
    NodeParts(b, pos, end, n, m);
    FieldExactly(b, pos, 4, KeyField(n.key, m));
    OneByte(b, pos + 4, Code(n.value));
    PayloadExactly(b, pos + 5, end, n, m);
    Behind(b, pos, f + c, p, end);
    AtSplit(b, pos, f, c);
    AtFirst(b, pos + 5, p);
  }

  // ---------------------------------------------------------------------
  // Documents
  // ---------------------------------------------------------------------

  /** Each name of the dictionary with its number and its length, cut to 16 bits. */
  ghost predicate EntriesAre(b: seq<Byte>, pos: nat, end: nat, order: seq<seq<Byte>>, m: Names)
    requires forall i :: 0 <= i < |order| ==> order[i] in m
    decreases |order|
  {
    if order == [] then pos == end <= |b|
    else
      FieldIs(b, pos, 4, m[order[0]] % 0x1_0000_0000)
      && exists mid: nat ::
           SizedIs(b, pos + 4, mid, 2, order[0], 0x1_0000) && EntriesAre(b, mid, end, order[1..], m)
  }

  /** A document: eight bytes of version, the number of names, the names in some order, the root node. */
  ghost predicate TreeIs(b: seq<Byte>, end: nat, n: Node, order: seq<seq<Byte>>, m: Names)
    requires Storable(n) && Covers(m, n) && forall i :: 0 <= i < |order| ==> order[i] in m
  {
    && |b| >= 12 && b[..8] == [0xdd, 0x33, 0x10, 0xef, 0, 0, 0, 0] && FieldIs(b, 8, 4, |m| % 0x1_0000_0000)
    && exists mid: nat :: EntriesAre(b, 12, mid, order, m) && NodeIs(b, mid, end, n, m)
  }

  lemma {:induction false} EntriesExactly(b: seq<Byte>, pos: nat, end: nat, order: seq<seq<Byte>>, m: Names)
    requires forall i :: 0 <= i < |order| ==> order[i] in m
    ensures EntriesAre(b, pos, end, order, m)
            <==> At(b, pos, WriteEntries(order, m)) && end == pos + |WriteEntries(order, m)|
    decreases |order|
  {
    hide At, SizedIs, Sized, LittleEndian, FieldIs;
    if order == [] {
      AtFirst(b, pos, []);
    } else {
      var f, u, v := LittleEndian(m[order[0]] % W32, 4), Sized(order[0], 2), WriteEntries(order[1..], m);
      Behind(b, pos, f + u, v, end);
      AtSplit(b, pos, f, u);
      FieldExactly(b, pos, 4, m[order[0]] % W32);
      SizedExactly(b, pos + 4, pos + 4 + |u|, 2, order[0], 0x1_0000);
      EntriesExactly(b, pos + 4 + |u|, end, order[1..], m);
      if mid: nat :| SizedIs(b, pos + 4, mid, 2, order[0], 0x1_0000) && EntriesAre(b, mid, end, order[1..], m) {
        SizedExactly(b, pos + 4, mid, 2, order[0], 0x1_0000);
      }
    }
  }

  lemma {:induction false} VersionBytes()
    ensures LittleEndian(VERSION, 8) == [0xdd, 0x33, 0x10, 0xef, 0, 0, 0, 0]
  {
    var v := 0xef;
    assert LittleEndian(0, 4) == [0, 0, 0, 0];
    assert LittleEndian(v, 5) == [0xef] + LittleEndian(0, 4);
    assert LittleEndian(VERSION / 256, 7) == [0x33] + LittleEndian(VERSION / 65536, 6);
    assert LittleEndian(VERSION / 65536, 6) == [0x10] + LittleEndian(v, 5);
  }

  /** The writer writes exactly this layout. */
  lemma {:induction false} TreeExactly(b: seq<Byte>, end: nat, n: Node, order: seq<seq<Byte>>, m: Names)
    requires Storable(n) && Covers(m, n) && forall i :: 0 <= i < |order| ==> order[i] in m
    ensures TreeIs(b, end, n, order, m) <==> At(b, 0, WriteTree(n, order, m)) && end == |WriteTree(n, order, m)|
  {
    hide At, FieldIs, LittleEndian, WriteEntries, Write, EntriesAre, NodeIs, VERSION;
    var version, f := LittleEndian(VERSION, 8), LittleEndian(|m| % W32, 4);
    var u, v := WriteEntries(order, m), Write(n, m);
    VersionBytes();
    VersionAt(b);
    FieldExactly(b, 8, 4, |m| % W32);
    Behind(b, 0, version + f + u, v, end);
    AtSplit(b, 0, version + f, u);
    AtSplit(b, 0, version, f);
    AtFirst(b, 8, f);
    EntriesExactly(b, 12, 12 + |u|, order, m);
    NodeExactly(b, 12 + |u|, end, n, m);
    if mid: nat :| EntriesAre(b, 12, mid, order, m) && NodeIs(b, mid, end, n, m) {
      EntriesExactly(b, 12, mid, order, m);
    }
  }

  lemma {:induction false} VersionAt(b: seq<Byte>)
    ensures At(b, 0, [0xdd, 0x33, 0x10, 0xef, 0, 0, 0, 0])
            <==> |b| >= 8 && b[..8] == [0xdd, 0x33, 0x10, 0xef, 0, 0, 0, 0]
  {
    assert |b| >= 8 ==> b[0..8] == b[..8];
  }

  /** So the reader reads every document of this layout, with its own dictionary in any order, and stops at its end. */
  lemma {:induction false} LaidTreeRead(b: seq<Byte>, end: nat, n: Node, order: seq<seq<Byte>>)
    requires Storable(n) && |NamesOf(n, map[])| <= NO_KEY && IsOrder(order, NamesOf(n, map[]))
    requires Covers(NamesOf(n, map[]), n) && TreeIs(b, end, n, order, NamesOf(n, map[]))
    ensures ReadTree(b) == Ok(Clipped(n), end)
  {
    var m := NamesOf(n, map[]);
    var w := WriteTree(n, order, m);
    TreeExactly(b, end, n, order, m);
    assert b == w + b[|w|..];
    hide ReadTree, WriteTree, NamesOf, TreeIs, Clipped;
    TreeRead(n, order, b[|w|..]);
  }

  // ---------------------------------------------------------------------
  // What the reader refuses
  // ---------------------------------------------------------------------

  lemma {:induction false} EntryErrors(b: seq<Byte>, pos: nat, count: nat, keys: Keys)
    requires pos <= |b|
    ensures var r := ReadEntries(b, pos, count, keys); r.Fail? ==> r.error == BadNameIndex || r.error == BadName
    decreases count
  {
    hide FieldValue, Insert;
    if count > 0 && pos + 6 <= |b| {
      var id, size := b[pos..pos + 4], FieldValue(b[pos + 4..pos + 6]);
      if pos + 6 + size <= |b| {
        EntryErrors(b, pos + 6 + size, count - 1, Insert(keys, FieldValue(id), b[pos + 6..pos + 6 + size]));
      }
    }
  }

  ghost predicate HeaderError(e: Error)
  {
    e == BadVersion || e == BadDictionary || e == BadNameIndex || e == BadName
  }

  lemma {:induction false} NodeErrors(b: seq<Byte>, pos: nat, keys: Keys)
    requires pos <= |b|
    ensures var r := ReadNode(b, pos, keys); r.Fail? ==> !HeaderError(r.error)
    decreases |b| - pos, 0
  {
    hide FieldValue, KeyOf, Parsed, FromBytes;
    if pos + 5 <= |b| && (b[pos + 4] == 2 || b[pos + 4] == 3) && pos + 9 <= |b| {
      NodesErrors(b, pos + 9, keys, FieldValue(b[pos + 5..pos + 9]), []);
    }
  }

  lemma {:induction false} NodesErrors(b: seq<Byte>, pos: nat, keys: Keys, count: nat, acc: seq<Node>)
    requires pos <= |b|
    ensures var r := ReadNodes(b, pos, keys, count, acc); r.Fail? ==> !HeaderError(r.error)
    decreases |b| - pos, 1
  {
    hide ReadNode;
    if count > 0 {
      NodeErrors(b, pos, keys);
      var r := ReadNode(b, pos, keys);
      if r.Ok? {
        NodesErrors(b, r.pos, keys, count - 1, acc + [r.item]);
      }
    }
  }

  /** The header the reader accepts, in bytes; a document with any other is refused for its version, and no other is. */
  lemma {:induction false} HeaderExactly(b: seq<Byte>)
    ensures ReadTree(b) == Fail(BadVersion) <==> |b| < 8 || b[..8] != [0xdd, 0x33, 0x10, 0xef, 0, 0, 0, 0]
    ensures ReadTree(b) == Fail(BadDictionary)
            <==> 8 <= |b| < 12 && b[..8] == [0xdd, 0x33, 0x10, 0xef, 0, 0, 0, 0]
  {
    if |b| >= 8 {
      VersionRead(b);
      hide FieldValue, VERSION, ReadEntries, ReadNode;
      if |b| >= 12 {
        var count := FieldValue(b[8..12]);
        EntryErrors(b, 12, count, map[]);
        var r := ReadEntries(b, 12, count, map[]);
        if r.Ok? {
          NodeErrors(b, r.pos, r.item);
        }
      }
    }
  }

  lemma {:induction false} VersionRead(b: seq<Byte>)
    requires |b| >= 8
    ensures FieldValue(b[0..8]) == VERSION <==> b[..8] == [0xdd, 0x33, 0x10, 0xef, 0, 0, 0, 0]
  {
    VersionBytes();
    FieldWidths();
    FieldRoundTrip(VERSION, 8);
    assert b[0..8] == b[..8];
    hide VERSION, LittleEndian, FieldValue;
    if FieldValue(b[..8]) == VERSION {
      FieldInjective(b[..8], LittleEndian(VERSION, 8));
    }
  }

  lemma {:induction false} FieldInjective(s: seq<Byte>, t: seq<Byte>)
    requires |s| == |t| && FieldValue(s) == FieldValue(t)
    ensures s == t
    decreases |s|
  {
    if s != [] {
      FieldInjective(s[1..], t[1..]);
      assert s == [s[0]] + s[1..] && t == [t[0]] + t[1..];
    }
  }

  // ---------------------------------------------------------------------
  // Nothing shorter is accepted
  // ---------------------------------------------------------------------

  lemma {:induction false} FieldMore(b: seq<Byte>, c: seq<Byte>, pos: nat, n: nat, error: Error)
    ensures Field(b, pos, n, error).Ok? ==> Field(b + c, pos, n, error) == Field(b, pos, n, error)
  {
    if pos + n <= |b| {
      assert (b + c)[pos..pos + n] == b[pos..pos + n];
    }
  }

  lemma {:induction false} SizedMore(b: seq<Byte>, c: seq<Byte>, pos: nat, width: nat)
    ensures SizedField(b, pos, width).Ok? ==> SizedField(b + c, pos, width) == SizedField(b, pos, width)
  {
    hide FieldValue, Field;
    FieldMore(b, c, pos, width, BadValue);
    var r := Field(b, pos, width, BadValue);
    if r.Ok? {
      FieldMore(b, c, r.pos, FieldValue(r.item), BadString);
    }
  }

  lemma {:induction false} ScalarMore(b: seq<Byte>, c: seq<Byte>, pos: nat, key: seq<Byte>, code: Byte)
    requires pos <= |b| && code != 2 && code != 3
    ensures ReadScalar(b, pos, key, code).Ok? ==> ReadScalar(b + c, pos, key, code) == ReadScalar(b, pos, key, code)
  {
    hide FieldValue, Field, SizedField, Parsed, FromBytes;
    SizedMore(b, c, pos, 4);
    SizedMore(b, c, pos, 2);
    FieldMore(b, c, pos, 8, BadInteger);
    FieldMore(b, c, pos, 8, BadDouble);
    FieldMore(b, c, pos, 1, BadBoolean);
  }

  /** What the reader made of bytes does not depend on bytes behind those it consumed. */
  lemma {:induction false} NodeMore(b: seq<Byte>, c: seq<Byte>, pos: nat, keys: Keys)
    requires pos <= |b|
    ensures ReadNode(b, pos, keys).Ok? ==> ReadNode(b + c, pos, keys) == ReadNode(b, pos, keys)
    decreases |b| - pos, 0
  {
    hide FieldValue, Field, KeyOf, ReadScalar, ReadNodes;
    FieldMore(b, c, pos, 4, BadKeyName);
    var r := Field(b, pos, 4, BadKeyName);
    if r.Ok? {
      FieldMore(b, c, pos + 4, 1, BadKeyType);
      var s := Field(b, pos + 4, 1, BadKeyType);
      if s.Ok? {
        PayloadMore(b, c, pos + 5, keys, KeyOf(FieldValue(r.item), keys), s.item[0]);
      }
    }
  }

  lemma {:induction false} PayloadMore(b: seq<Byte>, c: seq<Byte>, pos: nat, keys: Keys, key: seq<Byte>, code: Byte)
    requires pos <= |b|
    ensures ReadPayload(b, pos, keys, key, code).Ok? ==>
              ReadPayload(b + c, pos, keys, key, code) == ReadPayload(b, pos, keys, key, code)
    decreases |b| - pos, 2
  {
    hide FieldValue, Field, ReadScalar, ReadNodes;
    if code == 2 || code == 3 {
      FieldMore(b, c, pos, 4, BadValue);
      var r := Field(b, pos, 4, BadValue);
      if r.Ok? {
        NodesMore(b, c, r.pos, keys, FieldValue(r.item), []);
      }
    } else {
      ScalarMore(b, c, pos, key, code);
    }
  }

  lemma {:induction false} NodesMore(b: seq<Byte>, c: seq<Byte>, pos: nat, keys: Keys, count: nat, acc: seq<Node>)
    requires pos <= |b|
    ensures ReadNodes(b, pos, keys, count, acc).Ok? ==>
              ReadNodes(b + c, pos, keys, count, acc) == ReadNodes(b, pos, keys, count, acc)
    decreases |b| - pos, 1
  {
    hide ReadNode;
    if count > 0 {
      NodeMore(b, c, pos, keys);
      var r := ReadNode(b, pos, keys);
      if r.Ok? {
        NodesMore(b, c, r.pos, keys, count - 1, acc + [r.item]);
      }
    }
  }

  lemma {:induction false} EntriesMore(b: seq<Byte>, c: seq<Byte>, pos: nat, count: nat, keys: Keys)
    requires pos <= |b|
    ensures ReadEntries(b, pos, count, keys).Ok? ==>
              ReadEntries(b + c, pos, count, keys) == ReadEntries(b, pos, count, keys)
    decreases count
  {
    hide FieldValue, Field, Insert;
    if count > 0 {
      FieldMore(b, c, pos, 4, BadNameIndex);
      var id := Field(b, pos, 4, BadNameIndex);
      if id.Ok? {
        FieldMore(b, c, id.pos, 2, BadName);
        var size := Field(b, id.pos, 2, BadName);
        if size.Ok? {
          FieldMore(b, c, size.pos, FieldValue(size.item), BadName);
          var name := Field(b, size.pos, FieldValue(size.item), BadName);
          if name.Ok? {
            EntriesMore(b, c, name.pos, count - 1, Insert(keys, FieldValue(id.item), name.item));
          }
        }
      }
    }
  }

  lemma {:induction false} TreeMore(b: seq<Byte>, c: seq<Byte>)
    ensures ReadTree(b).Ok? ==> ReadTree(b + c) == ReadTree(b) && ReadTree(b).pos <= |b|
  {
    hide FieldValue, Field, ReadEntries, ReadNode, VERSION;
    FieldMore(b, c, 0, 8, BadVersion);
    FieldMore(b, c, 8, 4, BadDictionary);
    var count := Field(b, 8, 4, BadDictionary);
    if count.Ok? {
      EntriesMore(b, c, 12, FieldValue(count.item), map[]);
      var keys := ReadEntries(b, 12, FieldValue(count.item), map[]);
      if keys.Ok? {
        NodeMore(b, c, keys.pos, keys.item);
      }
    }
  }

  /** A document cut anywhere before its end is refused. */
  lemma {:induction false} TruncatedRefused(n: Node, order: seq<seq<Byte>>, k: nat)
    requires Storable(n) && Covers(NamesOf(n, map[]), n)
    requires |NamesOf(n, map[])| <= NO_KEY && IsOrder(order, NamesOf(n, map[]))
    requires k < |WriteTree(n, order, NamesOf(n, map[]))|
    ensures ReadTree(WriteTree(n, order, NamesOf(n, map[]))[..k]).Fail?
  {
    hide ReadTree, WriteTree, NamesOf, Clipped, IsOrder;
    OrderIn(order, NamesOf(n, map[]));
    var w := WriteTree(n, order, NamesOf(n, map[]));
    TreeRead(n, order, []);
    assert w + [] == w && w[..k] + w[k..] == w;
    TreeMore(w[..k], w[k..]);
  }

  lemma {:induction false} OrderIn(order: seq<seq<Byte>>, m: Names)
    requires IsOrder(order, m)
    ensures forall i :: 0 <= i < |order| ==> order[i] in m
  {
  }

  // ---------------------------------------------------------------------
  // The numbers of the names
  // ---------------------------------------------------------------------

  /** The keys of a tree, each node before its children, empty ones left out. */
  function KeysOf(n: Node): seq<seq<Byte>>
    decreases n, 0
  {
    (if n.key == [] then [] else [n.key]) + KeysOfAll(n.nodes)
  }

  function KeysOfAll(ns: seq<Node>): seq<seq<Byte>>
    decreases ns
  {
    if ns == [] then [] else KeysOf(ns[0]) + KeysOfAll(ns[1..])
  }

  ghost function Distinct(ks: seq<seq<Byte>>): set<seq<Byte>>
  {
    set k | k in ks
  }

  function Named(ks: seq<seq<Byte>>, m: Names): Names
  {
    if ks == [] then m else Name(ks[|ks| - 1], Named(ks[..|ks| - 1], m))
  }

  lemma {:induction false} NamedJoined(a: seq<seq<Byte>>, b: seq<seq<Byte>>, m: Names)
    ensures Named(a + b, m) == Named(b, Named(a, m))
    decreases |b|
  {
    if b == [] {
      assert a + b == a;
    } else {
      assert (a + b)[..|a + b| - 1] == a + b[..|b| - 1];
      NamedJoined(a, b[..|b| - 1], m);
    }
  }

  lemma {:induction false} NamesAreNamed(n: Node, m: Names)
    ensures NamesOf(n, m) == Named(KeysOf(n), m)
    decreases n, 0
  {
    hide Named;
    NamedOne(n.key, m);
    NamesAreNamedAll(n.nodes, Name(n.key, m));
    NamedJoined(if n.key == [] then [] else [n.key], KeysOfAll(n.nodes), m);
  }

  lemma {:induction false} NamedOne(key: seq<Byte>, m: Names)
    ensures Named(if key == [] then [] else [key], m) == Name(key, m)
  {
    assert [key][..0] == [];
  }

  lemma {:induction false} NamesAreNamedAll(ns: seq<Node>, m: Names)
    ensures NamesOfAll(ns, m) == Named(KeysOfAll(ns), m)
    decreases ns
  {
    if ns != [] {
      NamesAreNamed(ns[0], m);
      NamesAreNamedAll(ns[1..], NamesOf(ns[0], m));
      NamedJoined(KeysOf(ns[0]), KeysOfAll(ns[1..]), m);
    }
  }

  lemma {:induction false} NamedFromNothing(ks: seq<seq<Byte>>, i: nat)
    requires [] !in ks
    ensures var m := Named(ks, map[]); m.Keys == Distinct(ks) && |m| == |Distinct(ks)|
    ensures i < |ks| && ks[i] !in ks[..i] ==> Named(ks, map[])[ks[i]] == |Distinct(ks[..i])|
    decreases |ks|
  {
    if ks != [] {
      var n := |ks| - 1;
      var init, last := ks[..n], ks[n];
      assert [] !in init;
      NamedFromNothing(init, i);
      assert Distinct(ks) == Distinct(init) + {last};
      SameSize(Named(ks, map[]));
      if i < n {
        assert init[..i] == ks[..i] && ks[i] in init;
      }
    }
  }

  lemma {:induction false} SameSize(m: Names)
    ensures |m| == |m.Keys|
  {
  }

  lemma {:induction false} KeysNotEmpty(n: Node)
    ensures [] !in KeysOf(n)
    decreases n, 0
  {
    KeysNotEmptyAll(n.nodes);
  }

  lemma {:induction false} KeysNotEmptyAll(ns: seq<Node>)
    ensures [] !in KeysOfAll(ns)
    decreases ns
  {
    if ns != [] {
      KeysNotEmpty(ns[0]);
      KeysNotEmptyAll(ns[1..]);
    }
  }

  /** The dictionary holds the keys of the tree, each numbered by how many others came before its first use. */
  lemma {:induction false} NumberedByFirstUse(n: Node, i: nat)
    ensures NamesOf(n, map[]).Keys == Distinct(KeysOf(n))
    ensures var ks := KeysOf(n);
            i < |ks| && ks[i] !in ks[..i] ==> NamesOf(n, map[])[ks[i]] == |Distinct(ks[..i])|
  {
    NamesAreNamed(n, map[]);
    KeysNotEmpty(n);
    NamedFromNothing(KeysOf(n), i);
  }

  // ---------------------------------------------------------------------
  // Any dictionary
  // ---------------------------------------------------------------------

  /** Entries of a dictionary that need not be the writer's: numbers may come twice, names may be empty. */
  ghost predicate RawEntriesAre(b: seq<Byte>, pos: nat, end: nat, entries: seq<(nat, seq<Byte>)>)
    decreases |entries|
  {
    if entries == [] then pos == end <= |b|
    else
      var id, name := entries[0].0, entries[0].1;
      id < 0x1_0000_0000 && |name| < 0x1_0000
      && FieldIs(b, pos, 4, id) && FieldIs(b, pos + 4, 2, |name|) && BytesAre(b, pos + 6, pos + 6 + |name|, name)
      && RawEntriesAre(b, pos + 6 + |name|, end, entries[1..])
  }

  function Inserted(entries: seq<(nat, seq<Byte>)>, keys: Keys): Keys
  {
    if entries == [] then keys else Inserted(entries[1..], Insert(keys, entries[0].0, entries[0].1))
  }

  lemma {:induction false} RawEntriesRead(b: seq<Byte>, pos: nat, end: nat, entries: seq<(nat, seq<Byte>)>, keys: Keys)
    requires pos <= |b| && RawEntriesAre(b, pos, end, entries)
    ensures ReadEntries(b, pos, |entries|, keys) == Ok(Inserted(entries, keys), end)
    decreases |entries|
  {
    hide FieldIs, FieldValue, Insert;
    if entries != [] {
      var id, name := entries[0].0, entries[0].1;
      FieldReads(b, pos, 4, id);
      FieldReads(b, pos + 4, 2, |name|);
      RawEntriesRead(b, pos + 6 + |name|, end, entries[1..], Insert(keys, id, name));
    }
  }

  lemma {:induction false} FieldReads(b: seq<Byte>, pos: nat, n: nat, x: nat)
    requires FieldIs(b, pos, n, x) && ((n == 4 && x < 0x1_0000_0000) || (n == 2 && x < 0x1_0000))
    ensures pos + n <= |b| && FieldValue(b[pos..pos + n]) == x
  {
    FieldExactly(b, pos, n, x);
    FieldWidths();
    FieldRoundTrip(x, n);
    hide LittleEndian, FieldValue, FieldIs, Pow;
  }

  /** Of several names with one number the first that is not empty counts. */
  lemma {:induction false} FirstNameCounts(entries: seq<(nat, seq<Byte>)>, id: nat)
    ensures id in Inserted(entries, map[])
            <==> exists i :: 0 <= i < |entries| && entries[i].0 == id && entries[i].1 != []
    ensures forall i :: 0 <= i < |entries| && entries[i].0 == id && entries[i].1 != []
                        && (forall j :: 0 <= j < i ==> entries[j].0 != id || entries[j].1 == []) ==>
              id in Inserted(entries, map[]) && Inserted(entries, map[])[id] == entries[i].1
  {
    FirstNameAfter(entries, map[], id);
  }

  lemma {:induction false} FirstNameAfter(entries: seq<(nat, seq<Byte>)>, keys: Keys, id: nat)
    ensures id in keys ==> id in Inserted(entries, keys) && Inserted(entries, keys)[id] == keys[id]
    ensures id !in keys ==>
              (id in Inserted(entries, keys)
               <==> exists i :: 0 <= i < |entries| && entries[i].0 == id && entries[i].1 != [])
    ensures id !in keys ==>
              forall i :: 0 <= i < |entries| && entries[i].0 == id && entries[i].1 != []
                          && (forall j :: 0 <= j < i ==> entries[j].0 != id || entries[j].1 == []) ==>
                id in Inserted(entries, keys) && Inserted(entries, keys)[id] == entries[i].1
    decreases |entries|
  {
    if entries != [] {
      var rest, more := entries[1..], Insert(keys, entries[0].0, entries[0].1);
      FirstNameAfter(rest, more, id);
      assert forall i :: 1 <= i < |entries| ==> entries[i] == rest[i - 1];
      assert forall i :: 0 <= i < |rest| ==> rest[i] == entries[i + 1];
    }
  }

  /** The error of a node says which of its fields is missing. */
  lemma {:induction false} MissingFields(b: seq<Byte>, pos: nat, keys: Keys)
    requires pos <= |b|
    ensures |b| < pos + 4 ==> ReadNode(b, pos, keys) == Fail(BadKeyName)
    ensures |b| == pos + 4 ==> ReadNode(b, pos, keys) == Fail(BadKeyType)
    ensures |b| >= pos + 5 ==>
              var code, left, r := b[pos + 4], |b| - pos - 5, ReadNode(b, pos, keys);
              && (code in {2, 3, 5, 6} && left < 4 ==> r == Fail(BadValue))
              && (code == 7 && left < 8 ==> r == Fail(BadInteger)) && (code == 8 && left < 8 ==> r == Fail(BadDouble))
              && (code == 9 && left < 2 ==> r == Fail(BadValue)) && (code == 10 && left < 1 ==> r == Fail(BadBoolean))
              && (code in {0, 1, 4} || code > 10 ==> r.Ok? && r.pos == pos + 5)
  {
    hide FieldValue, KeyOf, Parsed, FromBytes, ReadNodes;
  }
}

/**
 Reading back what was written. For every tree, dictionary order and trailing
 bytes the reader returns the tree with each length cut to its field, and stops
 right after it; nothing is lost exactly when every length fits.
 */
module JsonbRoundTrip {
  import opened Words
  import opened Radix
  import opened Decimal
  import opened DecimalText
  import opened Jsonb

  // ---------------------------------------------------------------------
  // What survives
  // ---------------------------------------------------------------------

  function Cut<T>(s: seq<T>, limit: nat): seq<T>
    requires limit > 0
  {
    s[..|s| % limit]
  }

  function ClipValue(v: Value): Value
    requires v.Dec? ==> v.num.length <= |v.num.source|
  {
    match v
    case Text(s) => Text(Cut(s, W32))
    case Binary(s) => Binary(Cut(s, W32))
    case Dec(d) => Dec(Parsed(Cut(Printed(d), W16)))
    case Pointer(_) => Pointer(0)
    case _ => v
  }

  /** The tree with every key, string and decimal text cut to what its length field can say, and pointers null. */
  function Clipped(n: Node): Node
    requires Storable(n)
    decreases n, 0
  {
    Node(Cut(n.key, W16), ClipValue(n.value), ClippedAll(n.nodes))
  }

  function ClippedAll(ns: seq<Node>): (r: seq<Node>)
    requires StorableAll(ns)
    ensures |r| == |ns|
    decreases ns
  {
    if ns == [] then [] else [Clipped(ns[0])] + ClippedAll(ns[1..])
  }

  // ---------------------------------------------------------------------
  // Positions
  // ---------------------------------------------------------------------

  lemma {:induction false} FieldAt(b: seq<Byte>, pos: nat, x: nat, n: nat, error: Error)
    requires x < Pow(256, n) && At(b, pos, LittleEndian(x, n))
    ensures Field(b, pos, n, error) == Ok(LittleEndian(x, n), pos + n) && FieldValue(LittleEndian(x, n)) == x
  {
    FieldRoundTrip(x, n);
  }

  lemma {:induction false} SizedAt(b: seq<Byte>, pos: nat, s: seq<Byte>, width: nat)
    requires (width == 2 || width == 4) && At(b, pos, Sized(s, width))
    ensures SizedField(b, pos, width) == Ok(Cut(s, Limit(width)), pos + |Sized(s, width)|)
  {
    FieldWidths();
    hide LittleEndian, FieldValue, Pow;
    var size := |s| % Limit(width);
    AtSplit(b, pos, LittleEndian(size, width), s[..size]);
    FieldAt(b, pos, size, width, BadValue);
  }

  // ---------------------------------------------------------------------
  // The dictionary
  // ---------------------------------------------------------------------

  /** The reader's dictionary answers each number with the cut name, or with nothing if that is empty. */
  ghost predicate Matches(keys: Keys, m: Names)
  {
    forall k :: k in m ==> m[k] < NO_KEY && KeyOf(m[k], keys) == Cut(k, W16)
  }

  function Built(order: seq<seq<Byte>>, m: Names, keys: Keys): Keys
    requires forall i :: 0 <= i < |order| ==> order[i] in m
  {
    if order == [] then keys else Built(order[1..], m, Insert(keys, m[order[0]], Cut(order[0], W16)))
  }

  lemma {:induction false} EntryRead(name: seq<Byte>, id: nat, b: seq<Byte>, pos: nat)
    requires id < W32 && At(b, pos, LittleEndian(id, 4) + Sized(name, 2))
    ensures Field(b, pos, 4, BadNameIndex) == Ok(LittleEndian(id, 4), pos + 4)
    ensures FieldValue(LittleEndian(id, 4)) == id
    ensures Field(b, pos + 4, 2, BadName) == Ok(LittleEndian(|name| % W16, 2), pos + 6)
    ensures FieldValue(LittleEndian(|name| % W16, 2)) == |name| % W16
    ensures Field(b, pos + 6, |name| % W16, BadName) == Ok(Cut(name, W16), pos + 4 + |Sized(name, 2)|)
  {
    FieldWidths();
    hide LittleEndian, FieldValue, Pow;
    var size := |name| % W16;
    AtSplit(b, pos, LittleEndian(id, 4), Sized(name, 2));
    AtSplit(b, pos + 4, LittleEndian(size, 2), name[..size]);
    FieldAt(b, pos, id, 4, BadNameIndex);
    FieldAt(b, pos + 4, size, 2, BadName);
  }

  lemma {:induction false} EntriesRead(order: seq<seq<Byte>>, m: Names, b: seq<Byte>, pos: nat, keys: Keys)
    requires forall i :: 0 <= i < |order| ==> order[i] in m && m[order[i]] < W32
    requires At(b, pos, WriteEntries(order, m)) && pos <= |b|
    ensures ReadEntries(b, pos, |order|, keys) == Ok(Built(order, m, keys), pos + |WriteEntries(order, m)|)
    decreases |order|
  {
    hide LittleEndian, FieldValue, Sized, Insert, At, Field, Cut;
    if order != [] {
      var name := order[0];
      ModSmall(m[name], W32);
      AtSplit(b, pos, LittleEndian(m[name], 4) + Sized(name, 2), WriteEntries(order[1..], m));
      EntryRead(name, m[name], b, pos);
      EntriesRead(order[1..], m, b, pos + 4 + |Sized(name, 2)|, Insert(keys, m[name], Cut(name, W16)));
    }
  }

  /** A number that no name of the rest has keeps its answer. */
  lemma {:induction false} BuiltKeeps(order: seq<seq<Byte>>, m: Names, keys: Keys, id: nat)
    requires forall i :: 0 <= i < |order| ==> order[i] in m && m[order[i]] != id
    ensures KeyOf(id, Built(order, m, keys)) == KeyOf(id, keys)
    decreases |order|
  {
    if order != [] {
      var keys' := Insert(keys, m[order[0]], Cut(order[0], W16));
      BuiltKeeps(order[1..], m, keys', id);
    }
  }

  lemma {:induction false} BuiltAnswers(order: seq<seq<Byte>>, m: Names, keys: Keys, i: nat)
    requires Numbered(m) && i < |order| && forall j :: 0 <= j < |order| ==> order[j] in m
    requires forall j, k :: 0 <= j < k < |order| ==> order[j] != order[k]
    requires m[order[i]] !in keys && m[order[i]] < NO_KEY
    ensures KeyOf(m[order[i]], Built(order, m, keys)) == Cut(order[i], W16)
    decreases |order|
  {
    var keys' := Insert(keys, m[order[0]], Cut(order[0], W16));
    if i == 0 {
      BuiltKeeps(order[1..], m, keys', m[order[0]]);
    } else {
      assert m[order[i]] != m[order[0]];
      BuiltAnswers(order[1..], m, keys', i - 1);
    }
  }

  lemma {:induction false} BuiltMatches(order: seq<seq<Byte>>, m: Names)
    requires Numbered(m) && IsOrder(order, m) && |m| <= NO_KEY
    ensures Matches(Built(order, m, map[]), m)
  {
    hide Built, KeyOf;
    forall k | k in m
      ensures m[k] < NO_KEY && KeyOf(m[k], Built(order, m, map[])) == Cut(k, W16)
    {
      var i :| 0 <= i < |order| && order[i] == k;
      BuiltAnswers(order, m, map[], i);
    }
  }

  // ---------------------------------------------------------------------
  // The tree
  // ---------------------------------------------------------------------

  lemma {:induction false} NodeRead(n: Node, m: Names, keys: Keys, b: seq<Byte>, pos: nat)
    requires Storable(n) && Covers(m, n) && Matches(keys, m)
    requires At(b, pos, Write(n, m))
    ensures ReadNode(b, pos, keys) == Ok(Clipped(n), pos + |Write(n, m)|)
    decreases n, 1
  {
    var field := KeyField(n.key, m);
    KeyRead(n.key, m, keys);
    FieldWidths();
    hide LittleEndian, FieldValue, Pow, Payload, ReadPayload, KeyOf, Matches;
    var head := LittleEndian(field, 4);
    AtSplit(b, pos, head + [Code(n.value)], Payload(n, m));
    AtSplit(b, pos, head, [Code(n.value)]);
    FieldAt(b, pos, field, 4, BadKeyName);
    assert b[pos + 4..pos + 5] == [Code(n.value)];
    PayloadRead(n, m, keys, b, pos + 5);
  }

  lemma {:induction false} KeyRead(key: seq<Byte>, m: Names, keys: Keys)
    requires (key != [] ==> key in m) && Matches(keys, m)
    ensures KeyField(key, m) < W32 && KeyOf(KeyField(key, m), keys) == Cut(key, W16)
  {
    if key != [] {
      ModSmall(m[key], W32);
    }
  }

  lemma {:induction false} PayloadRead(n: Node, m: Names, keys: Keys, b: seq<Byte>, pos: nat)
    requires Storable(n) && Covers(m, n) && Matches(keys, m)
    requires At(b, pos, Payload(n, m))
    ensures ReadPayload(b, pos, keys, Cut(n.key, W16), Code(n.value)) == Ok(Clipped(n), pos + |Payload(n, m)|)
    decreases n, 0
  {
    if n.value.Object? || n.value.Array? {
      FieldWidths();
      hide LittleEndian, FieldValue, Pow, ReadNodes, WriteAll, Matches;
      ModSmall(|n.nodes|, W32);
      AtSplit(b, pos, LittleEndian(|n.nodes|, 4), WriteAll(n.nodes, m));
      FieldAt(b, pos, |n.nodes|, 4, BadValue);
      NodesRead(n.nodes, m, keys, b, pos + 4, []);
      assert [] + ClippedAll(n.nodes) == ClippedAll(n.nodes);
    } else {
      ScalarRead(n, m, b, pos);
    }
  }

  lemma {:induction false} ScalarRead(n: Node, m: Names, b: seq<Byte>, pos: nat)
    requires Storable(n) && Covers(m, n) && !n.value.Object? && !n.value.Array?
    requires At(b, pos, Payload(n, m))
    ensures ReadScalar(b, pos, Cut(n.key, W16), Code(n.value)) == Ok(Clipped(n), pos + |Payload(n, m)|)
  {
    FieldWidths();
    hide LittleEndian, FieldValue, Pow, SizedField, Sized;
    match n.value
    case Text(s) => SizedAt(b, pos, s, 4);
    case Binary(s) => SizedAt(b, pos, s, 4);
    case Dec(d) =>
      PrintedAscii(d);
      SizedAt(b, pos, ToBytes(Printed(d)), 2);
      TextRoundTrip(Printed(d), |Printed(d)| % W16);
    case Integer(bits) => FieldAt(b, pos, bits, 8, BadInteger);
    case Number(bits) => FieldAt(b, pos, bits, 8, BadDouble);
    case Boolean(v) => assert b[pos..pos + 1] == [if v then 1 else 0];
    case Pointer(_) =>
    case Plain(_) =>
  }

  lemma {:induction false} NodesRead(ns: seq<Node>, m: Names, keys: Keys, b: seq<Byte>, pos: nat, acc: seq<Node>)
    requires StorableAll(ns) && CoversAll(m, ns) && Matches(keys, m) && pos <= |b|
    requires At(b, pos, WriteAll(ns, m))
    ensures ReadNodes(b, pos, keys, |ns|, acc) == Ok(acc + ClippedAll(ns), pos + |WriteAll(ns, m)|)
    decreases ns
  {
    hide ReadNode, Write, Matches, At, Clipped, Storable, Covers;
    if ns == [] {
      assert acc + ClippedAll(ns) == acc;
    } else {
      var w, c := Write(ns[0], m), Clipped(ns[0]);
      AtSplit(b, pos, w, WriteAll(ns[1..], m));
      NodeRead(ns[0], m, keys, b, pos);
      NodesRead(ns[1..], m, keys, b, pos + |w|, acc + [c]);
      Regroup(acc, [c], ClippedAll(ns[1..]));
    }
  }

  lemma {:induction false} AtStart(w: seq<Byte>, tail: seq<Byte>)
    ensures At(w + tail, 0, w)
  {
  }

  /**
   Writing a tree with its own dictionary in any order and reading it, whatever bytes
   follow, gives the clipped tree and ends exactly where the writer stopped.
   */
  lemma {:induction false} TreeRead(n: Node, order: seq<seq<Byte>>, tail: seq<Byte>)
    requires Storable(n)
    requires |NamesOf(n, map[])| <= NO_KEY && IsOrder(order, NamesOf(n, map[]))
    ensures Covers(NamesOf(n, map[]), n)
    ensures ReadTree(WriteTree(n, order, NamesOf(n, map[])) + tail)
         == Ok(Clipped(n), |WriteTree(n, order, NamesOf(n, map[]))|)
  {
    hide LittleEndian, FieldValue, Pow, Write, WriteEntries, ReadNode, ReadEntries, Built, Matches, NamesOf, At, Field;
    var m := NamesOf(n, map[]);
    NamesCover(n, map[]);
    FieldWidths();
    BuiltMatches(order, m);
    var w := WriteTree(n, order, m);
    var b := w + tail;
    AtStart(w, tail);
    var v, c, e, t := LittleEndian(VERSION, 8), LittleEndian(|m| % W32, 4), WriteEntries(order, m), Write(n, m);
    ModSmall(|m|, W32);
    AtSplit(b, 0, v + c + e, t);
    AtSplit(b, 0, v + c, e);
    AtSplit(b, 0, v, c);
    FieldAt(b, 0, VERSION, 8, BadVersion);
    FieldAt(b, 8, |m|, 4, BadDictionary);
    EntriesRead(order, m, b, 12, map[]);
    NodeRead(n, m, Built(order, m, map[]), b, 12 + |e|);
  }

  // ---------------------------------------------------------------------
  // When nothing is lost
  // ---------------------------------------------------------------------

  /** Every decimal is NaN as the constructor makes it, or canonical. */
  ghost predicate GoodDecimals(n: Node)
    requires Storable(n)
    decreases n, 0
  {
    (n.value.Dec? ==> n.value.num == NAN || Canonical(n.value.num)) && GoodDecimalsAll(n.nodes)
  }

  ghost predicate GoodDecimalsAll(ns: seq<Node>)
    requires StorableAll(ns)
    decreases ns
  {
    ns == [] || (GoodDecimals(ns[0]) && GoodDecimalsAll(ns[1..]))
  }

  /** The same tree up to trailing fractional zeros of its decimals. */
  function RestoreValue(v: Value): Value
    requires v.Dec? ==> v.num.length <= |v.num.source|
  {
    if v.Dec? then Dec(Untrailed(v.num)) else v
  }

  function Restored(n: Node): Node
    requires Storable(n)
    decreases n, 0
  {
    Node(n.key, RestoreValue(n.value), RestoredAll(n.nodes))
  }

  function RestoredAll(ns: seq<Node>): (r: seq<Node>)
    requires StorableAll(ns)
    ensures |r| == |ns|
    decreases ns
  {
    if ns == [] then [] else [Restored(ns[0])] + RestoredAll(ns[1..])
  }

  /** Every length fits its field, and no pointer but null is there. */
  predicate ValueFits(v: Value)
    requires v.Dec? ==> v.num.length <= |v.num.source|
  {
    match v
    case Text(s) => |s| < W32
    case Binary(s) => |s| < W32
    case Dec(d) => |Printed(d)| < W16
    case Pointer(address) => address == 0
    case _ => true
  }

  predicate Fits(n: Node)
    requires Storable(n)
    decreases n, 0
  {
    |n.key| < W16 && ValueFits(n.value) && FitsAll(n.nodes)
  }

  predicate FitsAll(ns: seq<Node>)
    requires StorableAll(ns)
    decreases ns
  {
    ns == [] || (Fits(ns[0]) && FitsAll(ns[1..]))
  }

  lemma {:induction false} CutWhole<T>(s: seq<T>, limit: nat)
    requires limit > 0
    ensures Cut(s, limit) == s <==> |s| < limit
  {
    if |s| < limit {
      ModSmall(|s|, limit);
      assert s[..|s|] == s;
    } else {
      DivMod(|s|, limit);
    }
  }

  /** A decimal text survives exactly when its length fits 16 bits. */
  lemma {:induction false} DecimalSurvives(d: Num)
    requires d == NAN || Canonical(d)
    ensures Parsed(Cut(Printed(d), W16)) == Untrailed(d) <==> |Printed(d)| < W16
  {
    var t := Printed(d);
    CutWhole(t, W16);
    if d == NAN {
      assert t == "NaN";
    } else {
      ParsePrinted(d);
      if |t| >= W16 {
        PrintedLength(d);
        ParsedShorter(Cut(t, W16));
        CutShort(t, W16);
      }
    }
  }

  lemma {:induction false} CutShort<T>(s: seq<T>, limit: nat)
    requires limit > 0 && |s| >= limit
    ensures |Cut(s, limit)| + limit <= |s|
  {
    DivMod(|s|, limit);
    if |s| / limit <= 0 {
      MulLe(|s| / limit, 0, limit);
    } else {
      MulLe(1, |s| / limit, limit);
    }
  }

  lemma {:induction false} ParsedShorter(t: string)
    ensures |Parsed(t).source| <= |t|
  {
    hide Read;
  }

  lemma {:induction false} PrintedLength(d: Num)
    requires Canonical(d)
    ensures |Printed(d)| <= |Untrailed(d).source| + 2
  {
    UntrailedBounds(d);
    hide Untrailed, Shown;
  }

  lemma {:induction false} ValueSurvives(v: Value)
    requires v.Dec? ==> v.num.length <= |v.num.source| && (v.num == NAN || Canonical(v.num))
    ensures ClipValue(v) == RestoreValue(v) <==> ValueFits(v)
  {
    hide Parsed, Printed, Untrailed;
    match v
    case Text(s) => CutWhole(s, W32);
    case Binary(s) => CutWhole(s, W32);
    case Dec(d) => DecimalSurvives(d);
    case _ =>
  }

  /** The round trip restores the tree if and only if every length fits its field and no pointer is lost. */
  lemma {:induction false} RestoredExactlyWhenItFits(n: Node)
    requires Storable(n) && GoodDecimals(n)
    ensures Clipped(n) == Restored(n) <==> Fits(n)
    decreases n, 0
  {
    CutWhole(n.key, W16);
    ValueSurvives(n.value);
    AllRestoredExactlyWhenTheyFit(n.nodes);
  }

  lemma {:induction false} AllRestoredExactlyWhenTheyFit(ns: seq<Node>)
    requires StorableAll(ns) && GoodDecimalsAll(ns)
    ensures ClippedAll(ns) == RestoredAll(ns) <==> FitsAll(ns)
    decreases ns
  {
    if ns != [] {
      RestoredExactlyWhenItFits(ns[0]);
      AllRestoredExactlyWhenTheyFit(ns[1..]);
      assert ClippedAll(ns)[0] == Clipped(ns[0]) && RestoredAll(ns)[0] == Restored(ns[0]);
      assert ClippedAll(ns)[1..] == ClippedAll(ns[1..]) && RestoredAll(ns)[1..] == RestoredAll(ns[1..]);
    }
  }
}

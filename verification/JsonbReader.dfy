/**
 The reader as it runs: an offset that advances over the bytes, a loop over the
 dictionary, and a recursive fill of nodes. It computes exactly the reading
 function on which the round trip is proved.
 */
module JsonbReader {
  import opened Words
  import opened DecimalText
  import opened Jsonb

  class Reader {
    const data: seq<Byte>
    var offset: nat

    constructor (bytes: seq<Byte>)
      ensures data == bytes && offset == 0
    {
      data := bytes;
      offset := 0;
    }

    /** The read callback of `from_jsonb`: all of the bytes asked for, or nothing. */
    method Take(n: nat) returns (ok: bool, s: seq<Byte>)
      requires offset <= |data|
      modifies this
      ensures ok <==> old(offset) + n <= |data|
      ensures ok ==> s == data[old(offset)..old(offset) + n] && offset == old(offset) + n
      ensures !ok ==> offset == old(offset)
    {
      if offset + n > |data| {
        return false, [];
      }
      s := data[offset..offset + n];
      offset := offset + n;
      ok := true;
    }

    method TakeSized(width: nat) returns (r: Result<seq<Byte>>)
      requires offset <= |data|
      modifies this
      ensures r == SizedField(data, old(offset), width)
      ensures offset <= |data| && (r.Ok? ==> offset == r.pos)
    {
      hide FieldValue;
      var ok, size := Take(width);
      if !ok {
        return Fail(BadValue);
      }
      var good, s := Take(FieldValue(size));
      if !good {
        return Fail(BadString);
      }
      r := Ok(s, offset);
    }

    method Scalar(key: seq<Byte>, code: Byte) returns (r: Result<Node>)
      requires offset <= |data| && code != 2 && code != 3
      modifies this
      ensures r == ReadScalar(data, old(offset), key, code)
      ensures offset <= |data| && (r.Ok? ==> offset == r.pos)
    {
      hide FieldValue, SizedField, Parsed, FromBytes;
      if code == 5 || code == 6 {
        var s := TakeSized(4);
        match s {
          case Fail(e) => return Fail(e);
          case Ok(bytes, _) => return Ok(Node(key, if code == 5 then Text(bytes) else Binary(bytes), []), offset);
        }
      } else if code == 7 || code == 8 {
        var ok, bytes := Take(8);
        if !ok {
          return Fail(if code == 7 then BadInteger else BadDouble);
        }
        FieldBound(bytes);
        return Ok(Node(key, if code == 7 then Integer(FieldValue(bytes)) else Number(FieldValue(bytes)), []), offset);
      } else if code == 9 {
        var s := TakeSized(2);
        match s {
          case Fail(e) => return Fail(e);
          case Ok(bytes, _) =>
            var num := Parse(FromBytes(bytes));
            return Ok(Node(key, Dec(num), []), offset);
        }
      } else if code == 10 {
        var ok, bytes := Take(1);
        if !ok {
          return Fail(BadBoolean);
        }
        return Ok(Node(key, Boolean(bytes[0] != 0), []), offset);
      }
      r := Ok(Node(key, if code == 4 then Pointer(0) else Plain(code), []), offset);
    }

    /** `process_convertion_from_jsonb` */
    method ReadOne(keys: Keys) returns (r: Result<Node>)
      requires offset <= |data|
      modifies this
      ensures r == ReadNode(data, old(offset), keys)
      ensures offset <= |data| && (r.Ok? ==> offset == r.pos)
      decreases |data| - offset, 0
    {
      hide FieldValue, ReadScalar, KeyOf;
      var ok, id := Take(4);
      if !ok {
        return Fail(BadKeyName);
      }
      var key := KeyOf(FieldValue(id), keys);
      var good, code := Take(1);
      if !good {
        return Fail(BadKeyType);
      }
      if code[0] == 2 || code[0] == 3 {
        var fine, count := Take(4);
        if !fine {
          return Fail(BadValue);
        }
        var nodes := ReadMany(keys, FieldValue(count));
        match nodes {
          case Fail(e) => return Fail(e);
          case Ok(items, _) => return Ok(Node(key, if code[0] == 2 then Object else Array, items), offset);
        }
      }
      r := Scalar(key, code[0]);
    }

    /** The loop over the children. */
    method ReadMany(keys: Keys, count: nat) returns (r: Result<seq<Node>>)
      requires offset <= |data|
      modifies this
      ensures r == ReadNodes(data, old(offset), keys, count, [])
      ensures offset <= |data| && (r.Ok? ==> offset == r.pos)
      decreases |data| - offset, 1
    {
      hide ReadNode;
      var nodes: seq<Node> := [];
      for i := 0 to count
        invariant old(offset) <= offset <= |data|
        invariant ReadNodes(data, old(offset), keys, count, []) == ReadNodes(data, offset, keys, count - i, nodes)
      {
        var n := ReadOne(keys);
        match n {
          case Fail(e) => return Fail(e);
          case Ok(item, _) => nodes := nodes + [item];
        }
      }
      r := Ok(nodes, offset);
    }

    /** `convert_from_jsonb` */
    method Run() returns (r: Result<Node>)
      requires offset == 0
      modifies this
      ensures r == ReadTree(data)
      ensures r.Ok? ==> offset == r.pos
    {
      hide FieldValue, ReadNode, ReadEntries;
      var ok, version := Take(8);
      if !ok {
        return Fail(BadVersion);
      }
      if FieldValue(version) != VERSION {
        return Fail(BadVersion);
      }
      var good, count := Take(4);
      if !good {
        return Fail(BadDictionary);
      }
      var keys := ReadDictionary(FieldValue(count));
      match keys {
        case Fail(e) => r := Fail(e);
        case Ok(k, _) => r := ReadOne(k);
      }
    }

    method ReadDictionary(count: nat) returns (r: Result<Keys>)
      requires offset <= |data|
      modifies this
      ensures r == ReadEntries(data, old(offset), count, map[])
      ensures offset <= |data| && (r.Ok? ==> offset == r.pos)
    {
      hide FieldValue, Insert;
      var keys: Keys := map[];
      for i := 0 to count
        invariant offset <= |data|
        invariant ReadEntries(data, old(offset), count, map[]) == ReadEntries(data, offset, count - i, keys)
      {
        var ok, id := Take(4);
        if !ok {
          return Fail(BadNameIndex);
        }
        var good, size := Take(2);
        if !good {
          return Fail(BadName);
        }
        var fine, name := Take(FieldValue(size));
        if !fine {
          return Fail(BadName);
        }
        keys := Insert(keys, FieldValue(id), name);
      }
      r := Ok(keys, offset);
    }
  }
}

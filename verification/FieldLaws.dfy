/** The fields of a document as a sorted list: what `BTreeMap::insert` does to it. */
module FieldLaws {
  import opened Core
  import opened Values
  import opened ValueLaws
  import opened Documents

  /** Storing under a key behind all others appends. */
  lemma {:induction false} PutLast(fields: seq<Field>, key: string, v: Value)
    requires forall i :: 0 <= i < |fields| ==> KeyLess(fields[i].key, key)
    ensures Put(fields, key, v) == fields + [Field(key, v)]
  {
    if fields != [] {
      CodesReverse(Codes(fields[0].key), Codes(key));
      PutLast(fields[1..], key, v);
    }
  }

  /** A stored field takes its place in the order. */
  lemma {:induction false} PutSorted(fields: seq<Field>, key: string, v: Value)
    requires Sorted(fields)
    ensures var p := Put(fields, key, v);
            && Sorted(p) && p != [] && (p[0].key == key || (fields != [] && p[0].key == fields[0].key))
  {
    if fields != [] && fields[0].key != key {
      var (a, b) := (Codes(fields[0].key), Codes(key));
      if KeyLess(key, fields[0].key) {
        forall i | 0 < i < |fields| ensures KeyLess(key, fields[i].key) {
          assert KeyLess(fields[0].key, fields[i].key);
          CodesTransitive(b, a, Codes(fields[i].key));
        }
      } else {
        CodesReverse(a, b);
        StringIdentity(fields[0].key, key);
        assert KeyLess(fields[0].key, key);
        PutSorted(fields[1..], key, v);
        PutAbove(fields[1..], key, v, fields[0].key);
      }
    }
  }

  lemma {:induction false} PutAbove(fields: seq<Field>, key: string, v: Value, low: string)
    requires KeyLess(low, key) && forall i :: 0 <= i < |fields| ==> KeyLess(low, fields[i].key)
    ensures forall i :: 0 <= i < |Put(fields, key, v)| ==> KeyLess(low, Put(fields, key, v)[i].key)
  {
    hide KeyLess;
    if fields != [] && fields[0].key != key && !KeyLess(key, fields[0].key) {
      PutAbove(fields[1..], key, v, low);
    }
  }

  /** Storing what is there already changes nothing. */
  lemma {:induction false} PutSame(fields: seq<Field>, key: string, v: Value)
    requires Sorted(fields) && Get(fields, key) == Some(v)
    ensures Put(fields, key, v) == fields
  {
    if fields[0].key == key {
      assert fields == [fields[0]] + fields[1..];
    } else {
      GetIsField(fields[1..], key);
      var i :| 0 <= i < |fields[1..]| && fields[1..][i].key == key;
      assert KeyLess(fields[0].key, fields[i + 1].key);
      CodesReverse(Codes(fields[0].key), Codes(key));
      PutSame(fields[1..], key, v);
      assert fields == [fields[0]] + fields[1..];
    }
  }

  lemma {:induction false} GetIsField(fields: seq<Field>, key: string)
    ensures Get(fields, key).Some? <==> exists i :: 0 <= i < |fields| && fields[i].key == key
  {
    if fields != [] && fields[0].key != key {
      GetIsField(fields[1..], key);
      if Get(fields, key).Some? {
        var i :| 0 <= i < |fields[1..]| && fields[1..][i].key == key;
        assert fields[i + 1].key == key;
      }
      if i :| 0 <= i < |fields| && fields[i].key == key {
        assert fields[1..][i - 1].key == key;
      }
    }
  }

  /** Sorted fields that read alike under every key are the same. */
  lemma {:induction false} SameReadingSame(a: seq<Field>, b: seq<Field>)
    requires Sorted(a) && Sorted(b) && forall key :: Get(a, key) == Get(b, key)
    ensures a == b
    decreases |a|
  {
    assert b != [] ==> Get(a, b[0].key) == Get(b, b[0].key);
    if a != [] {
      assert Get(a, a[0].key) == Get(b, a[0].key);
      assert b != [];
      SmallestFirst(a, b[0].key);
      SmallestFirst(b, a[0].key);
      CodesReverse(Codes(a[0].key), Codes(b[0].key));
      assert a[0].key == b[0].key;
      forall key ensures Get(a[1..], key) == Get(b[1..], key) {
        assert Get(a, key) == Get(b, key);
        if key == a[0].key {
          AbsentBehind(a);
          AbsentBehind(b);
        }
      }
      SameReadingSame(a[1..], b[1..]);
      assert a == [a[0]] + a[1..] && b == [b[0]] + b[1..];
    }
  }

  lemma SmallestFirst(fields: seq<Field>, key: string)
    requires Sorted(fields) && fields != [] && Get(fields, key).Some?
    ensures key == fields[0].key || KeyLess(fields[0].key, key)
  {
    GetIsField(fields, key);
    var i :| 0 <= i < |fields| && fields[i].key == key;
  }

  lemma AbsentBehind(fields: seq<Field>)
    requires Sorted(fields) && fields != []
    ensures Get(fields[1..], fields[0].key).None?
  {
    var key := fields[0].key;
    GetIsField(fields[1..], key);
    CodesIdentity(Codes(key), Codes(key));
    if i :| 0 <= i < |fields[1..]| && fields[1..][i].key == key {
      assert KeyLess(fields[0].key, fields[i + 1].key);
    }
  }
}

/** The laws of `Eq`, `Cmp` and `Hash` on nested values, and where they stop holding. */
module ValueLaws {
  import opened Values

  /** Every integer, however deeply nested, is one that f64 represents exactly. */
  predicate SafeInts(v: Value)
    decreases v, 1
  {
    match v
    case Int(i) => -EXACT_INT <= i <= EXACT_INT
    case Array(items) => forall x :: x in items ==> SafeInts(x)
    case Object(fields) => forall f :: f in fields ==> SafeInts(f.value)
    case _ => true
  }

  /** No NaN and no negative zero, however deeply nested. */
  predicate CleanFloats(v: Value)
    decreases v, 1
  {
    match v
    case Float(f) => !f.NaN? && f != Zero(true)
    case Array(items) => forall x :: x in items ==> CleanFloats(x)
    case Object(fields) => forall f :: f in fields ==> CleanFloats(f.value)
    case _ => true
  }

  /** The domain on which the three relations agree. */
  predicate Exact(v: Value) {
    SafeInts(v) && CleanFloats(v)
  }

  /** The value with every integer written as the float it converts to. */
  function Canon(v: Value): Value
    decreases v, 1
  {
    match v
    case Int(i) => Float(IntToFloat(i))
    case Array(items) => Array(CanonItems(items))
    case Object(fields) => Object(CanonFields(fields))
    case _ => v
  }

  function CanonItems(items: seq<Value>): (r: seq<Value>)
    ensures |r| == |items|
    decreases items, 0
  {
    if items == [] then [] else [Canon(items[0])] + CanonItems(items[1..])
  }

  function CanonFields(fields: seq<Field>): (r: seq<Field>)
    ensures |r| == |fields|
    decreases fields, 0
  {
    if fields == [] then [] else [Field(fields[0].key, Canon(fields[0].value))] + CanonFields(fields[1..])
  }

  // ---- numbers and strings ----

  lemma TotalCmpIdentity(a: Float, b: Float)
    ensures TotalCmp(a, b) == Equal <==> a == b
  {
  }

  lemma SafeIntOrder(x: i64, y: i64)
    requires -EXACT_INT <= x <= EXACT_INT && -EXACT_INT <= y <= EXACT_INT
    ensures TotalCmp(IntToFloat(x), IntToFloat(y)) == CmpInt(x, y)
  {
  }

  lemma {:induction false} CodesIdentity(a: seq<int>, b: seq<int>)
    ensures CmpCodes(a, b) == Equal <==> a == b
  {
    if a != [] && b != [] {
      CodesIdentity(a[1..], b[1..]);
      if a[0] == b[0] && a[1..] == b[1..] {
        assert a == [a[0]] + a[1..] && b == [b[0]] + b[1..];
      }
    }
  }

  lemma {:induction false} CodesReverse(a: seq<int>, b: seq<int>)
    ensures CmpCodes(b, a) == Reverse(CmpCodes(a, b))
  {
    if a != [] && b != [] {
      CodesReverse(a[1..], b[1..]);
    }
  }

  lemma {:induction false} CodesTransitive(a: seq<int>, b: seq<int>, c: seq<int>)
    requires CmpCodes(a, b) == Less && CmpCodes(b, c) == Less
    ensures CmpCodes(a, c) == Less
  {
    if a != [] && b != [] && c != [] {
      if a[0] == b[0] && b[0] == c[0] {
        CodesTransitive(a[1..], b[1..], c[1..]);
      }
    }
  }

  lemma StringIdentity(a: string, b: string)
    ensures CmpCodes(Codes(a), Codes(b)) == Equal <==> a == b
  {
    CodesIdentity(Codes(a), Codes(b));
    if Codes(a) == Codes(b) {
      forall i | 0 <= i < |a|
        ensures a[i] == b[i]
      {
        assert Codes(a)[i] == Codes(b)[i];
      }
    }
  }

  // ---- the order on all values: reflexive, total, reversible ----

  /** Swapping the arguments reverses the verdict, on all values. */
  lemma {:induction false} CmpReverse(a: Value, b: Value)
    ensures Cmp(b, a) == Reverse(Cmp(a, b))
    decreases a, 1
  {
    match (a, b) {
      case (String(x), String(y)) => CodesReverse(Codes(x), Codes(y));
      case (Bytes(x), Bytes(y)) => CodesReverse(x, y);
      case (Uuid(x), Uuid(y)) => CodesReverse(x, y);
      case (Array(x), Array(y)) => CmpItemsReverse(x, y);
      case (Object(x), Object(y)) => CmpFieldsReverse(x, y);
      case (_, _) =>
    }
  }

  lemma {:induction false} CmpItemsReverse(a: seq<Value>, b: seq<Value>)
    ensures CmpItems(b, a) == Reverse(CmpItems(a, b))
    decreases a, 0
  {
    if a != [] && b != [] {
      CmpReverse(a[0], b[0]);
      CmpItemsReverse(a[1..], b[1..]);
    }
  }

  lemma {:induction false} CmpFieldsReverse(a: seq<Field>, b: seq<Field>)
    ensures CmpFields(b, a) == Reverse(CmpFields(a, b))
    decreases a, 0
  {
    if a != [] && b != [] {
      CodesReverse(Codes(a[0].key), Codes(b[0].key));
      StringIdentity(a[0].key, b[0].key);
      CmpReverse(a[0].value, b[0].value);
      CmpFieldsReverse(a[1..], b[1..]);
    }
  }

  /** No integer anywhere inside. */
  predicate IntFree(v: Value)
    decreases v, 1
  {
    match v
    case Int(_) => false
    case Array(items) => forall x :: x in items ==> IntFree(x)
    case Object(fields) => forall f :: f in fields ==> IntFree(f.value)
    case _ => true
  }

  lemma {:induction false} CanonIntFree(v: Value)
    ensures IntFree(Canon(v))
    decreases v, 1
  {
    match v {
      case Array(items) => CanonItemsAt(items);
        forall i | 0 <= i < |items| ensures IntFree(CanonItems(items)[i]) { CanonIntFree(items[i]); }
      case Object(fields) => CanonFieldsAt(fields);
        forall i | 0 <= i < |fields| ensures IntFree(CanonFields(fields)[i].value) { CanonIntFree(fields[i].value); }
      case _ =>
    }
  }

  lemma {:induction false} CanonItemsAt(items: seq<Value>)
    ensures forall i :: 0 <= i < |items| ==> CanonItems(items)[i] == Canon(items[i])
  {
    if items != [] {
      CanonItemsAt(items[1..]);
      forall i | 0 < i < |items| ensures CanonItems(items)[i] == Canon(items[i]) {
        assert items[i] == items[1..][i - 1];
      }
    }
  }

  lemma {:induction false} CanonFieldsAt(fields: seq<Field>)
    ensures forall i :: 0 <= i < |fields| ==> CanonFields(fields)[i] == Field(fields[i].key, Canon(fields[i].value))
  {
    if fields != [] {
      CanonFieldsAt(fields[1..]);
      forall i | 0 < i < |fields| ensures CanonFields(fields)[i] == Field(fields[i].key, Canon(fields[i].value)) {
        assert fields[i] == fields[1..][i - 1];
      }
    }
  }

  /** On canonical values the order is antisymmetric up to identity. */
  lemma {:induction false} CmpIdentity(a: Value, b: Value)
    requires IntFree(a) && IntFree(b)
    ensures Cmp(a, b) == Equal <==> a == b
    decreases a, 1
  {
    match (a, b) {
      case (String(x), String(y)) => StringIdentity(x, y);
      case (Bytes(x), Bytes(y)) => CodesIdentity(x, y);
      case (Uuid(x), Uuid(y)) => CodesIdentity(x, y);
      case (Array(x), Array(y)) => CmpItemsIdentity(x, y);
      case (Object(x), Object(y)) => CmpFieldsIdentity(x, y);
      case (_, _) =>
    }
  }

  lemma {:induction false} CmpItemsIdentity(a: seq<Value>, b: seq<Value>)
    requires forall x :: x in a ==> IntFree(x)
    requires forall x :: x in b ==> IntFree(x)
    ensures CmpItems(a, b) == Equal <==> a == b
    decreases a, 0
  {
    if a != [] && b != [] {
      CmpIdentity(a[0], b[0]);
      CmpItemsIdentity(a[1..], b[1..]);
      assert a == [a[0]] + a[1..] && b == [b[0]] + b[1..];
    }
  }

  lemma {:induction false} CmpFieldsIdentity(a: seq<Field>, b: seq<Field>)
    requires forall f :: f in a ==> IntFree(f.value)
    requires forall f :: f in b ==> IntFree(f.value)
    ensures CmpFields(a, b) == Equal <==> a == b
    decreases a, 0
  {
    if a != [] && b != [] {
      StringIdentity(a[0].key, b[0].key);
      CmpIdentity(a[0].value, b[0].value);
      CmpFieldsIdentity(a[1..], b[1..]);
      assert a == [a[0]] + a[1..] && b == [b[0]] + b[1..];
    }
  }

  lemma {:induction false} CmpTransitiveCanon(a: Value, b: Value, c: Value)
    requires IntFree(a) && IntFree(b) && IntFree(c)
    requires Cmp(a, b) == Less && Cmp(b, c) == Less
    ensures Cmp(a, c) == Less
    decreases a, 1
  {
    if Tag(a) == Tag(b) == Tag(c) {
      match a {
        case String(x) => CodesTransitive(Codes(x), Codes(b.s), Codes(c.s));
        case Bytes(x) => CodesTransitive(x, b.bytes, c.bytes);
        case Uuid(x) => CodesTransitive(x, b.u, c.u);
        case Array(x) => CmpItemsTransitive(x, b.items, c.items);
        case Object(x) => CmpFieldsTransitive(x, b.fields, c.fields);
        case _ =>
      }
    }
  }

  lemma {:induction false} CmpItemsTransitive(a: seq<Value>, b: seq<Value>, c: seq<Value>)
    requires forall x :: x in a ==> IntFree(x)
    requires forall x :: x in b ==> IntFree(x)
    requires forall x :: x in c ==> IntFree(x)
    requires CmpItems(a, b) == Less && CmpItems(b, c) == Less
    ensures CmpItems(a, c) == Less
    decreases a, 0
  {
    if a != [] && b != [] && c != [] {
      CmpIdentity(a[0], b[0]);
      CmpIdentity(b[0], c[0]);
      CmpIdentity(a[0], c[0]);
      if a[0] == b[0] && b[0] == c[0] {
        CmpItemsTransitive(a[1..], b[1..], c[1..]);
      } else if a[0] != b[0] && b[0] != c[0] {
        CmpTransitiveCanon(a[0], b[0], c[0]);
      }
    }
  }

  lemma {:induction false} CmpFieldsTransitive(a: seq<Field>, b: seq<Field>, c: seq<Field>)
    requires forall f :: f in a ==> IntFree(f.value)
    requires forall f :: f in b ==> IntFree(f.value)
    requires forall f :: f in c ==> IntFree(f.value)
    requires CmpFields(a, b) == Less && CmpFields(b, c) == Less
    ensures CmpFields(a, c) == Less
    decreases a, 0
  {
    if a != [] && b != [] && c != [] {
      var (ka, kb, kc) := (a[0].key, b[0].key, c[0].key);
      StringIdentity(ka, kb);
      StringIdentity(kb, kc);
      StringIdentity(ka, kc);
      if ka == kb == kc {
        CmpIdentity(a[0].value, b[0].value);
        CmpIdentity(b[0].value, c[0].value);
        CmpIdentity(a[0].value, c[0].value);
        if a[0].value == b[0].value && b[0].value == c[0].value {
          CmpFieldsTransitive(a[1..], b[1..], c[1..]);
        } else if a[0].value != b[0].value && b[0].value != c[0].value {
          CmpTransitiveCanon(a[0].value, b[0].value, c[0].value);
        }
      } else if ka != kb && kb != kc {
        CodesTransitive(Codes(ka), Codes(kb), Codes(kc));
      }
    }
  }

  /** Where integers convert exactly, comparing values is comparing their canonical forms. */
  lemma {:induction false} CmpCanon(a: Value, b: Value)
    requires SafeInts(a) && SafeInts(b)
    ensures Cmp(a, b) == Cmp(Canon(a), Canon(b))
    decreases a, 1
  {
    match (a, b) {
      case (Int(x), Int(y)) => SafeIntOrder(x, y);
      case (Array(x), Array(y)) => CmpItemsCanon(x, y);
      case (Object(x), Object(y)) => CmpFieldsCanon(x, y);
      case (_, _) =>
    }
  }

  lemma {:induction false} CmpItemsCanon(a: seq<Value>, b: seq<Value>)
    requires forall x :: x in a ==> SafeInts(x)
    requires forall x :: x in b ==> SafeInts(x)
    ensures CmpItems(a, b) == CmpItems(CanonItems(a), CanonItems(b))
    decreases a, 0
  {
    if a != [] && b != [] {
      CmpCanon(a[0], b[0]);
      CmpItemsCanon(a[1..], b[1..]);
      assert CanonItems(a)[1..] == CanonItems(a[1..]) && CanonItems(b)[1..] == CanonItems(b[1..]);
    }
  }

  lemma {:induction false} CmpFieldsCanon(a: seq<Field>, b: seq<Field>)
    requires forall f :: f in a ==> SafeInts(f.value)
    requires forall f :: f in b ==> SafeInts(f.value)
    ensures CmpFields(a, b) == CmpFields(CanonFields(a), CanonFields(b))
    decreases a, 0
  {
    if a != [] && b != [] {
      CmpCanon(a[0].value, b[0].value);
      CmpFieldsCanon(a[1..], b[1..]);
      assert CanonFields(a)[1..] == CanonFields(a[1..]) && CanonFields(b)[1..] == CanonFields(b[1..]);
    }
  }

  /** `Cmp` is a total order up to the identification of an integer with its float. */
  lemma TotalOrder(a: Value, b: Value, c: Value)
    requires SafeInts(a) && SafeInts(b) && SafeInts(c)
    ensures Cmp(a, b) == Equal <==> Canon(a) == Canon(b)
    ensures Cmp(b, a) == Reverse(Cmp(a, b))
    ensures Cmp(a, b) != Greater && Cmp(b, c) != Greater ==> Cmp(a, c) != Greater
    ensures Cmp(a, b) != Greater && Cmp(b, c) != Greater && Cmp(a, c) == Equal ==> Cmp(a, b) == Equal && Cmp(b, c) == Equal
  {
    CanonIntFree(a);
    CanonIntFree(b);
    CanonIntFree(c);
    CmpCanon(a, b);
    CmpCanon(b, c);
    CmpCanon(a, c);
    CmpIdentity(Canon(a), Canon(b));
    CmpIdentity(Canon(b), Canon(c));
    CmpIdentity(Canon(a), Canon(c));
    CmpReverse(a, b);
    CmpReverse(Canon(a), Canon(b));
    if Cmp(a, b) == Less && Cmp(b, c) == Less {
      CmpTransitiveCanon(Canon(a), Canon(b), Canon(c));
    }
  }

  // ---- equality ----

  /** Two floats are equal but ordered apart exactly when they are NaNs of different bits or zeros of different signs. */
  lemma FloatDisagreement(x: Float, y: Float)
    ensures FloatEq(x, y) && TotalCmp(x, y) != Equal <==> x != y && ((x.NaN? && y.NaN?) || (x.Zero? && y.Zero?))
    ensures TotalCmp(x, y) == Equal ==> FloatEq(x, y)
  {
    TotalCmpIdentity(x, y);
  }

  /** What compares equal is equal, on all values. */
  lemma {:induction false} EqualImpliesEq(a: Value, b: Value)
    requires Cmp(a, b) == Equal
    ensures Eq(a, b)
    decreases a, 1
  {
    match (a, b) {
      case (Float(x), Float(y)) => FloatDisagreement(x, y);
      case (Int(x), Float(y)) => FloatDisagreement(IntToFloat(x), y);
      case (Float(x), Int(y)) => FloatDisagreement(x, IntToFloat(y));
      case (String(x), String(y)) => StringIdentity(x, y);
      case (Bytes(x), Bytes(y)) => CodesIdentity(x, y);
      case (Uuid(x), Uuid(y)) => CodesIdentity(x, y);
      case (Array(x), Array(y)) => EqualItemsImplyEq(x, y);
      case (Object(x), Object(y)) => EqualFieldsImplyEq(x, y);
      case (_, _) =>
    }
  }

  lemma {:induction false} EqualItemsImplyEq(a: seq<Value>, b: seq<Value>)
    requires CmpItems(a, b) == Equal
    ensures EqItems(a, b)
    decreases a, 0
  {
    if a != [] && b != [] {
      EqualImpliesEq(a[0], b[0]);
      EqualItemsImplyEq(a[1..], b[1..]);
    }
  }

  lemma {:induction false} EqualFieldsImplyEq(a: seq<Field>, b: seq<Field>)
    requires CmpFields(a, b) == Equal
    ensures EqFields(a, b)
    decreases a, 0
  {
    if a != [] && b != [] {
      StringIdentity(a[0].key, b[0].key);
      EqualImpliesEq(a[0].value, b[0].value);
      EqualFieldsImplyEq(a[1..], b[1..]);
    }
  }

  /** On exact values equality is identity of the canonical forms. */
  lemma {:induction false} EqCanon(a: Value, b: Value)
    requires Exact(a) && Exact(b)
    ensures Eq(a, b) <==> Canon(a) == Canon(b)
    decreases a, 1
  {
    match (a, b) {
      case (Array(x), Array(y)) => EqItemsCanon(x, y);
      case (Object(x), Object(y)) => EqFieldsCanon(x, y);
      case (_, _) =>
    }
  }

  lemma {:induction false} EqItemsCanon(a: seq<Value>, b: seq<Value>)
    requires forall x :: x in a ==> Exact(x)
    requires forall x :: x in b ==> Exact(x)
    ensures EqItems(a, b) <==> CanonItems(a) == CanonItems(b)
    decreases a, 0
  {
    if a != [] && b != [] {
      EqCanon(a[0], b[0]);
      EqItemsCanon(a[1..], b[1..]);
      var (ca, cb) := (CanonItems(a), CanonItems(b));
      assert ca[1..] == CanonItems(a[1..]) && cb[1..] == CanonItems(b[1..]);
      assert ca == [ca[0]] + ca[1..] && cb == [cb[0]] + cb[1..];
    }
  }

  lemma {:induction false} EqFieldsCanon(a: seq<Field>, b: seq<Field>)
    requires forall f :: f in a ==> Exact(f.value)
    requires forall f :: f in b ==> Exact(f.value)
    ensures EqFields(a, b) <==> CanonFields(a) == CanonFields(b)
    decreases a, 0
  {
    if a != [] && b != [] {
      EqCanon(a[0].value, b[0].value);
      EqFieldsCanon(a[1..], b[1..]);
      var (ca, cb) := (CanonFields(a), CanonFields(b));
      assert ca[1..] == CanonFields(a[1..]) && cb[1..] == CanonFields(b[1..]);
      assert ca == [ca[0]] + ca[1..] && cb == [cb[0]] + cb[1..];
    }
  }

  // ---- hashing ----

  /** An exactly converted integer hashes like its float, at any depth. */
  lemma {:induction false} HashCanon(v: Value)
    requires SafeInts(v)
    ensures Hash(v) == Hash(Canon(v))
    decreases v, 1
  {
    match v {
      case Int(i) => assert (i as real).Floor == i;
      case Array(items) => HashItemsCanon(items);
      case Object(fields) => HashFieldsCanon(fields);
      case _ =>
    }
  }

  lemma {:induction false} HashItemsCanon(items: seq<Value>)
    requires forall x :: x in items ==> SafeInts(x)
    ensures HashItems(items) == HashItems(CanonItems(items))
    decreases items, 0
  {
    if items != [] {
      HashCanon(items[0]);
      HashItemsCanon(items[1..]);
      assert CanonItems(items)[1..] == CanonItems(items[1..]);
    }
  }

  lemma {:induction false} HashFieldsCanon(fields: seq<Field>)
    requires forall f :: f in fields ==> SafeInts(f.value)
    ensures HashFields(fields) == HashFields(CanonFields(fields))
    decreases fields, 0
  {
    if fields != [] {
      HashCanon(fields[0].value);
      HashFieldsCanon(fields[1..]);
      assert CanonFields(fields)[1..] == CanonFields(fields[1..]);
    }
  }

  /** On exact values the three relations agree: a B-tree and a hash table identify the same keys. */
  lemma Coherent(a: Value, b: Value)
    requires Exact(a) && Exact(b)
    ensures Eq(a, b) <==> Cmp(a, b) == Equal
    ensures Eq(a, b) ==> Hash(a) == Hash(b)
  {
    EqCanon(a, b);
    TotalOrder(a, b, b);
    HashCanon(a);
    HashCanon(b);
  }

  /** Beyond 2^53 neither `==` nor the order is transitive, and equal keys hash apart. */
  lemma LargeIntegersBreakTheLaws()
    ensures var (m, n, f) := (Int(EXACT_INT), Int(EXACT_INT + 1), Float(Finite(EXACT_INT as real)));
            && Eq(m, f) && Eq(f, n) && !Eq(m, n)
            && Cmp(n, f) == Equal && Cmp(f, m) == Equal && Cmp(n, m) == Greater
            && Hash(n) != Hash(f)
  {
    assert Spacing(EXACT_INT + 1, 1) == Spacing(EXACT_INT + 1, 2) == 2;
    assert IntToFloat(EXACT_INT + 1) == Finite(EXACT_INT as real);
    assert (EXACT_INT as real).Floor == EXACT_INT;
    assert Hash(Int(EXACT_INT + 1))[1] == Number(EXACT_INT + 1);
    assert Hash(Float(Finite(EXACT_INT as real)))[1] == Number(EXACT_INT);
  }

  /** Negative zero and NaN are equal to keys that the B-tree keeps apart; NaNs also hash apart. */
  lemma SpecialFloatsBreakTheLaws()
    ensures Eq(Float(Zero(true)), Int(0)) && Cmp(Float(Zero(true)), Int(0)) == Less
    ensures Eq(Float(NaN(false, 1)), Float(NaN(false, 2)))
    ensures Cmp(Float(NaN(false, 1)), Float(NaN(false, 2))) == Less && Hash(Float(NaN(false, 1))) != Hash(Float(NaN(false, 2)))
  {
    assert Hash(Float(NaN(false, 1)))[1] == BitsOf(NaN(false, 1)) && Hash(Float(NaN(false, 2)))[1] == BitsOf(NaN(false, 2));
  }
}

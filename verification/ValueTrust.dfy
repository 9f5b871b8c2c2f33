/**
 On which values the order and the hash can be trusted to respect `==`: exactly, and however deeply the
 values are nested (crates/nova-core/src/value.rs).
 */
module ValueTrust {
  import opened Values
  import opened ValueLaws
  import opened FloatGrid

  // ---- integers as floats ----

  /** An integer beyond 2^53 converts to its rounding, and that hashes as itself, except at the upper end. */
  lemma LargeToFloat(i: i64)
    requires Magnitude(i) > EXACT_INT
    ensures var r := RoundHalfEven(Magnitude(i), Spacing(Magnitude(i), 1));
            && r > 0 && IntToFloat(i) == Finite(if i < 0 then -(r as real) else r as real)
            && FloatHash(IntToFloat(i)) == Number(if i < 0 then -(r as int) else if r == I64_SIZE then I64_MAX else r)
  {
    RoundedDouble(Magnitude(i));
    hide RoundHalfEven;
    hide Spacing;
    var r := RoundHalfEven(Magnitude(i), Spacing(Magnitude(i), 1));
    assert (r as real).Floor == r && (-(r as real)).Floor == -(r as int);
  }

  /** Only zero converts to zero, and no integer to anything but zero and finite numbers. */
  lemma ConvertsToZero(i: i64)
    ensures i == 0 ==> IntToFloat(i) == Zero(false)
    ensures i != 0 ==> IntToFloat(i).Finite?
  {
    if i < -EXACT_INT || i > EXACT_INT {
      LargeToFloat(i);
    }
  }

  // ---- the order ----

  /** No NaN and no zero of either type, at any depth. */
  predicate OrderSafe(v: Value)
    decreases v, 1
  {
    match v
    case Int(i) => i != 0
    case Float(f) => !f.NaN? && !f.Zero?
    case Array(items) => OrderSafeItems(items)
    case Object(fields) => OrderSafeFields(fields)
    case _ => true
  }

  predicate OrderSafeItems(items: seq<Value>)
    decreases items, 0
  {
    items != [] ==> OrderSafe(items[0]) && OrderSafeItems(items[1..])
  }

  predicate OrderSafeFields(fields: seq<Field>)
    decreases fields, 0
  {
    fields != [] ==> OrderSafe(fields[0].value) && OrderSafeFields(fields[1..])
  }

  /** An equal value, with every zero and NaN replaced by its counterpart of the other sign. */
  function Twin(v: Value): Value
    decreases v, 1
  {
    match v
    case Int(i) => if i == 0 then Float(Zero(true)) else v
    case Float(f) => (match f case NaN(neg, bits) => Float(NaN(!neg, bits)) case Zero(neg) => Float(Zero(!neg)) case _ => v)
    case Array(items) => Array(TwinItems(items))
    case Object(fields) => Object(TwinFields(fields))
    case _ => v
  }

  function TwinItems(items: seq<Value>): seq<Value>
    decreases items, 0
  {
    if items == [] then [] else [Twin(items[0])] + TwinItems(items[1..])
  }

  function TwinFields(fields: seq<Field>): seq<Field>
    decreases fields, 0
  {
    if fields == [] then [] else [Field(fields[0].key, Twin(fields[0].value))] + TwinFields(fields[1..])
  }

  lemma {:induction false} TwinEqual(v: Value)
    ensures Eq(v, Twin(v)) && (Cmp(v, Twin(v)) == Equal <==> OrderSafe(v))
    decreases v, 1
  {
    match v {
      case Int(i) =>
      case Float(f) => FloatDisagreement(f, f);
      case String(s) => StringIdentity(s, s);
      case Bytes(b) => CodesIdentity(b, b);
      case Uuid(u) => CodesIdentity(u, u);
      case Array(items) => TwinItemsEqual(items);
      case Object(fields) => TwinFieldsEqual(fields);
      case _ =>
    }
  }

  lemma {:induction false} TwinItemsEqual(items: seq<Value>)
    ensures EqItems(items, TwinItems(items)) && (CmpItems(items, TwinItems(items)) == Equal <==> OrderSafeItems(items))
    decreases items, 0
  {
    if items != [] {
      TwinEqual(items[0]);
      TwinItemsEqual(items[1..]);
      assert TwinItems(items)[1..] == TwinItems(items[1..]);
      hide Twin;
      hide Eq;
      hide Cmp;
      hide OrderSafe;
    }
  }

  lemma {:induction false} TwinFieldsEqual(fields: seq<Field>)
    ensures EqFields(fields, TwinFields(fields)) && (CmpFields(fields, TwinFields(fields)) == Equal <==> OrderSafeFields(fields))
    decreases fields, 0
  {
    if fields != [] {
      TwinEqual(fields[0].value);
      TwinFieldsEqual(fields[1..]);
      assert TwinFields(fields)[1..] == TwinFields(fields[1..]);
      hide Twin;
      hide Eq;
      hide Cmp;
      hide OrderSafe;
    }
  }

  lemma {:induction false} SafeCompare(v: Value, w: Value)
    requires OrderSafe(v) && Eq(v, w)
    ensures Cmp(v, w) == Equal
    decreases v, 1
  {
    match (v, w) {
      case (Float(x), Float(y)) => FloatDisagreement(x, y);
      case (Int(x), Float(y)) =>
        ConvertsToZero(x);
        FloatDisagreement(IntToFloat(x), y);
      case (Float(x), Int(y)) =>
        ConvertsToZero(y);
        FloatDisagreement(x, IntToFloat(y));
      case (String(x), String(y)) => StringIdentity(x, y);
      case (Bytes(x), Bytes(y)) => CodesIdentity(x, y);
      case (Uuid(x), Uuid(y)) => CodesIdentity(x, y);
      case (Array(x), Array(y)) => SafeCompareItems(x, y);
      case (Object(x), Object(y)) => SafeCompareFields(x, y);
      case (_, _) =>
    }
  }

  lemma {:induction false} SafeCompareItems(v: seq<Value>, w: seq<Value>)
    requires OrderSafeItems(v) && EqItems(v, w)
    ensures CmpItems(v, w) == Equal
    decreases v, 0
  {
    if v != [] && w != [] {
      SafeCompare(v[0], w[0]);
      SafeCompareItems(v[1..], w[1..]);
    }
  }

  lemma {:induction false} SafeCompareFields(v: seq<Field>, w: seq<Field>)
    requires OrderSafeFields(v) && EqFields(v, w)
    ensures CmpFields(v, w) == Equal
    decreases v, 0
  {
    if v != [] && w != [] {
      SafeCompare(v[0].value, w[0].value);
      SafeCompareFields(v[1..], w[1..]);
    }
  }

  /** Everything equal to a value also compares `Equal` to it exactly if it holds no NaN and no zero at any depth. */
  lemma OrderTrusted(v: Value)
    ensures (forall w :: Eq(v, w) ==> Cmp(v, w) == Equal) <==> OrderSafe(v)
  {
    TwinEqual(v);
    if OrderSafe(v) {
      forall w | Eq(v, w) ensures Cmp(v, w) == Equal { SafeCompare(v, w); }
    } else {
      assert Eq(v, Twin(v)) && Cmp(v, Twin(v)) != Equal;
    }
  }

  // ---- the hash ----

  /** The integer comes back from its float. */
  predicate Survives(i: i64) {
    FloatHash(IntToFloat(i)) == Number(i)
  }

  /** Every integer up to 2^53 survives. */
  lemma SmallSurvives(i: i64)
    requires -EXACT_INT <= i <= EXACT_INT
    ensures Survives(i)
  {
    assert (i as real).Floor == i;
  }

  /** The integer is a double, or the largest integer, to which the cast back saturates. */
  predicate IntSafe(i: i64) {
    OnGrid(Magnitude(i)) || i == I64_MAX
  }

  /** An integer comes back from its float exactly if it is a double or the largest integer. */
  lemma SurvivesExactly(i: i64)
    ensures Survives(i) <==> IntSafe(i)
  {
    var m := Magnitude(i);
    if m <= EXACT_INT {
      SmallSurvives(i);
      assert EXACT_INT % 2 == 0;
    } else {
      LargeToFloat(i);
      RoundedDouble(m);
      hide IntToFloat;
      hide FloatHash;
      hide RoundHalfEven;
      hide OnGrid;
    }
  }

  /**
   No integer but the double itself converts to the double `m`: it is below 2^53, beyond 2^63, or below
   2^54 and rounded away from on both sides. (Numbers that are no doubles are converted to by none.)
   */
  predicate WholeSafe(m: nat) {
    m < EXACT_INT || I64_SIZE < m || !OnGrid(m) || (m < 2 * EXACT_INT && (m / 2) % 2 == 1)
  }

  predicate FloatSafe(f: Float) {
    match f
    case NaN(_, _) => false
    case Finite(v) => !IsInteger(v) || WholeSafe(Magnitude(v.Floor))
    case _ => true
  }

  /** For a float that is not safe, an integer that converts to it and does not come back. */
  function Lost(f: Float): i64 {
    if !f.Finite? || Magnitude(f.value.Floor) > I64_SIZE then 0
    else
      var m := Magnitude(f.value.Floor);
      if f.value < 0.0 then -(if m == I64_SIZE then m - 1 else m + 1)
      else if m >= I64_MAX then I64_MAX - 1 else m + 1
  }

  lemma Odd(m: nat)
    ensures m % 2 == 1 ==> m == 2 * (m / 2) + 1
  {
  }

  /** Just beyond 2^53 an odd integer is rounded to the neighbour that is a multiple of four. */
  lemma OddRounded(m: nat)
    requires m % 2 == 1
    ensures (RoundHalfEven(m, 2) / 2) % 2 == 0
  {
    Odd(m);
    var q := m / 2;
    assert RoundHalfEven(m, 2) == if q % 2 == 0 then q * 2 else (q + 1) * 2;
  }

  lemma SafeWhole(m: nat)
    requires EXACT_INT < m <= I64_SIZE && !OnGrid(m)
    ensures !WholeSafe(RoundHalfEven(m, Spacing(m, 1)))
  {
    RoundedDouble(m);
    var p := Spacing(m, 1);
    if RoundHalfEven(m, p) < 2 * EXACT_INT {
      assert p == 2;
      OddRounded(m);
    }
  }

  /** No integer that is lost converts to a safe float. */
  lemma SafeGivesBack(i: i64)
    requires FloatSafe(IntToFloat(i))
    ensures Survives(i)
  {
    var m := Magnitude(i);
    SurvivesExactly(i);
    if m <= EXACT_INT {
      SmallSurvives(i);
    } else if !OnGrid(m) {
      LargeToFloat(i);
      RoundedDouble(m);
      SafeWhole(m);
    }
  }

  /** The integer next to a double beyond 2^54 (or to a multiple of four below) is rounded to it. */
  lemma NextRounded(m: nat)
    requires EXACT_INT <= m < I64_SIZE && !WholeSafe(m)
    ensures EXACT_INT < m + 1 && !OnGrid(m + 1) && RoundHalfEven(m + 1, Spacing(m + 1, 1)) == m
  {
    var p := Spacing(m, 1);
    SpacingBounds(m, 1);
    QuotientBelow(m, p, EXACT_INT);
    Quotient(m, p);
    var q := m / p;
    Times(q + 1, EXACT_INT, p);
    if q + 1 == EXACT_INT { assert (q + 1) * p == EXACT_INT * p; }
    assert m + p == (q + 1) * p;
    SameSpacing(m, m + 1, 1);
    NextQuotient(m, p);
  }

  lemma NextQuotient(m: nat, p: nat)
    requires p >= 2 && m % p == 0
    ensures (m + 1) / p == m / p && (m + 1) % p == 1 && m == (m / p) * p
  {
    Quotient(m, p);
    Quotient(m + 1, p);
    QuotientAtLeast(m + 1, p, m / p);
    QuotientBelow(m + 1, p, m / p + 1);
  }

  /** The two integers below 2^63 are rounded up to it. */
  lemma LastIntegers(m: nat)
    requires I64_MAX - 1 <= m <= I64_MAX
    ensures !OnGrid(m) && RoundHalfEven(m, Spacing(m, 1)) == I64_SIZE
  {
    LargestSpacing();
    SameSpacing(I64_MAX, m, 1);
  }

  lemma UnsafeLoses(f: Float)
    requires f.Finite? && !FloatSafe(f)
    ensures IntToFloat(Lost(f)) == f && !Survives(Lost(f))
  {
    var m := Magnitude(f.value.Floor);
    var lost := Magnitude(Lost(f));
    if m < I64_SIZE {
      if m >= I64_MAX - 1 { LastIntegers(m); }
      NextRounded(m);
    } else {
      LastIntegers(lost);
    }
    LargeToFloat(Lost(f));
    SurvivesExactly(Lost(f));
    hide IntToFloat;
    hide Survives;
    hide RoundHalfEven;
    hide OnGrid;
    hide WholeSafe;
  }

  /** A float is safe exactly if every integer that converts to it comes back. */
  lemma SafeExactly(f: Float)
    ensures FloatSafe(f) <==> !f.NaN? && forall i: i64 :: IntToFloat(i) == f ==> Survives(i)
  {
    if FloatSafe(f) {
      forall i: i64 | IntToFloat(i) == f ensures Survives(i) { SafeGivesBack(i); }
    } else if !f.NaN? {
      UnsafeLoses(f);
    }
  }

  /** No NaN, no integer that its float does not give back, and no float that such an integer converts to, at any depth. */
  predicate HashSafe(v: Value)
    decreases v, 1
  {
    match v
    case Int(i) => IntSafe(i)
    case Float(f) => FloatSafe(f)
    case Array(items) => HashSafeItems(items)
    case Object(fields) => HashSafeFields(fields)
    case _ => true
  }

  predicate HashSafeItems(items: seq<Value>)
    decreases items, 0
  {
    items != [] ==> HashSafe(items[0]) && HashSafeItems(items[1..])
  }

  predicate HashSafeFields(fields: seq<Field>)
    decreases fields, 0
  {
    fields != [] ==> HashSafe(fields[0].value) && HashSafeFields(fields[1..])
  }

  /** An equal value that hashes differently, where there is one. */
  function HashTwin(v: Value): Value
    decreases v, 1
  {
    match v
    case Int(i) => Float(IntToFloat(i))
    case Float(f) =>
      if f.NaN? then Float(NaN(!f.negative, f.bits)) else if FloatSafe(f) then v else Int(Lost(f))
    case Array(items) => Array(HashTwinItems(items))
    case Object(fields) => Object(HashTwinFields(fields))
    case _ => v
  }

  function HashTwinItems(items: seq<Value>): (r: seq<Value>)
    ensures |r| == |items|
    decreases items, 0
  {
    if items == [] then [] else [HashTwin(items[0])] + HashTwinItems(items[1..])
  }

  function HashTwinFields(fields: seq<Field>): seq<Field>
    decreases fields, 0
  {
    if fields == [] then [] else [Field(fields[0].key, HashTwin(fields[0].value))] + HashTwinFields(fields[1..])
  }

  lemma SameLengthParts<T>(a: seq<T>, b: seq<T>, c: seq<T>, d: seq<T>)
    requires |a| == |b|
    ensures a + c == b + d <==> a == b && c == d
  {
    if a + c == b + d {
      assert a == (a + c)[..|a|] && b == (b + d)[..|b|];
      assert c == (a + c)[|a|..] && d == (b + d)[|b|..];
    }
  }

  /** What two equal floats hash as. */
  lemma EqualFloatsHash(x: Float, y: Float)
    requires FloatEq(x, y) && !x.NaN?
    ensures FloatHash(x) == FloatHash(y)
  {
  }

  lemma {:induction false} HashTwinEqual(v: Value)
    ensures Eq(v, HashTwin(v)) && |Hash(v)| == |Hash(HashTwin(v))| && (Hash(v) == Hash(HashTwin(v)) <==> HashSafe(v))
    decreases v, 1
  {
    match v {
      case Int(i) =>
        ConvertsToZero(i);
        SurvivesExactly(i);
        assert Hash(v)[1] == Number(i) && Hash(HashTwin(v))[1] == FloatHash(IntToFloat(i));
      case Float(f) => FloatTwin(f);
      case Array(items) =>
        HashTwinItemsEqual(items);
        SameLengthParts([Tagged(7), Length(|items|)], [Tagged(7), Length(|items|)], HashItems(items), HashItems(HashTwinItems(items)));
      case Object(fields) =>
        HashTwinFieldsEqual(fields);
        SameLengthParts([Tagged(8)], [Tagged(8)], HashFields(fields), HashFields(HashTwinFields(fields)));
      case _ =>
    }
  }

  lemma FloatTwin(f: Float)
    ensures var (v, w) := (Float(f), HashTwin(Float(f)));
            Eq(v, w) && |Hash(v)| == |Hash(w)| && (Hash(v) == Hash(w) <==> HashSafe(v))
  {
    var (v, w) := (Float(f), HashTwin(Float(f)));
    assert Hash(v)[1] == FloatHash(f);
    if f.NaN? {
      assert Hash(w)[1] == FloatHash(NaN(!f.negative, f.bits));
    } else if !FloatSafe(f) {
      UnsafeLoses(f);
      assert Hash(w)[1] == Number(Lost(f));
    }
  }

  lemma {:induction false} HashTwinItemsEqual(items: seq<Value>)
    ensures EqItems(items, HashTwinItems(items)) && |HashItems(items)| == |HashItems(HashTwinItems(items))|
    ensures HashItems(items) == HashItems(HashTwinItems(items)) <==> HashSafeItems(items)
    decreases items, 0
  {
    if items != [] {
      HashTwinEqual(items[0]);
      HashTwinItemsEqual(items[1..]);
      assert HashTwinItems(items)[1..] == HashTwinItems(items[1..]);
      hide HashTwin;
      hide Eq;
      hide Hash;
      hide HashSafe;
      SameLengthParts(Hash(items[0]), Hash(HashTwin(items[0])), HashItems(items[1..]), HashItems(HashTwinItems(items[1..])));
    }
  }

  lemma {:induction false} HashTwinFieldsEqual(fields: seq<Field>)
    ensures EqFields(fields, HashTwinFields(fields)) && |HashFields(fields)| == |HashFields(HashTwinFields(fields))|
    ensures HashFields(fields) == HashFields(HashTwinFields(fields)) <==> HashSafeFields(fields)
    decreases fields, 0
  {
    if fields != [] {
      var (f, rest) := (fields[0], fields[1..]);
      HashTwinEqual(f.value);
      HashTwinFieldsEqual(rest);
      assert HashTwinFields(fields)[1..] == HashTwinFields(rest);
      hide HashTwin;
      hide Eq;
      hide Hash;
      hide HashSafe;
      var (a, b) := ([Text(f.key)] + Hash(f.value), [Text(f.key)] + Hash(HashTwin(f.value)));
      SameLengthParts([Text(f.key)], [Text(f.key)], Hash(f.value), Hash(HashTwin(f.value)));
      SameLengthParts(a, b, HashFields(rest), HashFields(HashTwinFields(rest)));
    }
  }

  lemma {:induction false} SafeHash(v: Value, w: Value)
    requires HashSafe(v) && Eq(v, w)
    ensures Hash(v) == Hash(w)
    decreases v, 1
  {
    match (v, w) {
      case (Float(x), Float(y)) => EqualFloatsHash(x, y);
      case (Int(x), Float(y)) =>
        ConvertsToZero(x);
        SurvivesExactly(x);
        EqualFloatsHash(IntToFloat(x), y);
      case (Float(x), Int(y)) =>
        ConvertsToZero(y);
        EqualFloatsHash(IntToFloat(y), x);
        if y != 0 { SafeGivesBack(y); } else { SmallSurvives(y); }
      case (Array(x), Array(y)) => SafeHashItems(x, y);
      case (Object(x), Object(y)) => SafeHashFields(x, y);
      case (_, _) =>
    }
  }

  lemma {:induction false} SafeHashItems(v: seq<Value>, w: seq<Value>)
    requires HashSafeItems(v) && EqItems(v, w)
    ensures HashItems(v) == HashItems(w) && |v| == |w|
    decreases v, 0
  {
    if v != [] && w != [] {
      SafeHash(v[0], w[0]);
      SafeHashItems(v[1..], w[1..]);
    }
  }

  lemma {:induction false} SafeHashFields(v: seq<Field>, w: seq<Field>)
    requires HashSafeFields(v) && EqFields(v, w)
    ensures HashFields(v) == HashFields(w)
    decreases v, 0
  {
    if v != [] && w != [] {
      SafeHash(v[0].value, w[0].value);
      SafeHashFields(v[1..], w[1..]);
    }
  }

  /**
   Everything equal to a value hashes like it exactly if, at any depth, it holds no NaN, no integer that is
   neither a double nor the largest one, and no double that is an integer from 2^53 to 2^63 in magnitude,
   unless it lies below 2^54 and is twice an odd number.
   */
  lemma HashTrusted(v: Value)
    ensures (forall w :: Eq(v, w) ==> Hash(v) == Hash(w)) <==> HashSafe(v)
  {
    HashTwinEqual(v);
    if HashSafe(v) {
      forall w | Eq(v, w) ensures Hash(v) == Hash(w) { SafeHash(v, w); }
    } else {
      assert Eq(v, HashTwin(v)) && Hash(v) != Hash(HashTwin(v));
    }
  }

  // ---- transitivity ----

  /** Two integers are equal to one float without being equal exactly if they differ and convert to the same float. */
  lemma MiddleFloat(m: i64, n: i64)
    ensures (exists f :: Eq(Int(m), Float(f)) && Eq(Float(f), Int(n)) && !Eq(Int(m), Int(n)))
            <==> m != n && IntToFloat(m) == IntToFloat(n)
    ensures (exists f :: Cmp(Int(m), Float(f)) == Equal && Cmp(Float(f), Int(n)) == Equal && Cmp(Int(m), Int(n)) != Equal)
            <==> m != n && IntToFloat(m) == IntToFloat(n)
  {
    ConvertsToZero(m);
    ConvertsToZero(n);
    var (x, y) := (IntToFloat(m), IntToFloat(n));
    hide IntToFloat;
    if m != n && x == y {
      TotalCmpIdentity(x, x);
      assert Eq(Int(m), Float(x)) && Eq(Float(x), Int(n));
      assert Cmp(Int(m), Float(x)) == Equal && Cmp(Float(x), Int(n)) == Equal;
    }
    forall f | Cmp(Int(m), Float(f)) == Equal && Cmp(Float(f), Int(n)) == Equal ensures x == y {
      TotalCmpIdentity(x, f);
      TotalCmpIdentity(f, y);
    }
  }
}

/**
 Typed values (crates/nova-core/src/value.rs): the coercing equality, the ordering that the B-tree
 index and the evaluator use, and the hash stream of the hash index, with the laws that tie the
 three together and the inputs on which they come apart.
 */
module Values {
  import opened Bytes

  type i64 = n: int | -0x8000_0000_0000_0000 <= n < 0x8000_0000_0000_0000
  type NonZero = r: real | r != 0.0 witness 1.0

  /** An f64: the finite non-zero values are (a superset of those among) the reals. */
  datatype Float =
    | NaN(negative: bool, bits: nat)
    | Inf(negative: bool)
    | Zero(negative: bool)
    | Finite(value: NonZero)

  /** `Object` lists the entries of a `BTreeMap<String, Value>` in iteration order. */
  datatype Value =
    | Null
    | Bool(b: bool)
    | Int(i: i64)
    | Float(f: Float)
    | String(s: string)
    | Bytes(bytes: seq<byte>)
    | Array(items: seq<Value>)
    | Object(fields: seq<Field>)
    | Timestamp(t: i64)
    | Uuid(u: seq<byte>)

  datatype Field = Field(key: string, value: Value)

  datatype Ordering = Less | Equal | Greater

  function Reverse(o: Ordering): Ordering {
    match o
    case Less => Greater
    case Equal => Equal
    case Greater => Less
  }

  // ---- numbers ----

  const EXACT_INT := 0x20_0000_0000_0000  // 2^53

  /** The distance between neighbouring doubles around `m`, for `m` from `half * EXACT_INT` on. */
  function Spacing(m: nat, half: nat): (p: nat)
    requires half > 0
    ensures p > 0
    decreases m - half * EXACT_INT
  {
    if m < half * EXACT_INT then half else Spacing(m, 2 * half)
  }

  function RoundHalfEven(m: nat, p: nat): nat
    requires p > 0
  {
    var q, r := m / p, m % p;
    if 2 * r < p || (2 * r == p && q % 2 == 0) then q * p else (q + 1) * p
  }

  function Magnitude(i: int): nat {
    if i < 0 then -i else i
  }

  /** The cast `i as f64`: exact up to 2^53, rounded to the nearest double (ties to even) beyond. */
  function IntToFloat(i: i64): Float {
    if i == 0 then Zero(false)
    else if -EXACT_INT <= i <= EXACT_INT then Finite(i as real)
    else
      var m := Magnitude(i);
      var rounded := RoundHalfEven(m, Spacing(m, 1));
      if rounded == 0 then Zero(false) else Finite(if i < 0 then -(rounded as real) else rounded as real)
  }

  function CmpInt(a: int, b: int): Ordering {
    if a < b then Less else if a == b then Equal else Greater
  }

  function CmpReal(a: real, b: real): Ordering {
    if a < b then Less else if a == b then Equal else Greater
  }

  /** Position of a float in the order of `f64::total_cmp`: its class, then its place within the class. */
  function Class(f: Float): int {
    match f
    case NaN(neg, _) => if neg then -4 else 4
    case Inf(neg) => if neg then -3 else 3
    case Finite(v) => if v < 0.0 then -2 else 2
    case Zero(neg) => if neg then -1 else 1
  }

  function Place(f: Float): real {
    match f
    case NaN(neg, bits) => if neg then -(bits as real) else bits as real
    case Inf(_) => 0.0
    case Finite(v) => v
    case Zero(_) => 0.0
  }

  function TotalCmp(a: Float, b: Float): Ordering {
    if Class(a) != Class(b) then CmpInt(Class(a), Class(b)) else CmpReal(Place(a), Place(b))
  }

  /** `==` on f64 with the special case that two NaNs are equal. */
  predicate FloatEq(a: Float, b: Float) {
    match (a, b)
    case (NaN(_, _), NaN(_, _)) => true
    case (Zero(_), Zero(_)) => true
    case (_, _) => a == b
  }

  // ---- the three relations of the code ----

  predicate Eq(a: Value, b: Value)
    decreases a, 1
  {
    match (a, b)
    case (Float(x), Float(y)) => FloatEq(x, y)
    case (Int(x), Float(y)) => FloatEq(IntToFloat(x), y)
    case (Float(x), Int(y)) => FloatEq(IntToFloat(y), x)
    case (Array(x), Array(y)) => EqItems(x, y)
    case (Object(x), Object(y)) => EqFields(x, y)
    case (_, _) => a == b
  }

  predicate EqItems(a: seq<Value>, b: seq<Value>)
    decreases a, 0
  {
    if a == [] || b == [] then a == [] && b == []
    else Eq(a[0], b[0]) && EqItems(a[1..], b[1..])
  }

  predicate EqFields(a: seq<Field>, b: seq<Field>)
    decreases a, 0
  {
    if a == [] || b == [] then a == [] && b == []
    else a[0].key == b[0].key && Eq(a[0].value, b[0].value) && EqFields(a[1..], b[1..])
  }

  function Tag(v: Value): int {
    match v
    case Null => 0
    case Bool(_) => 1
    case Int(_) => 2
    case Float(_) => 2
    case String(_) => 3
    case Bytes(_) => 4
    case Timestamp(_) => 5
    case Uuid(_) => 6
    case Array(_) => 7
    case Object(_) => 8
  }

  /** Lexicographic order of number sequences; a proper prefix comes first. */
  function CmpCodes(a: seq<int>, b: seq<int>): Ordering {
    if a == [] && b == [] then Equal
    else if a == [] then Less
    else if b == [] then Greater
    else if a[0] != b[0] then CmpInt(a[0], b[0])
    else CmpCodes(a[1..], b[1..])
  }

  /** The code points of a string; their order is the order of the UTF-8 bytes. */
  function Codes(s: string): (r: seq<int>)
    ensures |r| == |s|
    ensures forall i :: 0 <= i < |s| ==> r[i] == s[i] as int
  {
    seq(|s|, i requires 0 <= i < |s| => s[i] as int)
  }

  function Bit(b: bool): int {
    if b then 1 else 0
  }

  function Cmp(a: Value, b: Value): Ordering
    decreases a, 1
  {
    if Tag(a) != Tag(b) then CmpInt(Tag(a), Tag(b))
    else match (a, b)
      case (Bool(x), Bool(y)) => CmpInt(Bit(x), Bit(y))
      case (Int(x), Int(y)) => CmpInt(x, y)
      case (Float(x), Float(y)) => TotalCmp(x, y)
      case (Int(x), Float(y)) => TotalCmp(IntToFloat(x), y)
      case (Float(x), Int(y)) => TotalCmp(x, IntToFloat(y))
      case (String(x), String(y)) => CmpCodes(Codes(x), Codes(y))
      case (Bytes(x), Bytes(y)) => CmpCodes(x, y)
      case (Timestamp(x), Timestamp(y)) => CmpInt(x, y)
      case (Uuid(x), Uuid(y)) => CmpCodes(x, y)
      case (Array(x), Array(y)) => CmpItems(x, y)
      case (Object(x), Object(y)) => CmpFields(x, y)
      case (_, _) => Equal
  }

  function CmpItems(a: seq<Value>, b: seq<Value>): Ordering
    decreases a, 0
  {
    if a == [] && b == [] then Equal
    else if a == [] then Less
    else if b == [] then Greater
    else if Cmp(a[0], b[0]) != Equal then Cmp(a[0], b[0])
    else CmpItems(a[1..], b[1..])
  }

  function CmpFields(a: seq<Field>, b: seq<Field>): Ordering
    decreases a, 0
  {
    if a == [] && b == [] then Equal
    else if a == [] then Less
    else if b == [] then Greater
    else if a[0].key != b[0].key then CmpCodes(Codes(a[0].key), Codes(b[0].key))
    else if Cmp(a[0].value, b[0].value) != Equal then Cmp(a[0].value, b[0].value)
    else CmpFields(a[1..], b[1..])
  }

  /** What a value feeds into the hasher, one item per write. */
  datatype HashItem = Tagged(tag: int) | Flag(b: bool) | Number(i: int) | BitsOf(f: Float) | Text(s: string) | Raw(bytes: seq<byte>) | Length(n: nat)

  predicate IsInteger(r: real) {
    r.Floor as real == r
  }

  const I64_EDGE: real := 9223372036854775808.0

  /** The number a float hashes as when it has no fraction and fits an i64 (the cast saturates at the top). */
  function FloatHash(f: Float): HashItem {
    match f
    case Zero(_) => Number(0)
    case Finite(v) =>
      if IsInteger(v) && -I64_EDGE <= v <= I64_EDGE
      then Number(if v == I64_EDGE then 0x7FFF_FFFF_FFFF_FFFF else v.Floor)
      else BitsOf(f)
    case _ => BitsOf(f)
  }

  function Hash(v: Value): seq<HashItem>
    decreases v, 1
  {
    match v
    case Null => [Tagged(0)]
    case Bool(b) => [Tagged(1), Flag(b)]
    case Int(i) => [Tagged(2), Number(i)]
    case Float(f) => [Tagged(2), FloatHash(f)]
    case String(s) => [Tagged(3), Text(s)]
    case Bytes(b) => [Tagged(4), Raw(b)]
    case Timestamp(t) => [Tagged(5), Number(t)]
    case Uuid(u) => [Tagged(6), Raw(u)]
    case Array(items) => [Tagged(7), Length(|items|)] + HashItems(items)
    case Object(fields) => [Tagged(8)] + HashFields(fields)
  }

  function HashItems(items: seq<Value>): seq<HashItem>
    decreases items, 0
  {
    if items == [] then [] else Hash(items[0]) + HashItems(items[1..])
  }

  function HashFields(fields: seq<Field>): seq<HashItem>
    decreases fields, 0
  {
    if fields == [] then [] else [Text(fields[0].key)] + Hash(fields[0].value) + HashFields(fields[1..])
  }
}

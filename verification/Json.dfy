/**
 The JSON form of values (crates/nova-core/src/value.rs): what a value becomes when it is written to
 the log or a snapshot and read back. JSON text is taken as a faithful image of the JSON tree.
 */
module Json {
  import opened Core
  import opened Bytes
  import opened Values
  import opened Documents

  datatype Json =
    | JNull
    | JBool(b: bool)
    | JInt(i: i64)
    | JFloat(f: Float)
    | JString(s: string)
    | JArray(items: seq<Json>)
    | JObject(members: seq<Member>)

  datatype Member = Member(key: string, value: Json)

  /** The text form of UUIDs: `Uuid::parse_str` and `Uuid::to_string`. */
  datatype UuidText = UuidText(parse: string -> Option<seq<byte>>, render: seq<byte> -> string)

  ghost predicate Lawful(u: UuidText) {
    forall x :: u.parse(u.render(x)) == Some(x)
  }

  function CharOf(x: byte): char {
    x as char
  }

  function ParseChars(s: string): (r: Option<seq<byte>>)
    ensures r.Some? ==> |r.value| == |s| && forall i :: 0 <= i < |s| ==> r.value[i] == s[i] as int
    ensures (forall i :: 0 <= i < |s| ==> (s[i] as int) < 256) ==> r.Some?
  {
    if s == "" then Some([])
    else
      var rest := ParseChars(s[1..]);
      if (s[0] as int) < 256 && rest.Some? then Some([s[0] as int] + rest.value) else None
  }

  /** There are such text forms: one character for each byte, say. */
  lemma LawfulExists()
    ensures exists u :: Lawful(u)
  {
    var u := UuidText(ParseChars, x => seq(|x|, i requires 0 <= i < |x| => CharOf(x[i])));
    forall x ensures u.parse(u.render(x)) == Some(x) {
      var s := u.render(x);
      assert |s| == |x| && forall i :: 0 <= i < |x| ==> s[i] == CharOf(x[i]);
      assert ParseChars(s).Some? && ParseChars(s).value == x;
    }
    assert Lawful(u);
  }

  function HexDigit(n: int): char
    requires 0 <= n < 16
  {
    "0123456789abcdef"[n]
  }

  function HexEncode(bytes: seq<byte>): string {
    if bytes == [] then "" else [HexDigit(bytes[0] / 16), HexDigit(bytes[0] % 16)] + HexEncode(bytes[1..])
  }

  /** `serde_json::Value::from(Value)`. */
  function ToJson(u: UuidText, v: Value): Json
    decreases v, 1
  {
    match v
    case Null => JNull
    case Bool(b) => JBool(b)
    case Int(i) => JInt(i)
    case Float(f) => if f.NaN? || f.Inf? then JNull else JFloat(f)
    case String(s) => JString(s)
    case Bytes(b) => JString("0x" + HexEncode(b))
    case Array(items) => JArray(ItemsToJson(u, items))
    case Object(fields) => JObject(FieldsToJson(u, fields))
    case Timestamp(t) => JInt(t)
    case Uuid(x) => JString(u.render(x))
  }

  function ItemsToJson(u: UuidText, items: seq<Value>): (r: seq<Json>)
    ensures |r| == |items|
    decreases items, 0
  {
    if items == [] then [] else [ToJson(u, items[0])] + ItemsToJson(u, items[1..])
  }

  function FieldsToJson(u: UuidText, fields: seq<Field>): (r: seq<Member>)
    ensures |r| == |fields|
    decreases fields, 0
  {
    if fields == [] then []
    else [Member(fields[0].key, ToJson(u, fields[0].value))] + FieldsToJson(u, fields[1..])
  }

  /** `Value::from(serde_json::Value)`: a string that reads as a UUID becomes one. */
  function FromJson(u: UuidText, j: Json): Value
    decreases j, 1
  {
    match j
    case JNull => Null
    case JBool(b) => Bool(b)
    case JInt(i) => Int(i)
    case JFloat(f) => Float(f)
    case JString(s) => (match u.parse(s) case Some(x) => Uuid(x) case None => String(s))
    case JArray(items) => Array(ItemsFromJson(u, items))
    case JObject(members) => Object(FieldsFromJson(u, members))
  }

  function ItemsFromJson(u: UuidText, items: seq<Json>): (r: seq<Value>)
    ensures |r| == |items|
    decreases items, 0
  {
    if items == [] then [] else [FromJson(u, items[0])] + ItemsFromJson(u, items[1..])
  }

  function FieldsFromJson(u: UuidText, members: seq<Member>): (r: seq<Field>)
    ensures |r| == |members|
    decreases members, 0
  {
    if members == [] then []
    else [Field(members[0].key, FromJson(u, members[0].value))] + FieldsFromJson(u, members[1..])
  }

  /** What a value is after a trip through JSON. */
  function Norm(u: UuidText, v: Value): Value {
    FromJson(u, ToJson(u, v))
  }

  function NormFields(u: UuidText, fields: seq<Field>): seq<Field> {
    FieldsFromJson(u, FieldsToJson(u, fields))
  }

  function NormDocument(u: UuidText, doc: Document): Document {
    doc.(fields := NormFields(u, doc.fields))
  }

  /** Values JSON can express as they are. */
  predicate Stable(u: UuidText, v: Value)
    decreases v, 1
  {
    match v
    case Float(f) => !f.NaN? && !f.Inf?
    case String(s) => u.parse(s).None?
    case Bytes(_) => false
    case Timestamp(_) => false
    case Array(items) => StableItems(u, items)
    case Object(fields) => StableFields(u, fields)
    case _ => true
  }

  predicate StableItems(u: UuidText, items: seq<Value>)
    decreases items, 0
  {
    items != [] ==> Stable(u, items[0]) && StableItems(u, items[1..])
  }

  predicate StableFields(u: UuidText, fields: seq<Field>)
    decreases fields, 0
  {
    fields != [] ==> Stable(u, fields[0].value) && StableFields(u, fields[1..])
  }

  /** A value survives the trip through JSON exactly when it is stable. */
  lemma {:induction false} NormIdentity(u: UuidText, v: Value)
    requires Lawful(u)
    ensures Norm(u, v) == v <==> Stable(u, v)
    decreases v, 1
  {
    match v {
      case Array(items) => NormItemsIdentity(u, items);
      case Object(fields) => NormFieldsIdentity(u, fields);
      case _ =>
    }
  }

  lemma {:induction false} NormItemsIdentity(u: UuidText, items: seq<Value>)
    requires Lawful(u)
    ensures ItemsFromJson(u, ItemsToJson(u, items)) == items <==> StableItems(u, items)
    decreases items, 0
  {
    if items != [] {
      NormIdentity(u, items[0]);
      NormItemsIdentity(u, items[1..]);
      var r := ItemsFromJson(u, ItemsToJson(u, items));
      assert ItemsToJson(u, items)[1..] == ItemsToJson(u, items[1..]);
      assert r == [r[0]] + r[1..] && items == [items[0]] + items[1..];
    }
  }

  lemma {:induction false} NormFieldsIdentity(u: UuidText, fields: seq<Field>)
    requires Lawful(u)
    ensures NormFields(u, fields) == fields <==> StableFields(u, fields)
    decreases fields, 0
  {
    if fields != [] {
      NormIdentity(u, fields[0].value);
      NormFieldsIdentity(u, fields[1..]);
      var r := NormFields(u, fields);
      assert FieldsToJson(u, fields)[1..] == FieldsToJson(u, fields[1..]);
      assert r == [r[0]] + r[1..] && fields == [fields[0]] + fields[1..];
    }
  }

  /** Every trip through JSON ends in a stable value, so a second trip changes nothing. */
  lemma {:induction false} NormStable(u: UuidText, v: Value)
    requires Lawful(u)
    ensures Stable(u, Norm(u, v))
    decreases v, 1
  {
    match v {
      case Array(items) => NormItemsStable(u, items);
      case Object(fields) => NormFieldsStable(u, fields);
      case _ =>
    }
  }

  lemma {:induction false} NormItemsStable(u: UuidText, items: seq<Value>)
    requires Lawful(u)
    ensures StableItems(u, ItemsFromJson(u, ItemsToJson(u, items)))
    decreases items, 0
  {
    if items != [] {
      NormStable(u, items[0]);
      NormItemsStable(u, items[1..]);
      assert ItemsToJson(u, items)[1..] == ItemsToJson(u, items[1..]);
    }
  }

  lemma {:induction false} NormFieldsStable(u: UuidText, fields: seq<Field>)
    requires Lawful(u)
    ensures StableFields(u, NormFields(u, fields))
    decreases fields, 0
  {
    if fields != [] {
      NormStable(u, fields[0].value);
      NormFieldsStable(u, fields[1..]);
      assert FieldsToJson(u, fields)[1..] == FieldsToJson(u, fields[1..]);
    }
  }

  lemma NormIdempotent(u: UuidText, doc: Document)
    requires Lawful(u)
    ensures NormDocument(u, NormDocument(u, doc)) == NormDocument(u, doc)
  {
    NormFieldsStable(u, doc.fields);
    NormFieldsIdentity(u, NormFields(u, doc.fields));
  }
}

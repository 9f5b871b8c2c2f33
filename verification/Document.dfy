/** Documents and dotted field paths (crates/nova-core/src/document.rs). */
module Documents {
  import opened Core
  import opened Values
  import opened DocumentIds

  /** `fields` lists a `BTreeMap<String, Value>` in key order. */
  datatype Document = Document(id: DocumentId, version: nat, createdAt: i64, updatedAt: i64, fields: seq<Field>)

  type CollectionKey = (string, string)
  type Store = map<DocumentId, Document>
  type Collections = map<CollectionKey, Store>

  function StoreOf(collections: Collections, key: CollectionKey): Store {
    if key in collections then collections[key] else map[]
  }

  predicate KeyLess(a: string, b: string) {
    CmpCodes(Codes(a), Codes(b)) == Less
  }

  /** Keys strictly ascending, as a B-tree map keeps them. */
  predicate Sorted(fields: seq<Field>) {
    forall i, j :: 0 <= i < j < |fields| ==> KeyLess(fields[i].key, fields[j].key)
  }

  /** `BTreeMap::get`. */
  function Get(fields: seq<Field>, key: string): Option<Value> {
    if fields == [] then None
    else if fields[0].key == key then Some(fields[0].value)
    else Get(fields[1..], key)
  }

  /** `BTreeMap::insert`. */
  function Put(fields: seq<Field>, key: string, value: Value): seq<Field> {
    if fields == [] then [Field(key, value)]
    else if fields[0].key == key then [Field(key, value)] + fields[1..]
    else if KeyLess(key, fields[0].key) then [Field(key, value)] + fields
    else [fields[0]] + Put(fields[1..], key, value)
  }

  /** `str::split('.')`: the text between the dots, always at least one part. */
  function SplitDots(path: string): (parts: seq<string>)
    ensures |parts| > 0
  {
    if path == "" then [""]
    else
      var rest := SplitDots(path[1..]);
      if path[0] == '.' then [""] + rest else [[path[0]] + rest[0]] + rest[1..]
  }

  function Walk(v: Value, parts: seq<string>): Option<Value>
    decreases |parts|
  {
    if parts == [] then Some(v)
    else if !v.Object? then None
    else match Get(v.fields, parts[0])
      case None => None
      case Some(inner) => Walk(inner, parts[1..])
  }

  predicate IsIdPath(path: string) {
    path == "id" || path == "_id"
  }

  /** `Document::get_path`. */
  function GetPath(doc: Document, path: string): Option<Value> {
    if IsIdPath(path) then None
    else
      var parts := SplitDots(path);
      match Get(doc.fields, parts[0])
      case None => None
      case Some(v) => Walk(v, parts[1..])
  }

  /** `doc.get_path(path).or_else(|| doc.fields.get(path))`, as the evaluator and the indexes read a field. */
  function FieldValue(doc: Document, path: string): Option<Value> {
    var nested := GetPath(doc, path);
    if nested.Some? then nested else Get(doc.fields, path)
  }

  lemma {:induction false} GetPut(fields: seq<Field>, key: string, value: Value, other: string)
    ensures Get(Put(fields, key, value), other) == if other == key then Some(value) else Get(fields, other)
  {
    if fields != [] {
      var p := Put(fields, key, value);
      if fields[0].key == key {
        assert p[1..] == fields[1..];
      } else if KeyLess(key, fields[0].key) {
        assert p[1..] == fields;
      } else {
        GetPut(fields[1..], key, value, other);
        assert p[1..] == Put(fields[1..], key, value);
      }
    }
  }

  lemma {:induction false} SplitPlain(path: string)
    requires '.' !in path
    ensures SplitDots(path) == [path]
  {
    if path != "" {
      SplitPlain(path[1..]);
      assert path == [path[0]] + path[1..];
    }
  }

  /**
   Storing under the literal text of a path is visible through that path exactly when no nested
   value shadows it: always for a plain field, and for a dotted one only if the nested walk does
   not already end somewhere else.
   */
  lemma StoredFieldVisible(doc: Document, path: string, value: Value)
    requires !IsIdPath(path)
    ensures var stored := doc.(fields := Put(doc.fields, path, value));
            FieldValue(stored, path) == Some(value) <==>
            '.' !in path || GetPath(doc, path).None? || GetPath(doc, path) == Some(value)
  {
    var stored := doc.(fields := Put(doc.fields, path, value));
    var head := SplitDots(path)[0];
    GetPut(doc.fields, path, value, head);
    GetPut(doc.fields, path, value, path);
    if '.' !in path {
      SplitPlain(path);
    } else {
      DottedHead(path);
      assert GetPath(stored, path) == GetPath(doc, path);
    }
  }

  lemma {:induction false} DottedHead(path: string)
    requires '.' in path
    ensures |SplitDots(path)[0]| < |path|
  {
    if path[0] != '.' {
      DottedHead(path[1..]);
    }
  }
}

/** The statements of NQL and what the parser (crates/nova-query/src/parser.rs) accepts for them. */
module Statements {
  import opened Core
  import opened Values
  import opened Documents
  import opened DocumentIds
  import opened Indexes
  import opened Ast
  import opened Tokens
  import opened Grammar

  datatype Statement =
    | FindDocs(collection: string, filter: Option<Expr>, sort: Option<SortClause>, limit: Option<nat>, offset: Option<nat>)
    | InsertDoc(collection: string, document: Document)
    | UpdateDocs(collection: string, assignments: seq<Assignment>, filter: Option<Expr>)
    | RemoveDocs(collection: string, filter: Option<Expr>)
    | WatchDocs(collection: string, filter: Option<Expr>)
    | CountDocs(collection: string, filter: Option<Expr>)
    | ExistsDocs(collection: string, filter: Option<Expr>)
    | MakeIndex(collection: string, field: string, indexType: IndexType)
    | DropAnIndex(collection: string, field: string)
    | BeginTx
    | CommitTx
    | RollbackTx

  // ---- clauses ----

  function ParseFilter(ts: seq<Token>): (r: Outcome<Option<Expr>>)
    ensures r.Ok? ==> |r.value.rest| <= |ts|
  {
    if Head(ts) != Word(WHERE) then Ok(Parsed(None, ts))
    else
      var e :- Parse(OR_LEVEL, ts[1..]);
      Ok(Parsed(Some(e.value), e.rest))
  }

  function ParseSort(ts: seq<Token>): (r: Outcome<Option<SortClause>>)
    ensures r.Ok? ==> |r.value.rest| <= |ts|
  {
    if Head(ts) != Word(SORT) then Ok(Parsed(None, ts))
    else
      var path :- ParsePath(ts[1..]);
      if Head(path.rest) == Word(DESC) then Ok(Parsed(Some(SortClause(path.value, Desc)), path.rest[1..]))
      else Ok(Parsed(Some(SortClause(path.value, Asc)), if Head(path.rest) == Word(ASC) then path.rest[1..] else path.rest))
  }

  /** LIMIT and OFFSET: a non-negative integer after the keyword. */
  function ParseSize(word: Keyword, ts: seq<Token>): (r: Outcome<Option<nat>>)
    ensures r.Ok? ==> |r.value.rest| <= |ts|
  {
    if Head(ts) != Word(word) then Ok(Parsed(None, ts))
    else
      var t := Head(ts[1..]);
      if t.IntLit? && t.i >= 0 then Ok(Parsed(Some(t.i as nat), ts[1..][1..])) else Err(ParseError)
  }

  function ParseAssignments(ts: seq<Token>): (r: Outcome<seq<Assignment>>)
    ensures r.Ok? ==> |r.value.rest| < |ts|
    decreases |ts|
  {
    var field :- ParsePath(ts);
    if Head(field.rest) != Sym(EqSign) && Head(field.rest) != Sym(EqEq) then Err(ParseError)
    else
      var e :- Parse(OR_LEVEL, field.rest[1..]);
      var first := Assignment(field.value, e.value);
      if Head(e.rest) != Sym(Comma) then Ok(Parsed([first], e.rest))
      else
        var more :- ParseAssignments(e.rest[1..]);
        Ok(Parsed([first] + more.value, more.rest))
  }

  // ---- the document of an INSERT ----

  /** Fills a new document from the entries of an object: `id` and `_id` name it if they are valid, the rest are fields. */
  function Filled(doc: Document, entries: seq<Field>): Document
    decreases |entries|
  {
    if entries == [] then doc
    else
      var f := entries[0];
      Filled(if !IsIdPath(f.key) then doc.(fields := Put(doc.fields, f.key, f.value)) else Named(doc, f.value), entries[1..])
  }

  function Named(doc: Document, v: Value): Document {
    if v.String? && NewDocumentId(v.s).Ok? then doc.(id := NewDocumentId(v.s).value) else doc
  }

  function ParseInsert(blank: Document, ts: seq<Token>): (r: Outcome<Statement>)
    ensures r.Ok? ==> |r.value.rest| <= |ts|
  {
    var coll :- ExpectIdentifier(if Head(ts) == Word(INTO) then ts[1..] else ts);
    var afterValues :- Expect(Word(VALUES), coll.rest);
    var paren := Head(afterValues) == Sym(LParen);
    var v :- ParseValue(if paren then afterValues[1..] else afterValues);
    var rest :- (if paren then Expect(Sym(RParen), v.rest) else Ok(v.rest));
    if !v.value.Object? then Err(ParseError)
    else Ok(Parsed(InsertDoc(coll.value, Filled(blank, v.value.fields)), rest))
  }

  // ---- statements ----

  function ParseFind(ts: seq<Token>): (r: Outcome<Statement>)
    ensures r.Ok? ==> |r.value.rest| <= |ts|
  {
    var coll :- ExpectIdentifier(ts);
    var filter :- ParseFilter(coll.rest);
    var sort :- ParseSort(filter.rest);
    var limit :- ParseSize(LIMIT, sort.rest);
    var offset :- ParseSize(OFFSET, limit.rest);
    Ok(Parsed(FindDocs(coll.value, filter.value, sort.value, limit.value, offset.value), offset.rest))
  }

  /** The bounds of a parsed FIND come from 64-bit literals, so their sum cannot overflow a 64-bit `usize`. */
  lemma ParsedBoundsFit(ts: seq<Token>)
    requires ParseFind(ts).Ok?
    ensures var stmt := ParseFind(ts).value.value;
            && stmt.FindDocs?
            && (stmt.limit.Some? && stmt.offset.Some? ==> stmt.offset.value + stmt.limit.value < 0x1_0000_0000_0000_0000)
  {
    hide Parse;
    hide ParsePath;
  }

  function ParseUpdate(ts: seq<Token>): (r: Outcome<Statement>)
    ensures r.Ok? ==> |r.value.rest| <= |ts|
  {
    var coll :- ExpectIdentifier(ts);
    var afterSet :- Expect(Word(SET), coll.rest);
    var assignments :- ParseAssignments(afterSet);
    var filter :- ParseFilter(assignments.rest);
    Ok(Parsed(UpdateDocs(coll.value, assignments.value, filter.value), filter.rest))
  }

  /** A collection and an optional filter: REMOVE, WATCH, COUNT and EXISTS. */
  function ParseSelection(ts: seq<Token>): (r: Outcome<(string, Option<Expr>)>)
    ensures r.Ok? ==> |r.value.rest| <= |ts|
  {
    var coll :- ExpectIdentifier(ts);
    var filter :- ParseFilter(coll.rest);
    Ok(Parsed((coll.value, filter.value), filter.rest))
  }

  /** `collection.field` or `collection field`, after INDEX. */
  function ParseTarget(ts: seq<Token>): (r: Outcome<(string, string)>)
    ensures r.Ok? ==> |r.value.rest| <= |ts|
  {
    var afterIndex :- Expect(Word(INDEX), ts);
    var coll :- ExpectIdentifier(afterIndex);
    var field :- (if Head(coll.rest) == Sym(Dot) then ParsePath(coll.rest[1..]) else ExpectIdentifier(coll.rest));
    Ok(Parsed((coll.value, field.value), field.rest))
  }

  function ParseCreate(ts: seq<Token>): (r: Outcome<Statement>)
    ensures r.Ok? ==> |r.value.rest| <= |ts|
  {
    var target :- ParseTarget(ts);
    var (coll, field) := target.value;
    if Head(target.rest) != Word(TYPE) then Ok(Parsed(MakeIndex(coll, field, OrderedType), target.rest))
    else if Head(target.rest[1..]) == Word(HASH) then Ok(Parsed(MakeIndex(coll, field, HashType), target.rest[1..][1..]))
    else if Head(target.rest[1..]) == Word(ORDERED) then Ok(Parsed(MakeIndex(coll, field, OrderedType), target.rest[1..][1..]))
    else Err(ParseError)
  }

  /** The function of each command, after the command word. */
  function ParseCommand(blank: Document, word: Keyword, ts: seq<Token>): (r: Outcome<Statement>)
    ensures r.Ok? ==> |r.value.rest| <= |ts|
  {
    match word
    case FIND => ParseFind(ts)
    case INSERT => ParseInsert(blank, ts)
    case UPDATE => ParseUpdate(ts)
    case REMOVE => (var s :- ParseSelection(ts); Ok(Parsed(RemoveDocs(s.value.0, s.value.1), s.rest)))
    case WATCH => (var s :- ParseSelection(ts); Ok(Parsed(WatchDocs(s.value.0, s.value.1), s.rest)))
    case COUNT => (var s :- ParseSelection(ts); Ok(Parsed(CountDocs(s.value.0, s.value.1), s.rest)))
    case EXISTS => (var s :- ParseSelection(ts); Ok(Parsed(ExistsDocs(s.value.0, s.value.1), s.rest)))
    case CREATE => ParseCreate(ts)
    case DROP => (var t :- ParseTarget(ts); Ok(Parsed(DropAnIndex(t.value.0, t.value.1), t.rest)))
    case BEGIN => Ok(Parsed(BeginTx, ts))
    case COMMIT => Ok(Parsed(CommitTx, ts))
    case ROLLBACK => Ok(Parsed(RollbackTx, ts))
    case _ => Err(ParseError)
  }

  /** `parse_statement`; `blank` is the new document an INSERT starts from. What follows is not looked at. */
  function ParseStatement(blank: Document, ts: seq<Token>): (r: Outcome<Statement>)
    ensures r.Ok? ==> |r.value.rest| < |ts|
  {
    if Head(ts).Word? then ParseCommand(blank, ts[0].word, ts[1..]) else Err(ParseError)
  }
}

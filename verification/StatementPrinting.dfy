/** A printer for NQL statements, and the proof that the parser undoes it. */
module StatementPrinting {
  import opened Core
  import opened Values
  import opened Documents
  import opened FieldLaws
  import opened DocumentIds
  import opened Indexes
  import opened Ast
  import opened Tokens
  import opened Grammar
  import opened Printing
  import opened Statements

  // ---- the printer ----

  function PrintFilter(filter: Option<Expr>): seq<Token> {
    match filter
    case None => []
    case Some(e) => [Word(WHERE)] + Print(OR_LEVEL, e)
  }

  function PrintSort(sort: Option<SortClause>): seq<Token> {
    match sort
    case None => []
    case Some(clause) => [Word(SORT)] + (PrintPath(clause.field) + [Word(if clause.direction == Desc then DESC else ASC)])
  }

  function PrintSize(word: Keyword, size: Option<nat>): seq<Token>
    requires Fits(size)
  {
    match size
    case None => []
    case Some(n) => [Word(word), IntLit(n as i64)]
  }

  predicate Fits(size: Option<nat>) {
    size.Some? ==> size.value < 0x8000_0000_0000_0000
  }

  function PrintAssignments(assignments: seq<Assignment>): seq<Token>
    decreases |assignments|, 1
  {
    if assignments == [] then []
    else
      PrintAssignment(assignments[0], PrintMore(assignments))
  }

  function PrintAssignment(a: Assignment, more: seq<Token>): seq<Token> {
    PrintPath(a.field) + ([Sym(EqSign)] + (Print(OR_LEVEL, a.expr) + more))
  }

  function PrintMore(assignments: seq<Assignment>): seq<Token>
    requires assignments != []
    decreases |assignments|, 0
  {
    if |assignments| == 1 then [] else [Sym(Comma)] + PrintAssignments(assignments[1..])
  }

  /** The object an INSERT needs to make this document: its fields and its id. */
  function ObjectOf(doc: Document): Value {
    Object(Put(doc.fields, "id", String(doc.id)))
  }

  function CommandOf(stmt: Statement): Keyword {
    match stmt
    case FindDocs(_, _, _, _, _) => FIND
    case InsertDoc(_, _) => INSERT
    case UpdateDocs(_, _, _) => UPDATE
    case RemoveDocs(_, _) => REMOVE
    case WatchDocs(_, _) => WATCH
    case CountDocs(_, _) => COUNT
    case ExistsDocs(_, _) => EXISTS
    case MakeIndex(_, _, _) => CREATE
    case DropAnIndex(_, _) => DROP
    case BeginTx => BEGIN
    case CommitTx => COMMIT
    case RollbackTx => ROLLBACK
  }

  function PrintTarget(coll: string, field: string): seq<Token> {
    [Word(INDEX), Ident(coll), Sym(Dot)] + PrintPath(field)
  }

  function PrintType(indexType: IndexType): seq<Token> {
    [Word(TYPE), Word(if indexType.HashType? then HASH else ORDERED)]
  }

  /** What follows the command word. */
  function Arguments(stmt: Statement): seq<Token>
    requires WellFormed(stmt)
  {
    match stmt
    case FindDocs(coll, filter, sort, limit, offset) =>
      [Ident(coll)] + (PrintFilter(filter) + (PrintSort(sort) + (PrintSize(LIMIT, limit) + PrintSize(OFFSET, offset))))
    case InsertDoc(coll, doc) => [Word(INTO), Ident(coll), Word(VALUES)] + PrintValue(ObjectOf(doc))
    case UpdateDocs(coll, assignments, filter) => [Ident(coll), Word(SET)] + (PrintAssignments(assignments) + PrintFilter(filter))
    case RemoveDocs(coll, filter) => [Ident(coll)] + PrintFilter(filter)
    case WatchDocs(coll, filter) => [Ident(coll)] + PrintFilter(filter)
    case CountDocs(coll, filter) => [Ident(coll)] + PrintFilter(filter)
    case ExistsDocs(coll, filter) => [Ident(coll)] + PrintFilter(filter)
    case MakeIndex(coll, field, indexType) => PrintTarget(coll, field) + PrintType(indexType)
    case DropAnIndex(coll, field) => PrintTarget(coll, field)
    case _ => []
  }

  function PrintStatement(stmt: Statement): seq<Token>
    requires WellFormed(stmt)
  {
    [Word(CommandOf(stmt))] + Arguments(stmt)
  }

  predicate ExpressibleFilter(filter: Option<Expr>) {
    filter.Some? ==> Expressible(filter.value)
  }

  predicate NoIdKeys(fields: seq<Field>) {
    forall i :: 0 <= i < |fields| ==> !IsIdPath(fields[i].key)
  }

  /** The statements that can be written down. */
  predicate WellFormed(stmt: Statement) {
    match stmt
    case FindDocs(_, filter, _, limit, offset) => ExpressibleFilter(filter) && Fits(limit) && Fits(offset)
    case InsertDoc(_, doc) => Sorted(doc.fields) && AllFieldsWritable(doc.fields) && NoIdKeys(doc.fields)
    case UpdateDocs(_, assignments, filter) =>
      ExpressibleFilter(filter) && assignments != [] && forall i :: 0 <= i < |assignments| ==> Expressible(assignments[i].expr)
    case MakeIndex(_, _, indexType) => indexType != PrimaryKeyType
    case RemoveDocs(_, filter) => ExpressibleFilter(filter)
    case WatchDocs(_, filter) => ExpressibleFilter(filter)
    case CountDocs(_, filter) => ExpressibleFilter(filter)
    case ExistsDocs(_, filter) => ExpressibleFilter(filter)
    case _ => true
  }

  /** An INSERT can only make documents that differ from the new one in id and fields. */
  predicate Startable(blank: Document, stmt: Statement) {
    blank.fields == [] && (stmt.InsertDoc? ==> stmt.document == blank.(id := stmt.document.id, fields := stmt.document.fields))
  }

  /** Tokens that cannot continue any statement; `Eof` is one. */
  predicate EndsStatement(t: Token) {
    && Stops(OR_LEVEL, t)
    && t !in {Word(WHERE), Word(SORT), Word(LIMIT), Word(OFFSET), Word(ASC), Word(DESC), Word(TYPE), Sym(Comma)}
  }

  // ---- the document of an INSERT ----

  function WithoutIds(fields: seq<Field>): seq<Field> {
    if fields == [] then []
    else if IsIdPath(fields[0].key) then WithoutIds(fields[1..])
    else [fields[0]] + WithoutIds(fields[1..])
  }

  lemma {:induction false} WithoutNone(fields: seq<Field>)
    requires NoIdKeys(fields)
    ensures WithoutIds(fields) == fields
  {
    if fields != [] {
      WithoutNone(fields[1..]);
    }
  }

  /** Filling puts the fields behind those already there. */
  lemma {:induction false} FilledFields(doc: Document, entries: seq<Field>)
    requires Sorted(doc.fields + WithoutIds(entries))
    ensures Filled(doc, entries) == doc.(id := Filled(doc, entries).id, fields := doc.fields + WithoutIds(entries))
    decreases |entries|
  {
    hide KeyLess;
    hide IsDocumentId;
    if entries != [] {
      var f := entries[0];
      if IsIdPath(f.key) {
        FilledFields(Named(doc, f.value), entries[1..]);
      } else {
        var all := doc.fields + WithoutIds(entries);
        forall i | 0 <= i < |doc.fields| ensures KeyLess(doc.fields[i].key, f.key) {
          assert all[i] == doc.fields[i] && all[|doc.fields|] == f;
        }
        PutLast(doc.fields, f.key, f.value);
        assert doc.fields + WithoutIds(entries) == (doc.fields + [f]) + WithoutIds(entries[1..]);
        FilledFields(doc.(fields := Put(doc.fields, f.key, f.value)), entries[1..]);
      }
    }
  }

  lemma {:induction false} FilledKeepsId(doc: Document, entries: seq<Field>)
    requires NoIdKeys(entries)
    ensures Filled(doc, entries).id == doc.id
    decreases |entries|
  {
    if entries != [] {
      FilledKeepsId(doc.(fields := Put(doc.fields, entries[0].key, entries[0].value)), entries[1..]);
    }
  }

  /** The entry under `id` names the document, wherever in the order it stands. */
  lemma {:induction false} FilledNamed(doc: Document, fields: seq<Field>, id: DocumentId)
    requires NoIdKeys(fields)
    ensures WithoutIds(Put(fields, "id", String(id))) == fields
    ensures Filled(doc, Put(fields, "id", String(id))).id == id
    decreases |fields|
  {
    hide IsDocumentId;
    hide KeyLess;
    var entries := Put(fields, "id", String(id));
    assert Named(doc, String(id)).id == id;
    WithoutNone(fields);
    if fields == [] || KeyLess("id", fields[0].key) {
      assert entries == [Field("id", String(id))] + fields;
      assert entries[1..] == fields;
      FilledKeepsId(Named(doc, String(id)), fields);
    } else {
      var f := fields[0];
      assert entries[1..] == Put(fields[1..], "id", String(id));
      FilledNamed(doc.(fields := Put(doc.fields, f.key, f.value)), fields[1..], id);
    }
  }

  lemma InsertedDocument(blank: Document, doc: Document)
    requires blank.fields == [] && doc == blank.(id := doc.id, fields := doc.fields)
    requires Sorted(doc.fields) && AllFieldsWritable(doc.fields) && NoIdKeys(doc.fields)
    ensures Writable(ObjectOf(doc)) && Filled(blank, ObjectOf(doc).fields) == doc
  {
    hide IsDocumentId;
    hide KeyLess;
    PutSorted(doc.fields, "id", String(doc.id));
    PutWritable(doc.fields, "id", String(doc.id));
    FilledNamed(blank, doc.fields, doc.id);
    assert [] + doc.fields == doc.fields;
    FilledFields(blank, ObjectOf(doc).fields);
  }

  // ---- clauses ----

  lemma Assoc3<T>(a: seq<T>, b: seq<T>, s: seq<T>)
    ensures (a + b) + s == a + (b + s)
  {
  }

  lemma Assoc4<T>(a: seq<T>, b: seq<T>, c: seq<T>, s: seq<T>)
    ensures (a + (b + c)) + s == a + (b + (c + s))
  {
  }

  lemma Assoc5<T>(a: seq<T>, b: seq<T>, c: seq<T>, d: seq<T>, s: seq<T>)
    ensures (a + (b + (c + d))) + s == a + (b + (c + (d + s)))
  {
  }

  lemma FilterUndone(filter: Option<Expr>, s: seq<Token>)
    requires ExpressibleFilter(filter) && Stops(OR_LEVEL, Head(s)) && Head(s) != Word(WHERE)
    ensures ParseFilter(PrintFilter(filter) + s) == Ok(Parsed(filter, s))
    ensures Head(PrintFilter(filter) + s) == if filter.Some? then Word(WHERE) else Head(s)
  {
    hide Parse;
    hide Print;
    if filter.Some? {
      Undone(OR_LEVEL, filter.value, s);
      assert (PrintFilter(filter) + s)[1..] == Print(OR_LEVEL, filter.value) + s;
    } else {
      assert PrintFilter(filter) + s == s;
    }
  }

  lemma SortUndone(sort: Option<SortClause>, s: seq<Token>)
    requires Head(s) !in {Word(SORT), Word(ASC), Word(DESC)}
    ensures ParseSort(PrintSort(sort) + s) == Ok(Parsed(sort, s))
    ensures Head(PrintSort(sort) + s) == if sort.Some? then Word(SORT) else Head(s)
  {
    hide ParsePath;
    hide PrintPath;
    if sort.Some? {
      var tail := [Word(if sort.value.direction == Desc then DESC else ASC)] + s;
      PathUndone(sort.value.field, tail);
      assert (PrintSort(sort) + s)[1..] == PrintPath(sort.value.field) + tail;
      assert tail[1..] == s;
    } else {
      assert PrintSort(sort) + s == s;
    }
  }

  lemma SizeUndone(word: Keyword, size: Option<nat>, s: seq<Token>)
    requires Fits(size) && Head(s) != Word(word)
    ensures ParseSize(word, PrintSize(word, size) + s) == Ok(Parsed(size, s))
    ensures Head(PrintSize(word, size) + s) == if size.Some? then Word(word) else Head(s)
  {
    var ts := PrintSize(word, size) + s;
    if size.Some? {
      assert ts[1..] == [IntLit(size.value as i64)] + s;
      assert ts[1..][1..] == s;
    } else {
      assert ts == s;
    }
  }

  /** Reading one assignment. */
  lemma AssignmentRead(path: seq<Token>, expr: seq<Token>, a: Assignment, tail: seq<Token>)
    requires var afterPath := [Sym(EqSign)] + (expr + tail); ParsePath(path + afterPath) == Ok(Parsed(a.field, afterPath))
    requires Parse(OR_LEVEL, expr + tail) == Ok(Parsed(a.expr, tail))
    ensures var r := ParseAssignments(path + ([Sym(EqSign)] + (expr + tail)));
            if Head(tail) != Sym(Comma) then r == Ok(Parsed([a], tail))
            else
              var more := ParseAssignments(tail[1..]);
              more.Ok? ==> r == Ok(Parsed([a] + more.value.value, more.value.rest))
  {
    hide ParsePath;
    hide Parse;
    var afterPath := [Sym(EqSign)] + (expr + tail);
    assert afterPath[1..] == expr + tail;
  }

  lemma AssignmentUndone(a: Assignment, more: seq<Token>, s: seq<Token>)
    requires Expressible(a.expr) && Stops(OR_LEVEL, Head(more + s))
    ensures Head(more + s) != Sym(Comma) ==> ParseAssignments(PrintAssignment(a, more) + s) == Ok(Parsed([a], more + s))
    ensures Head(more + s) == Sym(Comma) && ParseAssignments((more + s)[1..]).Ok? ==>
              var rest := ParseAssignments((more + s)[1..]).value;
              ParseAssignments(PrintAssignment(a, more) + s) == Ok(Parsed([a] + rest.value, rest.rest))
  {
    hide Parse;
    hide Print;
    hide PrintPath;
    hide ParsePath;
    hide Expressible;
    hide ParseAssignments;
    var tail := more + s;
    var afterPath := [Sym(EqSign)] + (Print(OR_LEVEL, a.expr) + tail);
    Assoc5(PrintPath(a.field), [Sym(EqSign)], Print(OR_LEVEL, a.expr), more, s);
    PathUndone(a.field, afterPath);
    Undone(OR_LEVEL, a.expr, tail);
    hide Stops;
    AssignmentRead(PrintPath(a.field), Print(OR_LEVEL, a.expr), a, tail);
  }

  lemma {:induction false} AssignmentsUndone(assignments: seq<Assignment>, s: seq<Token>)
    requires assignments != [] && forall i :: 0 <= i < |assignments| ==> Expressible(assignments[i].expr)
    requires Stops(OR_LEVEL, Head(s)) && Head(s) != Sym(Comma)
    ensures ParseAssignments(PrintAssignments(assignments) + s) == Ok(Parsed(assignments, s))
    decreases |assignments|
  {
    hide PrintAssignment;
    hide Expressible;
    hide ParseAssignments;
    assert Stops(OR_LEVEL, Sym(Comma));
    hide Stops;
    var (first, more) := (assignments[0], PrintMore(assignments));
    if |assignments| == 1 {
      assert more + s == s && assignments == [first];
      AssignmentUndone(first, more, s);
    } else {
      assert Head(more + s) == Sym(Comma);
      assert (more + s)[1..] == PrintAssignments(assignments[1..]) + s;
      AssignmentUndone(first, more, s);
      AssignmentsUndone(assignments[1..], s);
      assert assignments == [first] + assignments[1..];
    }
  }

  lemma SelectionUndone(coll: string, filter: Option<Expr>, s: seq<Token>)
    requires ExpressibleFilter(filter) && EndsStatement(Head(s))
    ensures ParseSelection([Ident(coll)] + PrintFilter(filter) + s) == Ok(Parsed((coll, filter), s))
  {
    hide PrintFilter;
    hide ParseFilter;
    Assoc3([Ident(coll)], PrintFilter(filter), s);
    assert ([Ident(coll)] + (PrintFilter(filter) + s))[1..] == PrintFilter(filter) + s;
    FilterUndone(filter, s);
  }

  lemma TargetUndone(coll: string, field: string, s: seq<Token>)
    requires Head(s) != Sym(Dot)
    ensures ParseTarget(PrintTarget(coll, field) + s) == Ok(Parsed((coll, field), s))
  {
    hide PrintPath;
    hide ParsePath;
    var ts := [Word(INDEX), Ident(coll), Sym(Dot)] + (PrintPath(field) + s);
    Assoc3([Word(INDEX), Ident(coll), Sym(Dot)], PrintPath(field), s);
    assert ts[1..] == [Ident(coll), Sym(Dot)] + (PrintPath(field) + s);
    assert ts[1..][1..] == [Sym(Dot)] + (PrintPath(field) + s);
    assert ts[1..][1..][1..] == PrintPath(field) + s;
    PathUndone(field, s);
  }

  lemma EndIsNoDot(t: Token)
    requires EndsStatement(t)
    ensures t != Sym(Dot)
  {
  }

  // ---- statements ----

  lemma FindRead(coll: string, filter: Option<Expr>, sort: Option<SortClause>, limit: Option<nat>, offset: Option<nat>, s: seq<Token>)
    requires ExpressibleFilter(filter) && Fits(limit) && Fits(offset) && EndsStatement(Head(s))
    ensures var ts := [Ident(coll)] + (PrintFilter(filter) + (PrintSort(sort) + (PrintSize(LIMIT, limit) + (PrintSize(OFFSET, offset) + s))));
            ParseFind(ts) == Ok(Parsed(FindDocs(coll, filter, sort, limit, offset), s))
  {
    hide PrintFilter;
    hide PrintSort;
    hide PrintSize;
    hide ParseFilter;
    hide ParseSort;
    hide ParseSize;
    var afterLimit := PrintSize(OFFSET, offset) + s;
    var afterSort := PrintSize(LIMIT, limit) + afterLimit;
    var afterFilter := PrintSort(sort) + afterSort;
    var ts := [Ident(coll)] + (PrintFilter(filter) + afterFilter);
    assert ts[1..] == PrintFilter(filter) + afterFilter;
    SizeUndone(OFFSET, offset, s);
    SizeUndone(LIMIT, limit, afterLimit);
    SortUndone(sort, afterSort);
    FilterUndone(filter, afterFilter);
  }

  lemma FindUndone(stmt: Statement, s: seq<Token>)
    requires stmt.FindDocs? && WellFormed(stmt) && EndsStatement(Head(s))
    ensures ParseFind(Arguments(stmt) + s) == Ok(Parsed(stmt, s))
  {
    var FindDocs(coll, filter, sort, limit, offset) := stmt;
    FindRead(coll, filter, sort, limit, offset, s);
    hide ParseFind;
    hide PrintFilter;
    hide PrintSort;
    hide PrintSize;
    hide Expressible;
    hide EndsStatement;
    Assoc5(PrintFilter(filter), PrintSort(sort), PrintSize(LIMIT, limit), PrintSize(OFFSET, offset), s);
    Assoc3([Ident(coll)], PrintFilter(filter) + (PrintSort(sort) + (PrintSize(LIMIT, limit) + PrintSize(OFFSET, offset))), s);
  }

  lemma InsertUndone(blank: Document, stmt: Statement, s: seq<Token>)
    requires stmt.InsertDoc? && Startable(blank, stmt) && WellFormed(stmt)
    ensures ParseInsert(blank, Arguments(stmt) + s) == Ok(Parsed(stmt, s))
  {
    hide IsDocumentId;
    hide AllFieldsWritable;
    hide NoIdKeys;
    hide Sorted;
    var InsertDoc(coll, doc) := stmt;
    InsertedDocument(blank, doc);
    ValueUndone(ObjectOf(doc), s);
    ObjectStart(doc, s);
    hide PrintValue;
    hide ParseValue;
    hide Writable;
    hide Filled;
    Assoc3([Word(INTO), Ident(coll), Word(VALUES)], PrintValue(ObjectOf(doc)), s);
    var ts := [Word(INTO), Ident(coll), Word(VALUES)] + (PrintValue(ObjectOf(doc)) + s);
    assert ts[1..] == [Ident(coll), Word(VALUES)] + (PrintValue(ObjectOf(doc)) + s);
    assert ts[1..][1..] == [Word(VALUES)] + (PrintValue(ObjectOf(doc)) + s);
    assert ts[1..][1..][1..] == PrintValue(ObjectOf(doc)) + s;
  }

  lemma ObjectStart(doc: Document, s: seq<Token>)
    ensures Head(PrintValue(ObjectOf(doc)) + s) == Sym(LBrace)
  {
    hide Put;
  }

  lemma UpdateUndone(stmt: Statement, s: seq<Token>)
    requires stmt.UpdateDocs? && WellFormed(stmt) && EndsStatement(Head(s))
    ensures ParseUpdate(Arguments(stmt) + s) == Ok(Parsed(stmt, s))
  {
    hide Expressible;
    hide PrintFilter;
    hide ParseFilter;
    hide PrintAssignments;
    hide ParseAssignments;
    var UpdateDocs(coll, assignments, filter) := stmt;
    Assoc4([Ident(coll), Word(SET)], PrintAssignments(assignments), PrintFilter(filter), s);
    var afterSet := PrintAssignments(assignments) + (PrintFilter(filter) + s);
    var ts := [Ident(coll), Word(SET)] + afterSet;
    assert ts[1..] == [Word(SET)] + afterSet;
    assert ts[1..][1..] == afterSet;
    FilterUndone(filter, s);
    AssignmentsUndone(assignments, PrintFilter(filter) + s);
  }

  lemma CreateUndone(stmt: Statement, s: seq<Token>)
    requires stmt.MakeIndex? && WellFormed(stmt)
    ensures ParseCreate(Arguments(stmt) + s) == Ok(Parsed(stmt, s))
  {
    hide PrintTarget;
    hide ParseTarget;
    var MakeIndex(coll, field, indexType) := stmt;
    var tail := PrintType(indexType) + s;
    Assoc3(PrintTarget(coll, field), PrintType(indexType), s);
    TargetUndone(coll, field, tail);
    assert tail[1..] == [PrintType(indexType)[1]] + s;
    assert tail[1..][1..] == s;
  }

  lemma OthersUndone(stmt: Statement, s: seq<Token>)
    requires WellFormed(stmt) && EndsStatement(Head(s))
    ensures stmt.DropAnIndex? ==> ParseTarget(Arguments(stmt) + s) == Ok(Parsed((stmt.collection, stmt.field), s))
    ensures stmt.RemoveDocs? || stmt.WatchDocs? || stmt.CountDocs? || stmt.ExistsDocs? ==>
              ParseSelection(Arguments(stmt) + s) == Ok(Parsed((stmt.collection, stmt.filter), s))
    ensures stmt.BeginTx? || stmt.CommitTx? || stmt.RollbackTx? ==> Arguments(stmt) + s == s
  {
    hide PrintTarget;
    hide PrintFilter;
    hide ParseTarget;
    hide ParseSelection;
    hide Expressible;
    EndIsNoDot(Head(s));
    hide EndsStatement;
    if stmt.DropAnIndex? {
      TargetUndone(stmt.collection, stmt.field, s);
    } else if stmt.RemoveDocs? || stmt.WatchDocs? || stmt.CountDocs? || stmt.ExistsDocs? {
      SelectionUndone(stmt.collection, stmt.filter, s);
    }
  }

  predicate HasOwnParser(stmt: Statement) {
    stmt.FindDocs? || stmt.InsertDoc? || stmt.UpdateDocs? || stmt.MakeIndex?
  }

  lemma ArgumentsUndone(blank: Document, stmt: Statement, s: seq<Token>)
    requires WellFormed(stmt) && Startable(blank, stmt) && EndsStatement(Head(s)) && HasOwnParser(stmt)
    ensures ParseCommand(blank, CommandOf(stmt), Arguments(stmt) + s) == Ok(Parsed(stmt, s))
  {
    hide IsDocumentId;
    hide ParseFind;
    hide ParseInsert;
    hide ParseUpdate;
    hide ParseSelection;
    hide ParseTarget;
    hide ParseCreate;
    hide Startable;
    hide EndsStatement;
    hide Arguments;
    hide WellFormed;
    if stmt.FindDocs? {
      FindUndone(stmt, s);
    } else if stmt.InsertDoc? {
      InsertUndone(blank, stmt, s);
    } else if stmt.UpdateDocs? {
      UpdateUndone(stmt, s);
    } else {
      CreateUndone(stmt, s);
    }
  }

  lemma SelectionCommand(blank: Document, args: seq<Token>, coll: string, filter: Option<Expr>, s: seq<Token>)
    requires ParseSelection(args) == Ok(Parsed((coll, filter), s))
    ensures ParseCommand(blank, REMOVE, args) == Ok(Parsed(RemoveDocs(coll, filter), s))
    ensures ParseCommand(blank, WATCH, args) == Ok(Parsed(WatchDocs(coll, filter), s))
    ensures ParseCommand(blank, COUNT, args) == Ok(Parsed(CountDocs(coll, filter), s))
    ensures ParseCommand(blank, EXISTS, args) == Ok(Parsed(ExistsDocs(coll, filter), s))
  {
    hide ParseSelection;
  }

  lemma ShortCommand(blank: Document, args: seq<Token>, s: seq<Token>)
    ensures ParseCommand(blank, BEGIN, s) == Ok(Parsed(BeginTx, s))
    ensures ParseCommand(blank, COMMIT, s) == Ok(Parsed(CommitTx, s))
    ensures ParseCommand(blank, ROLLBACK, s) == Ok(Parsed(RollbackTx, s))
    ensures ParseTarget(args).Ok? ==>
              ParseCommand(blank, DROP, args)
              == Ok(Parsed(DropAnIndex(ParseTarget(args).value.value.0, ParseTarget(args).value.value.1), ParseTarget(args).value.rest))
  {
    hide ParseTarget;
  }

  lemma ShortArgumentsUndone(blank: Document, stmt: Statement, s: seq<Token>)
    requires WellFormed(stmt) && EndsStatement(Head(s)) && !HasOwnParser(stmt)
    ensures ParseCommand(blank, CommandOf(stmt), Arguments(stmt) + s) == Ok(Parsed(stmt, s))
  {
    hide IsDocumentId;
    hide ParseCommand;
    hide ParseSelection;
    hide ParseTarget;
    hide EndsStatement;
    hide Arguments;
    hide WellFormed;
    OthersUndone(stmt, s);
    ShortCommand(blank, Arguments(stmt) + s, s);
    if stmt.RemoveDocs? || stmt.WatchDocs? || stmt.CountDocs? || stmt.ExistsDocs? {
      SelectionCommand(blank, Arguments(stmt) + s, stmt.collection, stmt.filter, s);
    }
  }

  lemma CommandRead(blank: Document, word: Keyword, args: seq<Token>)
    ensures ParseStatement(blank, [Word(word)] + args) == ParseCommand(blank, word, args)
  {
    hide ParseCommand;
    assert ([Word(word)] + args)[1..] == args;
  }

  /** The parser undoes the statement printer, and stops at whatever cannot continue a statement. */
  lemma StatementUndone(blank: Document, stmt: Statement, s: seq<Token>)
    requires WellFormed(stmt) && Startable(blank, stmt) && EndsStatement(Head(s))
    ensures ParseStatement(blank, PrintStatement(stmt) + s) == Ok(Parsed(stmt, s))
  {
    hide IsDocumentId;
    hide CommandOf;
    hide ParseCommand;
    hide ParseStatement;
    hide Startable;
    hide EndsStatement;
    hide Arguments;
    hide WellFormed;
    Assoc3([Word(CommandOf(stmt))], Arguments(stmt), s);
    CommandRead(blank, CommandOf(stmt), Arguments(stmt) + s);
    hide HasOwnParser;
    if HasOwnParser(stmt) { ArgumentsUndone(blank, stmt, s); } else { ShortArgumentsUndone(blank, stmt, s); }
  }
}

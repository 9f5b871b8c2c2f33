/**
 The NQL parser as it runs (crates/nova-query/src/parser.rs): a cursor over the tokens. Each method is
 proved to return what the grammar function of `Grammar` or `Statements` says, to leave the cursor where
 that function says, and to terminate, for every token list that ends in `Eof`.
 */
module Parsers {
  import opened Core
  import opened Values
  import opened Documents
  import opened DocumentIds
  import opened Indexes
  import opened Ast
  import opened Tokens
  import opened Grammar
  import opened Statements

  /** The method's result and the tokens it leaves are those of the grammar function. */
  ghost predicate Follows<T>(res: Result<T>, rest: seq<Token>, spec: Outcome<T>) {
    match spec
    case Ok(p) => res == Ok(p.value) && rest == p.rest
    case Err(code) => res == Err(code)
  }

  class Parser {
    const tokens: seq<Token>
    var cursor: nat

    ghost predicate Valid()
      reads this
    {
      cursor < |tokens| && tokens[|tokens| - 1] == Eof
    }

    ghost function Rest(): seq<Token>
      reads this
      requires Valid()
    {
      tokens[cursor..]
    }

    constructor (tokens: seq<Token>)
      requires tokens != [] && tokens[|tokens| - 1] == Eof
      ensures Valid() && Rest() == tokens
    {
      this.tokens := tokens;
      cursor := 0;
    }

    // ---- cursor helpers ----

    method Peek() returns (t: Token)
      requires Valid()
      ensures t == Head(Rest())
    {
      t := tokens[cursor];
    }

    /** The last token is never left. */
    method Advance() returns (t: Token)
      requires Valid()
      modifies this
      ensures Valid() && t == Head(old(Rest()))
      ensures t == Eof || Rest() == old(Rest())[1..]
    {
      t := tokens[cursor];
      if cursor < |tokens| - 1 {
        cursor := cursor + 1;
      }
    }

    method Check(t: Token) returns (same: bool)
      requires Valid()
      ensures same == (Head(Rest()) == t)
    {
      same := tokens[cursor] == t;
    }

    method MatchToken(t: Token) returns (matched: bool)
      requires Valid() && t != Eof
      modifies this
      ensures Valid() && matched == (Head(old(Rest())) == t)
      ensures Rest() == if matched then old(Rest())[1..] else old(Rest())
    {
      matched := Check(t);
      if matched { var _ := Advance(); }
    }

    method MatchEither(a: Token, b: Token) returns (matched: bool)
      requires Valid() && a != Eof && b != Eof
      modifies this
      ensures Valid() && matched == (Head(old(Rest())) == a || Head(old(Rest())) == b)
      ensures Rest() == if matched then old(Rest())[1..] else old(Rest())
    {
      matched := MatchToken(a);
      if !matched { matched := MatchToken(b); }
    }

    method ExpectToken(t: Token) returns (res: Result<()>)
      requires Valid() && t != Eof
      modifies this
      ensures Valid()
      ensures match Expect(t, old(Rest())) case Ok(rest) => res == Ok(()) && Rest() == rest case Err(code) => res == Err(code)
    {
      var matched := MatchToken(t);
      return if matched then Ok(()) else Err(ParseError);
    }

    method TakeIdentifier() returns (res: Result<string>)
      requires Valid()
      modifies this
      ensures Valid() && Follows(res, Rest(), ExpectIdentifier(old(Rest())))
    {
      var t := Peek();
      if !t.Ident? { return Err(ParseError); }
      var _ := Advance();
      return Ok(t.name);
    }

    // ---- field paths ----

    method ParseFieldPath() returns (res: Result<string>)
      requires Valid()
      modifies this
      ensures Valid() && Follows(res, Rest(), ParsePath(old(Rest())))
    {
      var path :- TakeIdentifier();
      var dot := MatchToken(Sym(Dot));
      while dot
        invariant Valid()
        invariant ParsePath(old(Rest())) == if dot then PathAfterDot(path, Rest()) else Ok(Parsed(path, Rest()))
        decreases |Rest()|
      {
        var sub :- TakeIdentifier();
        path := path + "." + sub;
        dot := MatchToken(Sym(Dot));
      }
      return Ok(path);
    }

    // ---- value literals ----

    method ParseValueLiteral() returns (res: Result<Value>)
      requires Valid()
      modifies this
      ensures Valid() && Follows(res, Rest(), ParseValue(old(Rest())))
      decreases |Rest()|, 0
    {
      var t := Peek();
      if Scalar(t).Some? {
        var _ := Advance();
        return Ok(Scalar(t).value);
      }
      if t == Sym(LBracket) {
        var _ := Advance();
        var list: seq<Value> := [];
        var closing := Check(Sym(RBracket));
        if !closing {
          list :- ParseValueList();
        }
        var _ :- ExpectToken(Sym(RBracket));
        return Ok(Array(list));
      }
      if t == Sym(LBrace) {
        var _ := Advance();
        var fields: seq<Field> := [];
        var closing := Check(Sym(RBrace));
        if !closing {
          fields :- ParseFieldList();
        }
        var _ :- ExpectToken(Sym(RBrace));
        return Ok(Object(fields));
      }
      return Err(ParseError);
    }

    /** The item loop of an array. */
    method ParseValueList() returns (res: Result<seq<Value>>)
      requires Valid()
      modifies this
      ensures Valid() && Follows(res, Rest(), ParseValues(old(Rest())))
      decreases |Rest()|, 1
    {
      var list: seq<Value> := [];
      var more := true;
      PrependedNone(ParseValues(Rest()));
      while more
        invariant Valid() && |Rest()| <= |old(Rest())|
        invariant more ==> ParseValues(old(Rest())) == Prepended(list, ParseValues(Rest()))
        invariant !more ==> ParseValues(old(Rest())) == Ok(Parsed(list, Rest()))
        decreases more, |Rest()|
      {
        var v :- ParseValueLiteral();
        PrependedOne(list, v, ParseValues(if Head(Rest()) == Sym(Comma) then Rest()[1..] else []), Rest());
        list := list + [v];
        more := MatchToken(Sym(Comma));
      }
      return Ok(list);
    }

    /** The entry loop of an object: keys are strings or identifiers, a later entry replaces an earlier one. */
    method ParseFieldList() returns (res: Result<seq<Field>>)
      requires Valid()
      modifies this
      ensures Valid() && Follows(res, Rest(), ParseFields([], old(Rest())))
      decreases |Rest()|, 1
    {
      var fields: seq<Field> := [];
      var more := true;
      while more
        invariant Valid() && |Rest()| <= |old(Rest())|
        invariant ParseFields([], old(Rest())) == if more then ParseFields(fields, Rest()) else Ok(Parsed(fields, Rest()))
        decreases more, |Rest()|
      {
        var t := Peek();
        var key := KeyOf(t);
        if key.None? { return Err(ParseError); }
        var _ := Advance();
        var _ :- ExpectToken(Sym(Colon));
        var v :- ParseValueLiteral();
        fields := Put(fields, key.value, v);
        more := MatchToken(Sym(Comma));
      }
      return Ok(fields);
    }

    // ---- expressions ----

    method ParseExpr() returns (res: Result<Expr>)
      requires Valid()
      modifies this
      ensures Valid() && Follows(res, Rest(), Parse(OR_LEVEL, old(Rest())))
      decreases |Rest()|, 8
    {
      res := ParseOr();
    }

    method ParseOr() returns (res: Result<Expr>)
      requires Valid()
      modifies this
      ensures Valid() && Follows(res, Rest(), Parse(OR_LEVEL, old(Rest())))
      decreases |Rest()|, 7
    {
      LevelStart(OR_LEVEL, Rest());
      hide Parse;
      hide ParseLoop;
      hide OperatorAt;
      var left :- ParseAnd();
      var more := true;
      while more
        invariant Valid() && |Rest()| < |old(Rest())|
        invariant Parse(OR_LEVEL, old(Rest())) == if more then ParseLoop(OR_LEVEL, left, Rest()) else Ok(Parsed(left, Rest()))
        decreases more, |Rest()|
      {
        Operators(Head(Rest()));
        LoopRound(OR_LEVEL, left, Rest());
        more := MatchEither(Word(OR), Sym(PipePipe));
        if more {
          var right :- ParseAnd();
          left := Binary(Or, left, right);
        }
      }
      return Ok(left);
    }

    method ParseAnd() returns (res: Result<Expr>)
      requires Valid()
      modifies this
      ensures Valid() && Follows(res, Rest(), Parse(AND_LEVEL, old(Rest())))
      decreases |Rest()|, 6
    {
      LevelStart(AND_LEVEL, Rest());
      hide Parse;
      hide ParseLoop;
      hide OperatorAt;
      var left :- ParseComparison();
      var more := true;
      while more
        invariant Valid() && |Rest()| < |old(Rest())|
        invariant Parse(AND_LEVEL, old(Rest())) == if more then ParseLoop(AND_LEVEL, left, Rest()) else Ok(Parsed(left, Rest()))
        decreases more, |Rest()|
      {
        Operators(Head(Rest()));
        LoopRound(AND_LEVEL, left, Rest());
        more := MatchEither(Word(AND), Sym(AmpAmp));
        if more {
          var right :- ParseComparison();
          left := Binary(And, left, right);
        }
      }
      return Ok(left);
    }

    method ParseComparison() returns (res: Result<Expr>)
      requires Valid()
      modifies this
      ensures Valid() && Follows(res, Rest(), Parse(COMPARE_LEVEL, old(Rest())))
      decreases |Rest()|, 5
    {
      CompareStart(Rest());
      hide Parse;
      hide Comparison;
      var left :- ParseAdditive();
      var t := Peek();
      if Comparison(t).Some? {
        var _ := Advance();
        var right :- ParseAdditive();
        return Ok(Binary(Comparison(t).value, left, right));
      }
      var between := MatchToken(Word(BETWEEN));
      if between {
        var min :- ParseAdditive();
        var _ :- ExpectToken(Word(AND));
        var max :- ParseAdditive();
        return Ok(Between(left, min, max));
      }
      var isIn := MatchToken(Word(IN));
      if isIn {
        var _ :- ExpectToken(Sym(LParen));
        var list: seq<Expr> := [];
        var closing := Check(Sym(RParen));
        if !closing {
          list :- ParseExprList();
        }
        var _ :- ExpectToken(Sym(RParen));
        return Ok(In(left, list));
      }
      return Ok(left);
    }

    /** The item loop of an IN list. */
    method ParseExprList() returns (res: Result<seq<Expr>>)
      requires Valid()
      modifies this
      ensures Valid() && Follows(res, Rest(), ParseItems(old(Rest())))
      decreases |Rest()|, 9
    {
      var list: seq<Expr> := [];
      var more := true;
      PrependedNone(ParseItems(Rest()));
      while more
        invariant Valid() && |Rest()| <= |old(Rest())|
        invariant more ==> ParseItems(old(Rest())) == Prepended(list, ParseItems(Rest()))
        invariant !more ==> ParseItems(old(Rest())) == Ok(Parsed(list, Rest()))
        decreases more, |Rest()|
      {
        var e :- ParseExpr();
        PrependedOne(list, e, ParseItems(if Head(Rest()) == Sym(Comma) then Rest()[1..] else []), Rest());
        list := list + [e];
        more := MatchToken(Sym(Comma));
      }
      return Ok(list);
    }

    method ParseAdditive() returns (res: Result<Expr>)
      requires Valid()
      modifies this
      ensures Valid() && Follows(res, Rest(), Parse(SUM_LEVEL, old(Rest())))
      decreases |Rest()|, 4
    {
      LevelStart(SUM_LEVEL, Rest());
      hide Parse;
      hide ParseLoop;
      hide OperatorAt;
      var left :- ParseMultiplicative();
      var t := Peek();
      while t == Sym(PlusSign) || t == Sym(MinusSign)
        invariant Valid() && |Rest()| < |old(Rest())| && t == Head(Rest())
        invariant Parse(SUM_LEVEL, old(Rest())) == ParseLoop(SUM_LEVEL, left, Rest())
        decreases |Rest()|
      {
        Operators(t);
        LoopRound(SUM_LEVEL, left, Rest());
        var _ := Advance();
        var right :- ParseMultiplicative();
        left := Binary(if t == Sym(PlusSign) then Plus else Minus, left, right);
        t := Peek();
      }
      Operators(t);
      LoopRound(SUM_LEVEL, left, Rest());
      return Ok(left);
    }

    method ParseMultiplicative() returns (res: Result<Expr>)
      requires Valid()
      modifies this
      ensures Valid() && Follows(res, Rest(), Parse(PRODUCT_LEVEL, old(Rest())))
      decreases |Rest()|, 3
    {
      LevelStart(PRODUCT_LEVEL, Rest());
      hide Parse;
      hide ParseLoop;
      hide OperatorAt;
      var left :- ParseUnary();
      var t := Peek();
      while t == Sym(Star) || t == Sym(Slash) || t == Sym(Percent)
        invariant Valid() && |Rest()| < |old(Rest())| && t == Head(Rest())
        invariant Parse(PRODUCT_LEVEL, old(Rest())) == ParseLoop(PRODUCT_LEVEL, left, Rest())
        decreases |Rest()|
      {
        Operators(t);
        LoopRound(PRODUCT_LEVEL, left, Rest());
        var _ := Advance();
        var right :- ParseUnary();
        left := Binary(if t == Sym(Star) then Multiply else if t == Sym(Slash) then Divide else Modulo, left, right);
        t := Peek();
      }
      Operators(t);
      LoopRound(PRODUCT_LEVEL, left, Rest());
      return Ok(left);
    }

    method ParseUnary() returns (res: Result<Expr>)
      requires Valid()
      modifies this
      ensures Valid() && Follows(res, Rest(), Parse(UNARY_LEVEL, old(Rest())))
      decreases |Rest()|, 2
    {
      var t := Peek();
      if Prefix(t).Some? {
        var _ := Advance();
        var x :- ParseUnary();
        return Ok(Unary(Prefix(t).value, x));
      }
      res := ParsePrimaryExpr();
    }

    method ParsePrimaryExpr() returns (res: Result<Expr>)
      requires Valid()
      modifies this
      ensures Valid() && Follows(res, Rest(), Parse(PRIMARY_LEVEL, old(Rest())))
      decreases |Rest()|, 1
    {
      var t := Peek();
      if t.Ident? {
        var path :- ParseFieldPath();
        return Ok(FieldRef(path));
      }
      if t == Sym(LParen) {
        var _ := Advance();
        var e :- ParseExpr();
        var _ :- ExpectToken(Sym(RParen));
        return Ok(e);
      }
      var v :- ParseValueLiteral();
      return Ok(Literal(v));
    }

    // ---- statements ----

    method ParseWhere() returns (res: Result<Option<Expr>>)
      requires Valid()
      modifies this
      ensures Valid() && Follows(res, Rest(), ParseFilter(old(Rest())))
    {
      var present := MatchToken(Word(WHERE));
      if !present { return Ok(None); }
      var e :- ParseExpr();
      return Ok(Some(e));
    }

    method ParseSortClause() returns (res: Result<Option<SortClause>>)
      requires Valid()
      modifies this
      ensures Valid() && Follows(res, Rest(), ParseSort(old(Rest())))
    {
      var present := MatchToken(Word(SORT));
      if !present { return Ok(None); }
      var field :- ParseFieldPath();
      var desc := MatchToken(Word(DESC));
      if desc { return Ok(Some(SortClause(field, Desc))); }
      var _ := MatchToken(Word(ASC));
      return Ok(Some(SortClause(field, Asc)));
    }

    method ParseUsize(word: Keyword) returns (res: Result<Option<nat>>)
      requires Valid()
      modifies this
      ensures Valid() && Follows(res, Rest(), ParseSize(word, old(Rest())))
    {
      var present := MatchToken(Word(word));
      if !present { return Ok(None); }
      var t := Peek();
      if t.IntLit? && t.i >= 0 {
        var _ := Advance();
        return Ok(Some(t.i));
      }
      return Err(ParseError);
    }

    method ParseFindStatement() returns (res: Result<Statement>)
      requires Valid()
      modifies this
      ensures Valid() && Follows(res, Rest(), ParseFind(old(Rest())))
    {
      var coll :- TakeIdentifier();
      var filter :- ParseWhere();
      var sort :- ParseSortClause();
      var limit :- ParseUsize(LIMIT);
      var offset :- ParseUsize(OFFSET);
      return Ok(FindDocs(coll, filter, sort, limit, offset));
    }

    method ParseInsertStatement(blank: Document) returns (res: Result<Statement>)
      requires Valid()
      modifies this
      ensures Valid() && Follows(res, Rest(), ParseInsert(blank, old(Rest())))
    {
      var _ := MatchToken(Word(INTO));
      var coll :- TakeIdentifier();
      var _ :- ExpectToken(Word(VALUES));
      var paren := MatchToken(Sym(LParen));
      var value :- ParseValueLiteral();
      if paren {
        var _ :- ExpectToken(Sym(RParen));
      }
      if !value.Object? { return Err(ParseError); }
      var doc := FillDocument(blank, value.fields);
      return Ok(InsertDoc(coll, doc));
    }

    /** The entry loop of `parse_insert`. */
    method FillDocument(blank: Document, entries: seq<Field>) returns (doc: Document)
      ensures doc == Filled(blank, entries)
    {
      hide IsDocumentId;
      doc := blank;
      for i := 0 to |entries|
        invariant Filled(blank, entries) == Filled(doc, entries[i..])
      {
        var f := entries[i];
        assert entries[i..][1..] == entries[i + 1..];
        if IsIdPath(f.key) {
          if f.value.String? {
            var id := NewDocumentId(f.value.s);
            if id.Ok? { doc := doc.(id := id.value); }
          }
        } else {
          doc := doc.(fields := Put(doc.fields, f.key, f.value));
        }
      }
    }

    method ParseUpdateStatement() returns (res: Result<Statement>)
      requires Valid()
      modifies this
      ensures Valid() && Follows(res, Rest(), ParseUpdate(old(Rest())))
    {
      var coll :- TakeIdentifier();
      var _ :- ExpectToken(Word(SET));
      var assignments :- ParseAssignmentList();
      var filter :- ParseWhere();
      return Ok(UpdateDocs(coll, assignments, filter));
    }

    method ParseAssignmentList() returns (res: Result<seq<Assignment>>)
      requires Valid()
      modifies this
      ensures Valid() && Follows(res, Rest(), ParseAssignments(old(Rest())))
    {
      var list: seq<Assignment> := [];
      var more := true;
      PrependedNone(ParseAssignments(Rest()));
      while more
        invariant Valid() && |Rest()| <= |old(Rest())|
        invariant more ==> ParseAssignments(old(Rest())) == Prepended(list, ParseAssignments(Rest()))
        invariant !more ==> ParseAssignments(old(Rest())) == Ok(Parsed(list, Rest()))
        decreases more, |Rest()|
      {
        var field :- ParseFieldPath();
        var equals := MatchEither(Sym(EqSign), Sym(EqEq));
        if !equals { return Err(ParseError); }
        var e :- ParseExpr();
        var a := Assignment(field, e);
        PrependedOne(list, a, ParseAssignments(if Head(Rest()) == Sym(Comma) then Rest()[1..] else []), Rest());
        list := list + [a];
        more := MatchToken(Sym(Comma));
      }
      return Ok(list);
    }

    method ParseCollectionAndFilter() returns (res: Result<(string, Option<Expr>)>)
      requires Valid()
      modifies this
      ensures Valid() && Follows(res, Rest(), ParseSelection(old(Rest())))
    {
      var coll :- TakeIdentifier();
      var filter :- ParseWhere();
      return Ok((coll, filter));
    }

    method ParseIndexTarget() returns (res: Result<(string, string)>)
      requires Valid()
      modifies this
      ensures Valid() && Follows(res, Rest(), ParseTarget(old(Rest())))
    {
      var _ :- ExpectToken(Word(INDEX));
      var coll :- TakeIdentifier();
      var dot := MatchToken(Sym(Dot));
      var field: string;
      if dot { field :- ParseFieldPath(); } else { field :- TakeIdentifier(); }
      return Ok((coll, field));
    }

    method ParseCreateIndex() returns (res: Result<Statement>)
      requires Valid()
      modifies this
      ensures Valid() && Follows(res, Rest(), ParseCreate(old(Rest())))
    {
      var target :- ParseIndexTarget();
      var typed := MatchToken(Word(TYPE));
      if !typed { return Ok(MakeIndex(target.0, target.1, OrderedType)); }
      var hash := MatchToken(Word(HASH));
      if hash { return Ok(MakeIndex(target.0, target.1, HashType)); }
      var ordered := MatchToken(Word(ORDERED));
      if ordered { return Ok(MakeIndex(target.0, target.1, OrderedType)); }
      return Err(ParseError);
    }

    /** `parse_statement`, given the new document that an INSERT starts from. */
    method ParseOneStatement(blank: Document) returns (res: Result<Statement>)
      requires Valid()
      modifies this
      ensures Valid() && Follows(res, Rest(), ParseStatement(blank, old(Rest())))
    {
      hide ParseFind;
      hide ParseInsert;
      hide ParseUpdate;
      hide ParseSelection;
      hide ParseCreate;
      hide ParseTarget;
      var t := Peek();
      if !t.Word? { return Err(ParseError); }
      var _ := Advance();
      match t.word
      case FIND => res := ParseFindStatement();
      case INSERT => res := ParseInsertStatement(blank);
      case UPDATE => res := ParseUpdateStatement();
      case REMOVE => var s :- ParseCollectionAndFilter(); return Ok(RemoveDocs(s.0, s.1));
      case WATCH => var s :- ParseCollectionAndFilter(); return Ok(WatchDocs(s.0, s.1));
      case COUNT => var s :- ParseCollectionAndFilter(); return Ok(CountDocs(s.0, s.1));
      case EXISTS => var s :- ParseCollectionAndFilter(); return Ok(ExistsDocs(s.0, s.1));
      case CREATE => res := ParseCreateIndex();
      case DROP => var s :- ParseIndexTarget(); return Ok(DropAnIndex(s.0, s.1));
      case BEGIN => return Ok(BeginTx);
      case COMMIT => return Ok(CommitTx);
      case ROLLBACK => return Ok(RollbackTx);
      case _ => return Err(ParseError);
    }
  }

  /** One round of a left-associative loop. */
  lemma LoopRound(level: nat, left: Expr, ts: seq<Token>)
    requires level < UNARY_LEVEL
    ensures OperatorAt(level, Head(ts)).None? ==> ParseLoop(level, left, ts) == Ok(Parsed(left, ts))
    ensures OperatorAt(level, Head(ts)).Some? ==> ts != []
    ensures OperatorAt(level, Head(ts)).Some? ==>
              var right := Parse(level + 1, ts[1..]);
              if right.Err? then ParseLoop(level, left, ts) == Err(right.code)
              else ParseLoop(level, left, ts)
                   == ParseLoop(level, Binary(OperatorAt(level, Head(ts)).value, left, right.value.value), right.value.rest)
  {
    hide Parse;
    assert OperatorAt(level, Eof).None?;
    hide OperatorAt;
  }

  lemma Operators(t: Token)
    ensures OperatorAt(OR_LEVEL, t) == if t == Word(OR) || t == Sym(PipePipe) then Some(Or) else None
    ensures OperatorAt(AND_LEVEL, t) == if t == Word(AND) || t == Sym(AmpAmp) then Some(And) else None
    ensures OperatorAt(SUM_LEVEL, t) == if t == Sym(PlusSign) then Some(Plus) else if t == Sym(MinusSign) then Some(Minus) else None
    ensures OperatorAt(PRODUCT_LEVEL, t)
            == if t == Sym(Star) then Some(Multiply) else if t == Sym(Slash) then Some(Divide)
               else if t == Sym(Percent) then Some(Modulo) else None
  {
  }

  /** A left-associative level reads its first operand and then loops. */
  lemma LevelStart(level: nat, ts: seq<Token>)
    requires level in {OR_LEVEL, AND_LEVEL, SUM_LEVEL, PRODUCT_LEVEL}
    ensures var left := Parse(level + 1, ts);
            Parse(level, ts) == if left.Err? then Err(left.code) else ParseLoop(level, left.value.value, left.value.rest)
  {
    hide ParseLoop;
  }

  lemma CompareStart(ts: seq<Token>)
    ensures var left := Parse(SUM_LEVEL, ts);
            Parse(COMPARE_LEVEL, ts) == if left.Err? then Err(left.code) else ParseCompared(left.value.value, left.value.rest)
    ensures Comparison(Eof).None? && Comparison(Word(BETWEEN)).None? && Comparison(Word(IN)).None?
  {
    hide ParseCompared;
  }

  /** What is left to read of a path right after a dot. */
  function PathAfterDot(path: string, ts: seq<Token>): Outcome<string> {
    var sub :- ExpectIdentifier(ts);
    PathLoop(path + "." + sub.value, sub.rest)
  }

  function Prepended<T>(done: seq<T>, more: Outcome<seq<T>>): Outcome<seq<T>> {
    var m :- more;
    Ok(Parsed(done + m.value, m.rest))
  }

  lemma PrependedNone<T>(more: Outcome<seq<T>>)
    ensures Prepended([], more) == more
  {
    if more.Ok? {
      assert [] + more.value.value == more.value.value;
    }
  }

  lemma PrependedOne<T>(done: seq<T>, x: T, more: Outcome<seq<T>>, rest: seq<Token>)
    ensures Prepended(done, Ok(Parsed([x], rest))) == Ok(Parsed(done + [x], rest))
    ensures more.Ok? ==> Prepended(done, Ok(Parsed([x] + more.value.value, more.value.rest))) == Prepended(done + [x], more)
  {
    if more.Ok? {
      assert done + ([x] + more.value.value) == (done + [x]) + more.value.value;
    }
  }
}

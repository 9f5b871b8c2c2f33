/**
 What the NQL parser (crates/nova-query/src/parser.rs) accepts, as functions from the tokens that are
 left to a result and the tokens that are left then. Levels number the precedence: OR, AND, comparison,
 additive, multiplicative, unary, primary.
 */
module Grammar {
  import opened Core
  import opened Values
  import opened Documents
  import opened Ast
  import opened Tokens

  datatype Parsed<+T> = Parsed(value: T, rest: seq<Token>)

  type Outcome<+T> = Result<Parsed<T>>

  const OR_LEVEL := 0
  const AND_LEVEL := 1
  const COMPARE_LEVEL := 2
  const SUM_LEVEL := 3
  const PRODUCT_LEVEL := 4
  const UNARY_LEVEL := 5
  const PRIMARY_LEVEL := 6

  /** The next token; past the end it is the final `Eof` again. */
  function Head(ts: seq<Token>): Token {
    if ts == [] then Eof else ts[0]
  }

  /** The operator of a left-associative level that a token stands for. */
  function OperatorAt(level: nat, t: Token): Option<BinaryOp> {
    match (level, t)
    case (0, Word(OR)) => Some(Or)
    case (0, Sym(PipePipe)) => Some(Or)
    case (1, Word(AND)) => Some(And)
    case (1, Sym(AmpAmp)) => Some(And)
    case (3, Sym(PlusSign)) => Some(Plus)
    case (3, Sym(MinusSign)) => Some(Minus)
    case (4, Sym(Star)) => Some(Multiply)
    case (4, Sym(Slash)) => Some(Divide)
    case (4, Sym(Percent)) => Some(Modulo)
    case (_, _) => None
  }

  function Comparison(t: Token): Option<BinaryOp> {
    match t
    case Sym(EqEq) => Some(Equals)
    case Sym(EqSign) => Some(Equals)
    case Sym(BangEq) => Some(NotEquals)
    case Sym(GtSign) => Some(Gt)
    case Sym(GtEqSign) => Some(GtEq)
    case Sym(LtSign) => Some(Lt)
    case Sym(LtEqSign) => Some(LtEq)
    case _ => None
  }

  function Prefix(t: Token): Option<UnaryOp> {
    match t
    case Word(NOT) => Some(Not)
    case Sym(Bang) => Some(Not)
    case Sym(MinusSign) => Some(Negate)
    case _ => None
  }

  /** The literals that are one token. */
  function Scalar(t: Token): Option<Value> {
    match t
    case Word(NULL) => Some(Null)
    case Word(TRUE) => Some(Bool(true))
    case Word(FALSE) => Some(Bool(false))
    case IntLit(i) => Some(Int(i))
    case FloatLit(f) => Some(Float(f))
    case StrLit(s) => Some(String(s))
    case _ => None
  }

  function Expect(t: Token, ts: seq<Token>): (r: Result<seq<Token>>)
    requires t != Eof
    ensures r.Ok? ==> |r.value| < |ts|
  {
    if Head(ts) == t then Ok(ts[1..]) else Err(ParseError)
  }

  function ExpectIdentifier(ts: seq<Token>): (r: Outcome<string>)
    ensures r.Ok? ==> |r.value.rest| < |ts|
  {
    if Head(ts).Ident? then Ok(Parsed(ts[0].name, ts[1..])) else Err(ParseError)
  }

  // ---- field paths ----

  /** More `.name` parts after `path`. */
  function PathLoop(path: string, ts: seq<Token>): (r: Outcome<string>)
    ensures r.Ok? ==> |r.value.rest| <= |ts|
    decreases |ts|
  {
    if Head(ts) != Sym(Dot) then Ok(Parsed(path, ts))
    else
      var sub :- ExpectIdentifier(ts[1..]);
      PathLoop(path + "." + sub.value, sub.rest)
  }

  function ParsePath(ts: seq<Token>): (r: Outcome<string>)
    ensures r.Ok? ==> |r.value.rest| < |ts|
  {
    var first :- ExpectIdentifier(ts);
    PathLoop(first.value, first.rest)
  }

  // ---- value literals ----

  function ParseValue(ts: seq<Token>): (r: Outcome<Value>)
    ensures r.Ok? ==> |r.value.rest| < |ts|
    decreases |ts|, 0
  {
    var t := Head(ts);
    if Scalar(t).Some? then Ok(Parsed(Scalar(t).value, ts[1..]))
    else if t == Sym(LBracket) then
      var list :- (if Head(ts[1..]) == Sym(RBracket) then Ok(Parsed([], ts[1..])) else ParseValues(ts[1..]));
      var rest :- Expect(Sym(RBracket), list.rest);
      Ok(Parsed(Array(list.value), rest))
    else if t == Sym(LBrace) then
      var fields :- (if Head(ts[1..]) == Sym(RBrace) then Ok(Parsed([], ts[1..])) else ParseFields([], ts[1..]));
      var rest :- Expect(Sym(RBrace), fields.rest);
      Ok(Parsed(Object(fields.value), rest))
    else Err(ParseError)
  }

  function ParseValues(ts: seq<Token>): (r: Outcome<seq<Value>>)
    ensures r.Ok? ==> |r.value.rest| < |ts|
    decreases |ts|, 1
  {
    var first :- ParseValue(ts);
    if Head(first.rest) != Sym(Comma) then Ok(Parsed([first.value], first.rest))
    else
      var more :- ParseValues(first.rest[1..]);
      Ok(Parsed([first.value] + more.value, more.rest))
  }

  function KeyOf(t: Token): Option<string> {
    match t
    case StrLit(s) => Some(s)
    case Ident(s) => Some(s)
    case _ => None
  }

  /** `key: value` pairs, put into the map `fields` one by one. */
  function ParseFields(fields: seq<Field>, ts: seq<Token>): (r: Outcome<seq<Field>>)
    ensures r.Ok? ==> |r.value.rest| < |ts|
    decreases |ts|, 1
  {
    var key := KeyOf(Head(ts));
    if key.None? then Err(ParseError)
    else
      var afterColon :- Expect(Sym(Colon), ts[1..]);
      var v :- ParseValue(afterColon);
      var fields' := Put(fields, key.value, v.value);
      if Head(v.rest) != Sym(Comma) then Ok(Parsed(fields', v.rest))
      else ParseFields(fields', v.rest[1..])
  }

  // ---- expressions ----

  /** `parse_or` (level 0) down to `parse_primary` (level 6). */
  function Parse(level: nat, ts: seq<Token>): (r: Outcome<Expr>)
    requires level <= PRIMARY_LEVEL
    ensures r.Ok? ==> |r.value.rest| < |ts|
    decreases |ts|, 2, PRIMARY_LEVEL - level
  {
    if level == PRIMARY_LEVEL then ParsePrimary(ts)
    else if level == UNARY_LEVEL then
      if Prefix(Head(ts)).None? then Parse(PRIMARY_LEVEL, ts)
      else
        var x :- Parse(UNARY_LEVEL, ts[1..]);
        Ok(Parsed(Unary(Prefix(ts[0]).value, x.value), x.rest))
    else
      var left :- Parse(level + 1, ts);
      if level == COMPARE_LEVEL then ParseCompared(left.value, left.rest) else ParseLoop(level, left.value, left.rest)
  }

  /** The loop of a left-associative level. */
  function ParseLoop(level: nat, left: Expr, ts: seq<Token>): (r: Outcome<Expr>)
    requires level < UNARY_LEVEL
    ensures r.Ok? ==> |r.value.rest| <= |ts|
    decreases |ts|, 1
  {
    var op := OperatorAt(level, Head(ts));
    if op.None? then Ok(Parsed(left, ts))
    else
      var right :- Parse(level + 1, ts[1..]);
      ParseLoop(level, Binary(op.value, left, right.value), right.rest)
  }

  /** What may follow the left side of a comparison; there is at most one. */
  function ParseCompared(left: Expr, ts: seq<Token>): (r: Outcome<Expr>)
    ensures r.Ok? ==> |r.value.rest| <= |ts|
    decreases |ts|, 1
  {
    var t := Head(ts);
    if Comparison(t).Some? then
      var right :- Parse(SUM_LEVEL, ts[1..]);
      Ok(Parsed(Binary(Comparison(t).value, left, right.value), right.rest))
    else if t == Word(BETWEEN) then
      var min :- Parse(SUM_LEVEL, ts[1..]);
      var afterAnd :- Expect(Word(AND), min.rest);
      var max :- Parse(SUM_LEVEL, afterAnd);
      Ok(Parsed(Between(left, min.value, max.value), max.rest))
    else if t == Word(IN) then
      var afterParen :- Expect(Sym(LParen), ts[1..]);
      var list :- (if Head(afterParen) == Sym(RParen) then Ok(Parsed([], afterParen)) else ParseItems(afterParen));
      var rest :- Expect(Sym(RParen), list.rest);
      Ok(Parsed(In(left, list.value), rest))
    else Ok(Parsed(left, ts))
  }

  function ParseItems(ts: seq<Token>): (r: Outcome<seq<Expr>>)
    ensures r.Ok? ==> |r.value.rest| < |ts|
    decreases |ts|, 3
  {
    var first :- Parse(OR_LEVEL, ts);
    if Head(first.rest) != Sym(Comma) then Ok(Parsed([first.value], first.rest))
    else
      var more :- ParseItems(first.rest[1..]);
      Ok(Parsed([first.value] + more.value, more.rest))
  }

  function ParsePrimary(ts: seq<Token>): (r: Outcome<Expr>)
    ensures r.Ok? ==> |r.value.rest| < |ts|
    decreases |ts|, 1
  {
    var t := Head(ts);
    if t.Ident? then
      var path :- ParsePath(ts);
      Ok(Parsed(FieldRef(path.value), path.rest))
    else if t == Sym(LParen) then
      var inner :- Parse(OR_LEVEL, ts[1..]);
      var rest :- Expect(Sym(RParen), inner.rest);
      Ok(Parsed(inner.value, rest))
    else
      var v :- ParseValue(ts);
      Ok(Parsed(Literal(v.value), v.rest))
  }
}

/**
 A printer for NQL expressions that writes only the parentheses the precedence levels require, and the
 proof that the parser undoes it.
 */
module Printing {
  import opened Core
  import opened Values
  import opened Documents
  import opened FieldLaws
  import opened Ast
  import opened Tokens
  import opened Grammar

  // ---- values ----

  /** The values that can be written as literals: no bytes, timestamps or UUIDs, and object keys in order. */
  predicate Writable(v: Value) {
    match v
    case Array(items) => AllWritable(items)
    case Object(fields) => Sorted(fields) && AllFieldsWritable(fields)
    case _ => v.Null? || v.Bool? || v.Int? || v.Float? || v.String?
  }

  predicate AllWritable(items: seq<Value>) {
    forall i :: 0 <= i < |items| ==> Writable(items[i])
  }

  predicate AllFieldsWritable(fields: seq<Field>) {
    forall i :: 0 <= i < |fields| ==> Writable(fields[i].value)
  }

  function PrintValue(v: Value): seq<Token> {
    match v
    case Null => [Word(NULL)]
    case Bool(b) => [Word(if b then TRUE else FALSE)]
    case Int(i) => [IntLit(i)]
    case Float(f) => [FloatLit(f)]
    case String(s) => [StrLit(s)]
    case Array(items) => [Sym(LBracket)] + PrintValues(items) + [Sym(RBracket)]
    case Object(fields) => [Sym(LBrace)] + PrintFields(fields) + [Sym(RBrace)]
    case _ => []
  }

  function PrintValues(items: seq<Value>): seq<Token>
    decreases items
  {
    if items == [] then []
    else PrintValue(items[0]) + (if |items| == 1 then [] else [Sym(Comma)] + PrintValues(items[1..]))
  }

  function PrintFields(fields: seq<Field>): seq<Token>
    decreases fields
  {
    if fields == [] then []
    else
      [StrLit(fields[0].key), Sym(Colon)] + PrintValue(fields[0].value)
      + (if |fields| == 1 then [] else [Sym(Comma)] + PrintFields(fields[1..]))
  }

  lemma ScalarUndone(v: Value, s: seq<Token>)
    requires v.Null? || v.Bool? || v.Int? || v.Float? || v.String?
    ensures ParseValue(PrintValue(v) + s) == Ok(Parsed(v, s))
  {
    assert |PrintValue(v)| == 1;
    assert (PrintValue(v) + s)[1..] == s;
  }

  /** Reading an array whose items can be read. */
  lemma ArrayRead(items: seq<Value>, printed: seq<Token>, s: seq<Token>)
    requires items == [] ==> printed == []
    requires items != [] ==> printed != [] && printed[0] != Sym(RBracket)
    requires items != [] ==> ParseValues(printed + ([Sym(RBracket)] + s)) == Ok(Parsed(items, [Sym(RBracket)] + s))
    ensures ParseValue([Sym(LBracket)] + printed + [Sym(RBracket)] + s) == Ok(Parsed(Array(items), s))
  {
    hide ParseValues;
    var ts := [Sym(LBracket)] + printed + [Sym(RBracket)] + s;
    assert ts[1..] == printed + ([Sym(RBracket)] + s);
    assert ([Sym(RBracket)] + s)[1..] == s;
  }

  lemma ObjectRead(fields: seq<Field>, printed: seq<Token>, s: seq<Token>)
    requires fields == [] ==> printed == []
    requires fields != [] ==> printed != [] && printed[0] != Sym(RBrace)
    requires fields != [] ==> ParseFields([], printed + ([Sym(RBrace)] + s)) == Ok(Parsed(fields, [Sym(RBrace)] + s))
    ensures ParseValue([Sym(LBrace)] + printed + [Sym(RBrace)] + s) == Ok(Parsed(Object(fields), s))
  {
    hide ParseFields;
    var ts := [Sym(LBrace)] + printed + [Sym(RBrace)] + s;
    assert ts[1..] == printed + ([Sym(RBrace)] + s);
    assert ([Sym(RBrace)] + s)[1..] == s;
  }

  lemma {:induction false} ValueUndone(v: Value, s: seq<Token>)
    requires Writable(v)
    ensures ParseValue(PrintValue(v) + s) == Ok(Parsed(v, s))
    decreases v, 0
  {
    match v {
      case Array(items) =>
        if items != [] {
          ValueStart(items[0]);
          ValuesUndone(items, [Sym(RBracket)] + s);
        }
        ArrayRead(items, PrintValues(items), s);
      case Object(fields) =>
        if fields != [] {
          FieldsUndone(fields, 0, [Sym(RBrace)] + s);
          assert fields[0..] == fields && fields[..0] == [];
        }
        ObjectRead(fields, PrintFields(fields), s);
      case _ => ScalarUndone(v, s);
    }
  }

  lemma ValueStart(v: Value)
    requires Writable(v)
    ensures PrintValue(v) != [] && PrintValue(v)[0] !in {Sym(RBracket), Sym(RBrace), Sym(RParen)}
  {
  }

  lemma {:induction false} ValuesUndone(items: seq<Value>, s: seq<Token>)
    requires items != [] && AllWritable(items) && Head(s) != Sym(Comma)
    ensures ParseValues(PrintValues(items) + s) == Ok(Parsed(items, s))
    decreases items, 1
  {
    hide PrintValue;
    hide Writable;
    var first := PrintValue(items[0]);
    if |items| == 1 {
      ValueUndone(items[0], s);
      hide ParseValue;
      assert PrintValues(items) + s == first + s;
      assert items == [items[0]];
    } else {
      var tail := [Sym(Comma)] + PrintValues(items[1..]) + s;
      assert PrintValues(items) + s == first + tail;
      assert tail[1..] == PrintValues(items[1..]) + s;
      ValueUndone(items[0], tail);
      hide ParseValue;
      ValuesUndone(items[1..], s);
      assert items == [items[0]] + items[1..];
    }
  }

  /** Reading one field. */
  lemma FieldUndone(done: seq<Field>, key: string, v: Value, printed: seq<Token>, tail: seq<Token>)
    requires ParseValue(printed + tail) == Ok(Parsed(v, tail))
    ensures ParseFields(done, [StrLit(key), Sym(Colon)] + (printed + tail))
            == if Head(tail) != Sym(Comma) then Ok(Parsed(Put(done, key, v), tail)) else ParseFields(Put(done, key, v), tail[1..])
  {
    hide ParseValue;
    hide Put;
    var ts := [StrLit(key), Sym(Colon)] + (printed + tail);
    assert ts[1..] == [Sym(Colon)] + (printed + tail);
    assert ts[1..][1..] == printed + tail;
  }

  /** Reading the fields from `k` on, after the first `k` have been put into the map. */
  lemma {:induction false} FieldsUndone(fields: seq<Field>, k: nat, s: seq<Token>)
    requires k < |fields| && Sorted(fields) && AllFieldsWritable(fields) && Head(s) != Sym(Comma)
    ensures ParseFields(fields[..k], PrintFields(fields[k..]) + s) == Ok(Parsed(fields, s))
    decreases fields, 1, |fields| - k
  {
    hide KeyLess;
    hide Put;
    hide PrintValue;
    hide ParseValue;
    hide ParseFields;
    hide Writable;
    var (rest, f) := (fields[k..], fields[k]);
    assert rest[0] == f && rest[1..] == fields[k + 1..];
    PutLast(fields[..k], f.key, f.value);
    assert fields[..k] + [Field(f.key, f.value)] == fields[..k + 1];
    var tail := (if |rest| == 1 then [] else [Sym(Comma)] + PrintFields(rest[1..])) + s;
    assert PrintFields(rest) + s == [StrLit(f.key), Sym(Colon)] + (PrintValue(f.value) + tail);
    ValueUndone(f.value, tail);
    FieldUndone(fields[..k], f.key, f.value, PrintValue(f.value), tail);
    if |rest| == 1 {
      assert tail == s && fields[..k + 1] == fields;
    } else {
      assert tail[1..] == PrintFields(fields[k + 1..]) + s;
      FieldsUndone(fields, k + 1, s);
    }
  }

  // ---- field paths ----

  function JoinDots(parts: seq<string>): string
    requires parts != []
  {
    if |parts| == 1 then parts[0] else parts[0] + "." + JoinDots(parts[1..])
  }

  lemma {:induction false} JoinSplit(path: string)
    ensures JoinDots(SplitDots(path)) == path
  {
    if path != "" {
      JoinSplit(path[1..]);
      var rest := SplitDots(path[1..]);
      var parts := SplitDots(path);
      if path[0] == '.' {
        assert parts[1..] == rest;
      } else {
        assert parts[1..] == rest[1..];
        assert path == [path[0]] + path[1..];
      }
    }
  }

  /** Identifiers with dots between them. */
  function PrintParts(parts: seq<string>): seq<Token>
    decreases |parts|, 1
  {
    if parts == [] then [] else [Ident(parts[0])] + PrintMoreParts(parts)
  }

  function PrintMoreParts(parts: seq<string>): seq<Token>
    requires parts != []
    decreases |parts|, 0
  {
    if |parts| == 1 then [] else [Sym(Dot)] + PrintParts(parts[1..])
  }

  function PrintPath(path: string): seq<Token> {
    PrintParts(SplitDots(path))
  }

  lemma DotRead(path: string, name: string, s: seq<Token>)
    ensures PathLoop(path, [Sym(Dot)] + ([Ident(name)] + s)) == PathLoop(path + "." + name, s)
  {
    var ts := [Sym(Dot)] + ([Ident(name)] + s);
    assert ts[1..] == [Ident(name)] + s;
    assert ts[1..][1..] == s;
  }

  lemma JoinAfter(path: string, parts: seq<string>)
    requires |parts| > 1
    ensures path + JoinDots(parts) == path + parts[0] + "." + JoinDots(parts[1..])
  {
  }

  lemma {:induction false} PartsUndone(path: string, parts: seq<string>, s: seq<Token>)
    requires parts != [] && Head(s) != Sym(Dot)
    ensures PathLoop(path + parts[0], PrintMoreParts(parts) + s) == Ok(Parsed(path + JoinDots(parts), s))
    decreases |parts|
  {
    if |parts| == 1 {
      assert PrintMoreParts(parts) + s == s;
    } else {
      var next := parts[1..];
      assert PrintParts(next) == [Ident(next[0])] + PrintMoreParts(next);
      assert PrintMoreParts(parts) + s == [Sym(Dot)] + ([Ident(next[0])] + (PrintMoreParts(next) + s));
      hide PathLoop;
      hide PrintMoreParts;
      DotRead(path + parts[0], next[0], PrintMoreParts(next) + s);
      PartsUndone(path + parts[0] + ".", next, s);
      JoinAfter(path, parts);
    }
  }

  lemma PathUndone(path: string, s: seq<Token>)
    requires Head(s) != Sym(Dot)
    ensures PrintPath(path) != [] && PrintPath(path)[0].Ident?
    ensures ParsePath(PrintPath(path) + s) == Ok(Parsed(path, s))
  {
    var parts := SplitDots(path);
    JoinSplit(path);
    PartsUndone("", parts, s);
    assert PrintParts(parts) == [Ident(parts[0])] + PrintMoreParts(parts);
    assert (PrintParts(parts) + s)[1..] == PrintMoreParts(parts) + s;
    assert "" + parts[0] == parts[0] && "" + path == path;
  }

  // ---- expressions ----

  predicate Expressible(e: Expr) {
    match e
    case Literal(v) => Writable(v)
    case FieldRef(_) => true
    case Binary(_, l, r) => Expressible(l) && Expressible(r)
    case Unary(_, x) => Expressible(x)
    case In(x, list) => Expressible(x) && forall i :: 0 <= i < |list| ==> Expressible(list[i])
    case Between(x, lo, hi) => Expressible(x) && Expressible(lo) && Expressible(hi)
  }

  /** The level whose function builds the expression. */
  function LevelOf(e: Expr): (level: nat)
    ensures level <= PRIMARY_LEVEL
  {
    match e
    case Binary(op, _, _) =>
      (match op
       case Or => OR_LEVEL
       case And => AND_LEVEL
       case Plus => SUM_LEVEL
       case Minus => SUM_LEVEL
       case Multiply => PRODUCT_LEVEL
       case Divide => PRODUCT_LEVEL
       case Modulo => PRODUCT_LEVEL
       case _ => COMPARE_LEVEL)
    case Unary(_, _) => UNARY_LEVEL
    case In(_, _) => COMPARE_LEVEL
    case Between(_, _, _) => COMPARE_LEVEL
    case _ => PRIMARY_LEVEL
  }

  function OperatorToken(op: BinaryOp): Token {
    match op
    case Or => Word(OR)
    case And => Word(AND)
    case Equals => Sym(EqEq)
    case NotEquals => Sym(BangEq)
    case Gt => Sym(GtSign)
    case GtEq => Sym(GtEqSign)
    case Lt => Sym(LtSign)
    case LtEq => Sym(LtEqSign)
    case Plus => Sym(PlusSign)
    case Minus => Sym(MinusSign)
    case Multiply => Sym(Star)
    case Divide => Sym(Slash)
    case Modulo => Sym(Percent)
  }

  function PrefixToken(op: UnaryOp): Token {
    if op == Not then Word(NOT) else Sym(MinusSign)
  }

  /** The expression where the grammar wants one of at least `level`. */
  function Print(level: nat, e: Expr): seq<Token>
    decreases e, 1
  {
    if LevelOf(e) < level then [Sym(LParen)] + Body(e) + [Sym(RParen)] else Body(e)
  }

  function Body(e: Expr): seq<Token>
    decreases e, 0
  {
    match e
    case Literal(v) => PrintValue(v)
    case FieldRef(path) => PrintPath(path)
    case Binary(op, l, r) =>
      var left := if LevelOf(e) == COMPARE_LEVEL then SUM_LEVEL else LevelOf(e);
      Print(left, l) + [OperatorToken(op)] + Print(LevelOf(e) + 1, r)
    case Unary(op, x) => [PrefixToken(op)] + Print(UNARY_LEVEL, x)
    case Between(x, lo, hi) =>
      Print(SUM_LEVEL, x) + [Word(BETWEEN)] + Print(SUM_LEVEL, lo) + [Word(AND)] + Print(SUM_LEVEL, hi)
    case In(x, list) =>
      Print(SUM_LEVEL, x) + [Word(IN), Sym(LParen)] + PrintItems(list) + [Sym(RParen)]
  }

  function PrintItems(list: seq<Expr>): seq<Token>
    decreases list
  {
    if list == [] then []
    else Print(OR_LEVEL, list[0]) + (if |list| == 1 then [] else [Sym(Comma)] + PrintItems(list[1..]))
  }

  /** The token cannot continue an expression of the level: no operator of it or a tighter one, and no dot. */
  predicate Stops(level: nat, t: Token) {
    && (forall k :: level <= k < UNARY_LEVEL ==> OperatorAt(k, t).None?)
    && (level <= COMPARE_LEVEL ==> Comparison(t).None? && t != Word(BETWEEN) && t != Word(IN))
    && t != Sym(Dot)
  }

  lemma Glue(a: seq<Token>, t: Token, b: seq<Token>, s: seq<Token>)
    ensures a + [t] + b + s == a + ([t] + (b + s))
    ensures Head([t] + (b + s)) == t && ([t] + (b + s))[1..] == b + s
  {
  }

  /** No other level claims an expression's own level: elsewhere the next level prints it the same. */
  lemma NextLevel(level: nat, e: Expr)
    requires LevelOf(e) != level
    ensures Print(level, e) == Print(level + 1, e)
  {
  }

  lemma OperatorRead(op: BinaryOp)
    ensures var (level, t) := (LevelOf(Binary(op, Literal(Null), Literal(Null))), OperatorToken(op));
            if level == COMPARE_LEVEL then Comparison(t) == Some(op) && Stops(SUM_LEVEL, t)
            else OperatorAt(level, t) == Some(op) && Stops(level + 1, t)
  {
  }

  function Rank(level: nat, e: Expr): nat
    requires level <= PRIMARY_LEVEL
  {
    if level > LevelOf(e) then 20 + 2 * (PRIMARY_LEVEL - level) else 1 + 2 * (LevelOf(e) - level)
  }

  /** One operator and its right side, read by the loop of their level. */
  lemma OperatorStep(level: nat, op: BinaryOp, l: Expr, r: Expr, t: Token, right: seq<Token>, s: seq<Token>)
    requires level < UNARY_LEVEL && OperatorAt(level, t) == Some(op) && Parse(level + 1, right + s) == Ok(Parsed(r, s))
    ensures ParseLoop(level, l, [t] + (right + s)) == ParseLoop(level, Binary(op, l, r), s)
  {
    hide Parse;
    hide OperatorAt;
    assert ([t] + (right + s))[1..] == right + s;
  }

  /** At a left-associative level the whole chain on the left is read first, and then whatever follows. */
  lemma {:induction false} ChainUndone(level: nat, e: Expr, s: seq<Token>)
    requires Expressible(e) && level in {OR_LEVEL, AND_LEVEL, SUM_LEVEL, PRODUCT_LEVEL} && Stops(level + 1, Head(s))
    ensures Parse(level, Print(level, e) + s) == ParseLoop(level, e, s)
    decreases e, Rank(level, e)
  {
    hide Print;
    if LevelOf(e) == level {
      var (op, l, r) := (e.op, e.left, e.right);
      var (t, right) := (OperatorToken(op), Print(level + 1, r));
      OperatorRead(op);
      PrintOwn(e);
      Glue(Print(level, l), t, right, s);
      hide Stops;
      hide OperatorAt;
      ChainUndone(level, l, [t] + (right + s));
      Undone(level + 1, r, s);
      hide Parse;
      hide ParseLoop;
      OperatorStep(level, op, l, r, t, right, s);
    } else {
      NextLevel(level, e);
      Undone(level + 1, e, s);
    }
  }

  lemma PrintOwn(e: Expr)
    ensures Print(LevelOf(e), e) == Body(e)
  {
  }

  /** The parser undoes the printer at every level, and stops at what follows. */
  lemma {:induction false} Undone(level: nat, e: Expr, s: seq<Token>)
    requires Expressible(e) && level <= PRIMARY_LEVEL && Stops(level, Head(s))
    ensures Parse(level, Print(level, e) + s) == Ok(Parsed(e, s))
    decreases e, Rank(level, e) + 1
  {
    hide Print;
    if level == PRIMARY_LEVEL {
      PrimaryUndone(e, s);
    } else if level == UNARY_LEVEL {
      UnaryUndone(e, s);
    } else if level == COMPARE_LEVEL {
      ComparisonUndone(e, s);
    } else {
      ChainUndone(level, e, s);
    }
  }

  lemma ParenRead(e: Expr, body: seq<Token>, s: seq<Token>)
    requires Parse(OR_LEVEL, body + ([Sym(RParen)] + s)) == Ok(Parsed(e, [Sym(RParen)] + s))
    ensures Parse(PRIMARY_LEVEL, [Sym(LParen)] + body + [Sym(RParen)] + s) == Ok(Parsed(e, s))
  {
    var ts := [Sym(LParen)] + body + [Sym(RParen)] + s;
    var tail := [Sym(RParen)] + s;
    assert ts[1..] == body + tail && tail[1..] == s;
    assert Parse(PRIMARY_LEVEL, ts) == ParsePrimary(ts);
    hide Parse;
  }

  lemma LiteralRead(v: Value, s: seq<Token>)
    requires Writable(v)
    ensures Parse(PRIMARY_LEVEL, PrintValue(v) + s) == Ok(Parsed(Literal(v), s))
  {
    ValueUndone(v, s);
    LiteralStart(v, s);
    hide PrintValue;
    hide ParseValue;
  }

  lemma PathRead(path: string, s: seq<Token>)
    requires Head(s) != Sym(Dot)
    ensures Parse(PRIMARY_LEVEL, PrintPath(path) + s) == Ok(Parsed(FieldRef(path), s))
  {
    PathUndone(path, s);
    hide PrintPath;
    hide ParsePath;
  }

  lemma {:induction false} PrimaryUndone(e: Expr, s: seq<Token>)
    requires Expressible(e) && Stops(PRIMARY_LEVEL, Head(s))
    ensures Parse(PRIMARY_LEVEL, Print(PRIMARY_LEVEL, e) + s) == Ok(Parsed(e, s))
    decreases e, Rank(PRIMARY_LEVEL, e)
  {
    hide Parse;
    match e {
      case Literal(v) => LiteralRead(v, s);
      case FieldRef(path) => PathRead(path, s);
      case _ =>
        assert Print(PRIMARY_LEVEL, e) == [Sym(LParen)] + Body(e) + [Sym(RParen)];
        assert Print(OR_LEVEL, e) == Body(e);
        assert Stops(OR_LEVEL, Sym(RParen));
        hide Stops;
        hide Body;
        Undone(OR_LEVEL, e, [Sym(RParen)] + s);
        ParenRead(e, Body(e), s);
    }
  }

  lemma LiteralStart(v: Value, s: seq<Token>)
    requires Writable(v)
    ensures var t := Head(PrintValue(v) + s); !t.Ident? && t != Sym(LParen) && Prefix(t).None?
  {
  }

  lemma PrimaryStart(e: Expr, s: seq<Token>)
    requires Expressible(e) && LevelOf(e) != UNARY_LEVEL
    ensures Prefix(Head(Print(UNARY_LEVEL, e) + s)).None?
  {
    match e {
      case Literal(v) => LiteralStart(v, s);
      case FieldRef(path) => PathStart(path);
      case _ =>
    }
  }

  lemma PathStart(path: string)
    ensures PrintPath(path) != [] && PrintPath(path)[0].Ident?
  {
    PathUndone(path, []);
  }

  lemma {:induction false} UnaryUndone(e: Expr, s: seq<Token>)
    requires Expressible(e) && Stops(UNARY_LEVEL, Head(s))
    ensures Parse(UNARY_LEVEL, Print(UNARY_LEVEL, e) + s) == Ok(Parsed(e, s))
    decreases e, Rank(UNARY_LEVEL, e)
  {
    if LevelOf(e) == UNARY_LEVEL {
      var inner := Print(UNARY_LEVEL, e.operand);
      var ts := [PrefixToken(e.uop)] + (inner + s);
      assert Print(UNARY_LEVEL, e) + s == ts;
      assert ts[1..] == inner + s;
      hide Print;
      Undone(UNARY_LEVEL, e.operand, s);
    } else {
      PrimaryStart(e, s);
      NextLevel(UNARY_LEVEL, e);
      hide Print;
      PrimaryUndone(e, s);
    }
  }

  lemma {:induction false} ComparisonUndone(e: Expr, s: seq<Token>)
    requires Expressible(e) && Stops(COMPARE_LEVEL, Head(s))
    ensures Parse(COMPARE_LEVEL, Print(COMPARE_LEVEL, e) + s) == Ok(Parsed(e, s))
    decreases e, Rank(COMPARE_LEVEL, e)
  {
    if LevelOf(e) == COMPARE_LEVEL {
      hide Print;
      PrintOwn(e);
      match e {
        case Binary(op, l, r) =>
          var (t, right) := (OperatorToken(op), Print(SUM_LEVEL, r));
          OperatorRead(op);
          Glue(Print(SUM_LEVEL, l), t, right, s);
          hide Comparison;
          Undone(SUM_LEVEL, l, [t] + (right + s));
          Undone(SUM_LEVEL, r, s);
        case Between(x, lo, hi) =>
          BetweenUndone(e, s);
        case In(x, list) =>
          InUndone(e, s);
      }
    } else {
      NextLevel(COMPARE_LEVEL, e);
      hide Print;
      Undone(SUM_LEVEL, e, s);
    }
  }

  lemma {:induction false} BetweenUndone(e: Expr, s: seq<Token>)
    requires e.Between? && Expressible(e) && Stops(COMPARE_LEVEL, Head(s))
    ensures Parse(COMPARE_LEVEL, Body(e) + s) == Ok(Parsed(e, s))
    decreases e, 0
  {
    var (x, lo, hi) := (Print(SUM_LEVEL, e.subject), Print(SUM_LEVEL, e.min), Print(SUM_LEVEL, e.max));
    hide Print;
    var afterMin := [Word(AND)] + (hi + s);
    var afterX := [Word(BETWEEN)] + (lo + afterMin);
    assert Body(e) + s == x + afterX;
    assert afterX[1..] == lo + afterMin && afterMin[1..] == hi + s;
    hide Body;
    Undone(SUM_LEVEL, e.subject, afterX);
    Undone(SUM_LEVEL, e.min, afterMin);
    Undone(SUM_LEVEL, e.max, s);
  }

  lemma InRead(left: Expr, list: seq<Expr>, printed: seq<Token>, s: seq<Token>)
    requires list == [] ==> printed == []
    requires list != [] ==> printed != [] && printed[0] != Sym(RParen)
    requires list != [] ==> ParseItems(printed + ([Sym(RParen)] + s)) == Ok(Parsed(list, [Sym(RParen)] + s))
    ensures ParseCompared(left, [Word(IN), Sym(LParen)] + (printed + ([Sym(RParen)] + s))) == Ok(Parsed(In(left, list), s))
  {
    hide ParseItems;
    var tail := [Sym(RParen)] + s;
    var ts := [Word(IN), Sym(LParen)] + (printed + tail);
    assert ts[1..] == [Sym(LParen)] + (printed + tail);
    assert ts[1..][1..] == printed + tail && tail[1..] == s;
    assert Comparison(ts[0]).None?;
    hide Comparison;
    if list == [] {
      assert printed + tail == tail;
    } else {
      assert Head(printed + tail) == printed[0];
    }
  }

  lemma {:induction false} InUndone(e: Expr, s: seq<Token>)
    requires e.In? && Expressible(e) && Stops(COMPARE_LEVEL, Head(s))
    ensures Parse(COMPARE_LEVEL, Body(e) + s) == Ok(Parsed(e, s))
    decreases e, 0
  {
    var (x, items) := (Print(SUM_LEVEL, e.subject), PrintItems(e.list));
    var tail := [Sym(RParen)] + s;
    var afterX := [Word(IN), Sym(LParen)] + (items + tail);
    assert Body(e) + s == x + afterX;
    hide Body;
    hide Print;
    Undone(SUM_LEVEL, e.subject, afterX);
    assert Parse(COMPARE_LEVEL, x + afterX) == ParseCompared(e.subject, afterX);
    hide Parse;
    hide ParseCompared;
    if e.list != [] {
      ItemsStart(e.list);
      ItemsUndone(e.list, tail);
    }
    InRead(e.subject, e.list, items, s);
  }

  /** What an expression starts with is never a closing parenthesis. */
  lemma {:induction false} ExprStart(level: nat, e: Expr)
    requires Expressible(e)
    ensures Print(level, e) != [] && Print(level, e)[0] != Sym(RParen)
    decreases e
  {
    match e {
      case Literal(v) => ValueStart(v);
      case FieldRef(path) => PathStart(path);
      case Binary(op, l, r) =>
        ExprStart(if LevelOf(e) == COMPARE_LEVEL then SUM_LEVEL else LevelOf(e), l);
      case Unary(_, x) =>
      case Between(x, lo, hi) => ExprStart(SUM_LEVEL, x);
      case In(x, list) => ExprStart(SUM_LEVEL, x);
    }
  }

  lemma ItemsStart(list: seq<Expr>)
    requires list != [] && Expressible(list[0])
    ensures PrintItems(list) != [] && PrintItems(list)[0] != Sym(RParen)
  {
    ExprStart(OR_LEVEL, list[0]);
  }

  lemma {:induction false} ItemsUndone(list: seq<Expr>, s: seq<Token>)
    requires list != [] && (forall i :: 0 <= i < |list| ==> Expressible(list[i])) && Head(s) == Sym(RParen)
    ensures ParseItems(PrintItems(list) + s) == Ok(Parsed(list, s))
    decreases list, 100
  {
    hide Print;
    hide Expressible;
    var first := Print(OR_LEVEL, list[0]);
    if |list| == 1 {
      Undone(OR_LEVEL, list[0], s);
      hide Parse;
      assert PrintItems(list) + s == first + s;
      assert list == [list[0]];
    } else {
      var tail := [Sym(Comma)] + PrintItems(list[1..]) + s;
      assert PrintItems(list) + s == first + tail;
      assert tail[1..] == PrintItems(list[1..]) + s;
      Undone(OR_LEVEL, list[0], tail);
      hide Parse;
      ItemsUndone(list[1..], s);
      assert list == [list[0]] + list[1..];
    }
  }

  // ---- what the parser can produce ----

  lemma {:induction false} PutWritable(fields: seq<Field>, key: string, v: Value)
    requires AllFieldsWritable(fields) && Writable(v)
    ensures AllFieldsWritable(Put(fields, key, v))
  {
    hide Writable;
    hide KeyLess;
    if fields != [] && fields[0].key != key && !KeyLess(key, fields[0].key) {
      PutWritable(fields[1..], key, v);
    }
  }

  lemma {:induction false} ParsedWritable(ts: seq<Token>)
    ensures ParseValue(ts).Ok? ==> Writable(ParseValue(ts).value.value)
    decreases |ts|, 0
  {
    hide Put;
    if ParseValue(ts).Ok? && Scalar(Head(ts)).None? {
      if Head(ts) == Sym(LBracket) {
        if Head(ts[1..]) != Sym(RBracket) { ParsedAllWritable(ts[1..]); }
      } else {
        if Head(ts[1..]) != Sym(RBrace) { ParsedFieldsWritable([], ts[1..]); }
      }
    }
  }

  lemma {:induction false} ParsedAllWritable(ts: seq<Token>)
    ensures ParseValues(ts).Ok? ==> AllWritable(ParseValues(ts).value.value)
    decreases |ts|, 1
  {
    hide Writable;
    hide ParseValue;
    ParsedWritable(ts);
    var first := ParseValue(ts);
    if first.Ok? && Head(first.value.rest) == Sym(Comma) {
      ParsedAllWritable(first.value.rest[1..]);
    }
  }

  lemma {:induction false} ParsedFieldsWritable(fields: seq<Field>, ts: seq<Token>)
    requires Sorted(fields) && AllFieldsWritable(fields)
    ensures ParseFields(fields, ts).Ok? ==>
              Sorted(ParseFields(fields, ts).value.value) && AllFieldsWritable(ParseFields(fields, ts).value.value)
    decreases |ts|, 1
  {
    hide Writable;
    hide ParseValue;
    hide Put;
    hide KeyLess;
    if ParseFields(fields, ts).Ok? {
      var key := KeyOf(Head(ts)).value;
      var afterColon := Expect(Sym(Colon), ts[1..]).value;
      var v := ParseValue(afterColon).value;
      ParsedWritable(afterColon);
      PutSorted(fields, key, v.value);
      PutWritable(fields, key, v.value);
      if Head(v.rest) == Sym(Comma) {
        ParsedFieldsWritable(Put(fields, key, v.value), v.rest[1..]);
      }
    }
  }

  /** Every expression the parser returns can be printed again, so printing and parsing settle after one round. */
  lemma {:induction false} ParsedExpressible(level: nat, ts: seq<Token>)
    requires level <= PRIMARY_LEVEL
    ensures Parse(level, ts).Ok? ==> Expressible(Parse(level, ts).value.value)
    decreases |ts|, 2, PRIMARY_LEVEL - level
  {
    hide Writable;
    if level == PRIMARY_LEVEL {
      PrimaryExpressible(ts);
    } else if level == UNARY_LEVEL {
      if Prefix(Head(ts)).None? { ParsedExpressible(PRIMARY_LEVEL, ts); } else { ParsedExpressible(UNARY_LEVEL, ts[1..]); }
    } else {
      ParsedExpressible(level + 1, ts);
      var left := Parse(level + 1, ts);
      if left.Ok? {
        if level == COMPARE_LEVEL {
          ComparedExpressible(left.value.value, left.value.rest);
        } else {
          LoopExpressible(level, left.value.value, left.value.rest);
        }
      }
    }
  }

  lemma {:induction false} PrimaryExpressible(ts: seq<Token>)
    ensures ParsePrimary(ts).Ok? ==> Expressible(ParsePrimary(ts).value.value)
    decreases |ts|, 1
  {
    hide Writable;
    hide ParseValue;
    hide Parse;
    if Head(ts) == Sym(LParen) {
      ParsedExpressible(OR_LEVEL, ts[1..]);
    } else if !Head(ts).Ident? {
      ParsedWritable(ts);
    }
  }

  lemma {:induction false} LoopExpressible(level: nat, left: Expr, ts: seq<Token>)
    requires level < UNARY_LEVEL && Expressible(left)
    ensures ParseLoop(level, left, ts).Ok? ==> Expressible(ParseLoop(level, left, ts).value.value)
    decreases |ts|, 1
  {
    hide Writable;
    hide Parse;
    assert OperatorAt(level, Eof).None?;
    hide OperatorAt;
    var op := OperatorAt(level, Head(ts));
    if op.Some? && ts != [] {
      ParsedExpressible(level + 1, ts[1..]);
      var right := Parse(level + 1, ts[1..]);
      if right.Ok? {
        LoopExpressible(level, Binary(op.value, left, right.value.value), right.value.rest);
      }
    }
  }

  lemma {:induction false} ComparedExpressible(left: Expr, ts: seq<Token>)
    requires Expressible(left)
    ensures ParseCompared(left, ts).Ok? ==> Expressible(ParseCompared(left, ts).value.value)
    decreases |ts|, 1
  {
    hide Writable;
    hide Parse;
    assert Comparison(Eof).None?;
    hide Comparison;
    if ParseCompared(left, ts).Ok? && ts != [] {
      if Comparison(ts[0]).Some? {
        ParsedExpressible(SUM_LEVEL, ts[1..]);
      } else if ts[0] == Word(BETWEEN) {
        ParsedExpressible(SUM_LEVEL, ts[1..]);
        var min := Parse(SUM_LEVEL, ts[1..]).value;
        ParsedExpressible(SUM_LEVEL, min.rest[1..]);
      } else if ts[0] == Word(IN) && Head(ts[1..][1..]) != Sym(RParen) {
        ItemsExpressible(ts[1..][1..]);
      }
    }
  }

  lemma {:induction false} ItemsExpressible(ts: seq<Token>)
    ensures ParseItems(ts).Ok? ==>
              forall i :: 0 <= i < |ParseItems(ts).value.value| ==> Expressible(ParseItems(ts).value.value[i])
    decreases |ts|, 3
  {
    hide Expressible;
    hide Parse;
    ParsedExpressible(OR_LEVEL, ts);
    var first := Parse(OR_LEVEL, ts);
    if first.Ok? && Head(first.value.rest) == Sym(Comma) {
      ItemsExpressible(first.value.rest[1..]);
    }
  }
}

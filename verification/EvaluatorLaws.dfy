/** Laws that hold of every evaluation, errors and short-circuiting included. */
module EvaluatorLaws {
  import opened Core
  import opened Values
  import opened Documents
  import opened Ast
  import opened Evaluator

  // ---- integers ----

  /** Quotient and remainder belong together: truncation toward zero, the remainder with the sign of the dividend. */
  lemma DivisionLaw(a: i64, b: i64)
    requires b != 0 && !(a == -0x8000_0000_0000_0000 && b == -1)
    ensures var (q, r) := (Arithmetic(Divide, Int(a), Int(b)), Arithmetic(Modulo, Int(a), Int(b)));
            && q.Ok? && q.value.Int? && r.Ok? && r.value.Int?
            && a as int == b as int * q.value.i as int + r.value.i as int
            && Magnitude(r.value.i) < Magnitude(b)
            && (r.value.i > 0 ==> a > 0) && (r.value.i < 0 ==> a < 0)
  {
    DivisionFits(a, b);
    RemainderBounds(a, b);
    Recombined(a, b);
    hide TruncDiv;
    hide TruncRem;
    hide Wrap;
    hide Magnitude;
  }

  lemma Recombined(a: int, b: int)
    requires b != 0
    ensures a == b * TruncDiv(a, b) + TruncRem(a, b)
  {
    hide TruncDiv;
  }

  lemma RemainderBounds(a: int, b: int)
    requires b != 0
    ensures Magnitude(TruncRem(a, b)) < Magnitude(b)
    ensures (TruncRem(a, b) > 0 ==> a > 0) && (TruncRem(a, b) < 0 ==> a < 0)
  {
    RemainderSign(a, b);
    ModBound(Magnitude(a), Magnitude(b));
    hide TruncRem;
  }

  lemma ModBound(m: nat, n: nat)
    requires n > 0
    ensures m % n < n && (m == 0 ==> m % n == 0)
  {
  }

  lemma DivisionFits(a: i64, b: i64)
    requires b != 0 && !(a == -0x8000_0000_0000_0000 && b == -1)
    ensures Wrap(TruncDiv(a, b)) == TruncDiv(a, b) && Wrap(TruncRem(a, b)) == TruncRem(a, b)
  {
    QuotientSign(a, b);
    QuotientSize(Magnitude(a), Magnitude(b));
    RemainderBounds(a, b);
    FitsUnwrapped(TruncDiv(a, b));
    FitsUnwrapped(TruncRem(a, b));
    hide TruncDiv;
    hide TruncRem;
    hide Wrap;
  }

  lemma FitsUnwrapped(n: int)
    ensures -0x8000_0000_0000_0000 <= n < 0x8000_0000_0000_0000 <==> Wrap(n) == n
  {
  }

  lemma DivMod(m: nat, n: nat)
    requires n > 0
    ensures m == n * (m / n) + m % n && m % n < n
  {
  }

  lemma Growth(n: nat, k: nat)
    requires n > 0
    ensures k <= n * k && (n > 1 ==> 2 * k <= n * k) && (n == 1 ==> n * k == k)
  {
    if n == 1 {
    } else if n == 2 {
    } else {
      assert n * k == 2 * k + (n - 2) * k;
    }
  }

  lemma SignsCancel(n: int, k: int)
    ensures (-k) * n == -(n * k) && k * (-n) == -(n * k) && (-k) * (-n) == n * k
  {
  }

  lemma QuotientSize(m: nat, n: nat)
    requires n > 0
    ensures m / n <= m && (n > 1 ==> 2 * (m / n) <= m) && (n == 1 ==> m / n == m)
  {
    DivMod(m, n);
    Growth(n, m / n);
  }

  lemma RemainderSign(a: int, b: int)
    requires b != 0
    ensures TruncRem(a, b) == if a < 0 then 0 - Magnitude(a) % Magnitude(b) else Magnitude(a) % Magnitude(b)
  {
    DivMod(Magnitude(a), Magnitude(b));
    ProductSign(a, b);
    hide TruncDiv;
  }

  lemma QuotientSign(a: int, b: int)
    requires b != 0
    ensures TruncDiv(a, b) == if (a < 0) != (b < 0) then 0 - Magnitude(a) / Magnitude(b) else Magnitude(a) / Magnitude(b)
  {
  }

  lemma ProductSign(a: int, b: int)
    requires b != 0
    ensures var nk := Magnitude(b) * (Magnitude(a) / Magnitude(b)); TruncDiv(a, b) * b == if a < 0 then 0 - nk else nk
  {
    QuotientSign(a, b);
    SignsCancel(Magnitude(b), Magnitude(a) / Magnitude(b));
    hide TruncDiv;
  }

  lemma WrapShifted(n: i64)
    ensures Wrap(n as int + I64_MOD) == n && Wrap(n as int - I64_MOD) == n && Wrap(n) == n
  {
  }

  lemma WrapNear(n: int)
    requires -I64_MOD <= n < I64_MOD
    ensures Wrap(n) == if n < -0x8000_0000_0000_0000 then n + I64_MOD else if n < 0x8000_0000_0000_0000 then n else n - I64_MOD
  {
  }

  /** Wrapped addition is undone by wrapped subtraction, and is exact iff the sum fits 64 bits. */
  lemma SubtractionUndoesAddition(a: i64, b: i64)
    ensures var sum := Arithmetic(Plus, Int(a), Int(b));
            && sum.Ok? && sum.value.Int?
            && Arithmetic(Minus, sum.value, Int(b)) == Ok(Int(a))
            && (sum.value.i as int == a as int + b as int <==> -0x8000_0000_0000_0000 <= a as int + b as int < 0x8000_0000_0000_0000)
  {
    WrapNear(a as int + b as int);
    WrapShifted(a);
    hide Wrap;
  }

  // ---- logic ----

  /** De Morgan, with the same short-circuiting and the same errors. */
  lemma DeMorgan(x: Expr, y: Expr, doc: Document)
    ensures Eval(Unary(Not, Binary(And, x, y)), doc) == Eval(Binary(Or, Unary(Not, x), Unary(Not, y)), doc)
    ensures Eval(Unary(Not, Binary(Or, x, y)), doc) == Eval(Binary(And, Unary(Not, x), Unary(Not, y)), doc)
  {
  }

  /** BETWEEN is the conjunction of its two bounds, except that it also evaluates the upper one when the lower fails. */
  lemma BetweenUnfolds(x: Expr, lo: Expr, hi: Expr, doc: Document)
    ensures var both := Binary(And, Binary(GtEq, x, lo), Binary(LtEq, x, hi));
            Eval(Between(x, lo, hi), doc) == Eval(both, doc)
            <==> Eval(hi, doc).Ok? || Eval(x, doc).Err? || Eval(lo, doc).Err? || Eval(Binary(Lt, x, lo), doc) == Ok(Bool(false))
  {
    hide Cmp;
    hide Eq;
    var (v, l, h) := (Eval(x, doc), Eval(lo, doc), Eval(hi, doc));
    if v.Ok? && l.Ok? {
      assert Eval(Binary(GtEq, x, lo), doc) == Ok(Bool(Test(GtEq, v.value, l.value)));
      assert Eval(Binary(Lt, x, lo), doc) == Ok(Bool(Test(Lt, v.value, l.value)));
    }
  }

  /** The chain `x == a || x == b || ...` of a list. */
  function EqualsAny(x: Expr, list: seq<Expr>): Expr
    requires list != []
  {
    var first := Binary(Equals, x, list[0]);
    if |list| == 1 then first else Binary(Or, first, EqualsAny(x, list[1..]))
  }

  lemma {:induction false} InIsBool(v: Value, list: seq<Expr>, doc: Document)
    ensures EvalIn(v, list, doc).Ok? ==> EvalIn(v, list, doc).value.Bool?
    decreases |list|
  {
    hide Eq;
    if list != [] {
      InIsBool(v, list[1..], doc);
    }
  }

  /** A list that is not empty: IN is the chain of its equalities, with the same short-circuiting and the same errors. */
  lemma {:induction false} InUnfolds(x: Expr, list: seq<Expr>, doc: Document)
    requires list != []
    ensures Eval(In(x, list), doc) == Eval(EqualsAny(x, list), doc)
    decreases |list|
  {
    hide Eq;
    var v := Eval(x, doc);
    if v.Err? {
      assert Eval(Binary(Equals, x, list[0]), doc) == v;
    } else {
      assert Eval(In(x, list), doc) == EvalIn(v.value, list, doc);
      if |list| == 1 {
        assert EvalIn(v.value, list[1..], doc) == Ok(Bool(false));
      } else {
        InUnfolds(x, list[1..], doc);
        assert Eval(In(x, list[1..]), doc) == EvalIn(v.value, list[1..], doc);
        InIsBool(v.value, list[1..], doc);
      }
    }
  }

  // ---- panics ----

  /** The expression divides somewhere, or takes a remainder. */
  predicate Divides(e: Expr) {
    match e
    case Literal(_) => false
    case FieldRef(_) => false
    case Unary(_, inner) => Divides(inner)
    case Binary(op, left, right) => op == Divide || op == Modulo || Divides(left) || Divides(right)
    case Between(subject, min, max) => Divides(subject) || Divides(min) || Divides(max)
    case In(subject, list) => Divides(subject) || exists i :: 0 <= i < |list| && Divides(list[i])
  }

  /** Only a division or a remainder can panic, whatever the document. */
  lemma {:induction false} UndividedNeverPanics(e: Expr, doc: Document)
    requires !Divides(e)
    ensures Eval(e, doc) != Err(Panicked)
    decreases e, 1
  {
    match e {
      case Literal(_) =>
      case FieldRef(_) =>
      case Unary(_, inner) => UndividedNeverPanics(inner, doc);
      case Binary(_, left, right) =>
        UndividedNeverPanics(left, doc);
        UndividedNeverPanics(right, doc);
      case Between(subject, min, max) =>
        UndividedNeverPanics(subject, doc);
        UndividedNeverPanics(min, doc);
        UndividedNeverPanics(max, doc);
      case In(subject, list) =>
        UndividedNeverPanics(subject, doc);
        if Eval(subject, doc).Ok? { UndividedListNeverPanics(Eval(subject, doc).value, list, doc); }
    }
  }

  lemma {:induction false} UndividedListNeverPanics(v: Value, list: seq<Expr>, doc: Document)
    requires forall i :: 0 <= i < |list| ==> !Divides(list[i])
    ensures EvalIn(v, list, doc) != Err(Panicked)
    decreases list, 0
  {
    if list != [] {
      UndividedNeverPanics(list[0], doc);
      UndividedListNeverPanics(v, list[1..], doc);
    }
  }

  /** An input: the filter `x / -1 > 0` panics exactly on the documents whose `x` is the smallest integer. */
  lemma PanickingFilter(doc: Document)
    ensures var filter := Binary(Gt, Binary(Divide, FieldRef("x"), Literal(Int(-1))), Literal(Int(0)));
            MatchesFilter(Some(filter), doc) == Err(Panicked) <==> FieldValue(doc, "x") == Some(Int(-0x8000_0000_0000_0000))
  {
    hide FieldValue;
    hide FloatDiv;
    hide IntToFloat;
    hide TruncDiv;
    var quotient := Binary(Divide, FieldRef("x"), Literal(Int(-1)));
    assert Eval(quotient, doc) == Arithmetic(Divide, ReadField(doc, "x"), Int(-1));
  }
}

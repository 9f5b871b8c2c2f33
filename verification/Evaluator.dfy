/** Evaluation of NQL expressions against documents (crates/nova-query/src/evaluator.rs). */
module Evaluator {
  import opened Core
  import opened Values
  import opened Documents
  import opened Ast

  // ---- arithmetic ----

  const I64_MOD := 0x1_0000_0000_0000_0000

  /** Two's-complement wrap-around, as release builds compute. */
  function Wrap(n: int): i64 {
    var m := n % I64_MOD;
    if m < 0x8000_0000_0000_0000 then m else m - I64_MOD
  }

  /** Rust's `/` and `%` truncate toward zero; `i64::MIN / -1` panics. */
  function TruncDiv(a: int, b: int): int
    requires b != 0
  {
    var q := Magnitude(a) / Magnitude(b);
    if (a < 0) != (b < 0) then -q else q
  }

  function TruncRem(a: int, b: int): int
    requires b != 0
  {
    a - TruncDiv(a, b) * b
  }

  function DivInt(a: i64, b: i64): Result<Value> {
    if b == 0 then Err(InvalidQuery)
    else if a == -0x8000_0000_0000_0000 && b == -1 then Err(Panicked)
    else Ok(Int(Wrap(TruncDiv(a, b))))
  }

  function RemInt(a: i64, b: i64): Result<Value> {
    if b == 0 then Err(InvalidQuery)
    else if a == -0x8000_0000_0000_0000 && b == -1 then Err(Panicked)
    else Ok(Int(Wrap(TruncRem(a, b))))
  }

  const QUIET_NAN := NaN(false, 0)

  function IsNegative(f: Float): bool {
    match f
    case Finite(v) => v < 0.0
    case _ => f.negative
  }

  function FromReal(r: real): Float {
    if r == 0.0 then Zero(false) else Finite(r)
  }

  function FloatNeg(f: Float): Float {
    match f
    case Finite(v) => FromReal(-(v as real))
    case NaN(neg, bits) => NaN(!neg, bits)
    case Inf(neg) => Inf(!neg)
    case Zero(neg) => Zero(!neg)
  }

  /** Addition over the reals, with the special values of IEEE 754. */
  function FloatAdd(a: Float, b: Float): Float {
    match (a, b)
    case (NaN(_, _), _) => a
    case (_, NaN(_, _)) => b
    case (Inf(x), Inf(y)) => if x == y then a else QUIET_NAN
    case (Inf(_), _) => a
    case (_, Inf(_)) => b
    case (Zero(x), Zero(y)) => Zero(x && y)
    case (Zero(_), _) => b
    case (_, Zero(_)) => a
    case (Finite(x), Finite(y)) => FromReal(x + y)
  }

  function FloatMul(a: Float, b: Float): Float {
    var neg := IsNegative(a) != IsNegative(b);
    match (a, b)
    case (NaN(_, _), _) => a
    case (_, NaN(_, _)) => b
    case (Inf(_), Zero(_)) => QUIET_NAN
    case (Zero(_), Inf(_)) => QUIET_NAN
    case (Inf(_), _) => Inf(neg)
    case (_, Inf(_)) => Inf(neg)
    case (Zero(_), _) => Zero(neg)
    case (_, Zero(_)) => Zero(neg)
    case (Finite(x), Finite(y)) => FromReal(x * y)
  }

  function FloatDiv(a: Float, b: Float): Float {
    var neg := IsNegative(a) != IsNegative(b);
    match (a, b)
    case (NaN(_, _), _) => a
    case (_, NaN(_, _)) => b
    case (Inf(_), Inf(_)) => QUIET_NAN
    case (Zero(_), Zero(_)) => QUIET_NAN
    case (Inf(_), _) => Inf(neg)
    case (_, Inf(_)) => Zero(neg)
    case (Zero(_), _) => Zero(neg)
    case (_, Zero(_)) => Inf(neg)
    case (Finite(x), Finite(y)) => FromReal(x / y)
  }

  function AsFloat(v: Value): Float
    requires v.Int? || v.Float?
  {
    if v.Int? then IntToFloat(v.i) else v.f
  }

  predicate IsNumber(v: Value) {
    v.Int? || v.Float?
  }

  function Arithmetic(op: BinaryOp, a: Value, b: Value): Result<Value>
    requires op.Plus? || op.Minus? || op.Multiply? || op.Divide? || op.Modulo?
  {
    if a.Int? && b.Int? then
      match op
      case Plus => Ok(Int(Wrap(a.i + b.i)))
      case Minus => Ok(Int(Wrap(a.i - b.i)))
      case Multiply => Ok(Int(Wrap(a.i * b.i)))
      case Divide => DivInt(a.i, b.i)
      case Modulo => RemInt(a.i, b.i)
    else if IsNumber(a) && IsNumber(b) && op != Modulo then
      var (x, y) := (AsFloat(a), AsFloat(b));
      match op
      case Plus => Ok(Float(FloatAdd(x, y)))
      case Minus => Ok(Float(FloatAdd(x, FloatNeg(y))))
      case Multiply => Ok(Float(FloatMul(x, y)))
      case Divide => Ok(Float(FloatDiv(x, y)))
    else if a.String? && b.String? && op == Plus then
      Ok(String(a.s + b.s))
    else
      Err(InvalidQuery)
  }

  // ---- evaluation ----

  /** `is_truthy`. */
  predicate Truthy(v: Value) {
    match v
    case Null => false
    case Bool(b) => b
    case Int(i) => i != 0
    case Float(f) => !f.Zero? && !f.NaN?
    case String(s) => s != ""
    case Bytes(b) => b != []
    case Array(a) => a != []
    case Object(o) => o != []
    case Timestamp(t) => t != 0
    case Uuid(_) => true
  }

  predicate IsComparison(op: BinaryOp) {
    op.Equals? || op.NotEquals? || op.Gt? || op.GtEq? || op.Lt? || op.LtEq?
  }

  /** The verdict of a comparison operator on two values. */
  predicate Test(op: BinaryOp, a: Value, b: Value)
    requires IsComparison(op)
  {
    match op
    case Equals => Eq(a, b)
    case NotEquals => !Eq(a, b)
    case Gt => Cmp(a, b) == Greater
    case GtEq => Cmp(a, b) == Greater || Cmp(a, b) == Equal
    case Lt => Cmp(a, b) == Less
    case LtEq => Cmp(a, b) == Less || Cmp(a, b) == Equal
  }

  predicate TestBetween(v: Value, min: Value, max: Value) {
    Cmp(v, min) != Less && Cmp(v, max) != Greater
  }

  /** A field reference: the document id for `id` and `_id`, Null for a field that is not there. */
  function ReadField(doc: Document, path: string): Value {
    if IsIdPath(path) then String(doc.id)
    else match FieldValue(doc, path)
      case Some(v) => v
      case None => Null
  }

  /** `Evaluator::eval`. */
  function Eval(e: Expr, doc: Document): Result<Value>
    decreases e, 1
  {
    match e
    case Literal(v) => Ok(v)
    case FieldRef(path) => Ok(ReadField(doc, path))
    case Unary(op, inner) =>
      var v :- Eval(inner, doc);
      if op == Not then Ok(Bool(!Truthy(v)))
      else (match v
            case Int(i) => Ok(Int(Wrap(-(i as int))))
            case Float(f) => Ok(Float(FloatNeg(f)))
            case _ => Err(TypeError))
    case Binary(op, left, right) =>
      var l :- Eval(left, doc);
      if op == And then
        if !Truthy(l) then Ok(Bool(false))
        else var r :- Eval(right, doc); Ok(Bool(Truthy(r)))
      else if op == Or then
        if Truthy(l) then Ok(Bool(true))
        else var r :- Eval(right, doc); Ok(Bool(Truthy(r)))
      else
        var r :- Eval(right, doc);
        if IsComparison(op) then Ok(Bool(Test(op, l, r))) else Arithmetic(op, l, r)
    case Between(subject, min, max) =>
      var v :- Eval(subject, doc);
      var lo :- Eval(min, doc);
      var hi :- Eval(max, doc);
      Ok(Bool(TestBetween(v, lo, hi)))
    case In(subject, list) =>
      var v :- Eval(subject, doc);
      EvalIn(v, list, doc)
  }

  /** The items in turn, up to the first that equals `v`. */
  function EvalIn(v: Value, list: seq<Expr>, doc: Document): Result<Value>
    decreases list, 0
  {
    if list == [] then Ok(Bool(false))
    else
      var item :- Eval(list[0], doc);
      if Eq(v, item) then Ok(Bool(true)) else EvalIn(v, list[1..], doc)
  }

  /** `Evaluator::matches_filter`. */
  function MatchesFilter(filter: Option<Expr>, doc: Document): Result<bool> {
    match filter
    case None => Ok(true)
    case Some(e) => var v :- Eval(e, doc); Ok(Truthy(v))
  }

  // ---- assignments ----

  /** The document after the assignments that went through, and whether all of them did. */
  function Assigned(doc: Document, assignments: seq<Assignment>): (Result<()>, Document)
    decreases |assignments|
  {
    if assignments == [] then (Ok(()), doc)
    else match Eval(assignments[0].expr, doc)
      case Err(code) => (Err(code), doc)
      case Ok(v) =>
        if IsIdPath(assignments[0].field) then (Err(InvalidQuery), doc)
        else Assigned(doc.(fields := Put(doc.fields, assignments[0].field, v)), assignments[1..])
  }

  /** `apply_assignments` on a mutable document; the new version and time only appear if nothing failed. */
  function AssignmentsApplied(doc: Document, assignments: seq<Assignment>, now: i64): (Result<()>, Document) {
    var (res, changed) := Assigned(doc, assignments);
    if res.Ok? then (res, changed.(version := changed.version + 1, updatedAt := now)) else (res, changed)
  }

  /** `Evaluator::apply_assignments`, with the clock as a parameter and the changed document as a result. */
  method ApplyAssignments(doc: Document, assignments: seq<Assignment>, now: i64) returns (res: Result<()>, changed: Document)
    ensures (res, changed) == AssignmentsApplied(doc, assignments, now)
  {
    changed := doc;
    var i := 0;
    while i < |assignments|
      invariant i <= |assignments|
      invariant Assigned(doc, assignments) == Assigned(changed, assignments[i..])
    {
      var assign := assignments[i];
      assert assignments[i..][1..] == assignments[i + 1..];
      match Eval(assign.expr, changed) {
        case Err(code) => return Err(code), changed;
        case Ok(v) =>
          if IsIdPath(assign.field) { return Err(InvalidQuery), changed; }
          changed := changed.(fields := Put(changed.fields, assign.field, v));
      }
      i := i + 1;
    }
    changed := changed.(version := changed.version + 1, updatedAt := now);
    return Ok(()), changed;
  }

  lemma {:induction false} AssignedKeepsId(doc: Document, assignments: seq<Assignment>)
    ensures Assigned(doc, assignments).1.id == doc.id
    decreases |assignments|
  {
    if assignments != [] && Eval(assignments[0].expr, doc).Ok? && !IsIdPath(assignments[0].field) {
      var v := Eval(assignments[0].expr, doc).value;
      AssignedKeepsId(doc.(fields := Put(doc.fields, assignments[0].field, v)), assignments[1..]);
    }
  }
}

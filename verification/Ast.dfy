/** The expressions of NQL (crates/nova-query/src/ast.rs). */
module Ast {
  import opened Values

  datatype BinaryOp = Equals | NotEquals | Gt | GtEq | Lt | LtEq | And | Or | Plus | Minus | Multiply | Divide | Modulo

  datatype UnaryOp = Not | Negate

  datatype Expr =
    | Literal(value: Value)
    | FieldRef(path: string)
    | Binary(op: BinaryOp, left: Expr, right: Expr)
    | Unary(uop: UnaryOp, operand: Expr)
    | In(subject: Expr, list: seq<Expr>)
    | Between(subject: Expr, min: Expr, max: Expr)

  datatype Assignment = Assignment(field: string, expr: Expr)

  datatype SortDirection = Asc | Desc

  datatype SortClause = SortClause(field: string, direction: SortDirection)
}

/** Syntax trees. Both kinds of node are immutable values; a node owns its children. */
module Ast {
  import opened Results
  import opened Values
  import opened Tokens

  /** The expression nodes that the parser builds. */
  datatype Expr =
    | Literal(value: Value)
    | Grouping(expression: Expr)
    | Unary(operator: Token, right: Expr)
    | Binary(left: Expr, operator: Token, right: Expr)

  /** The four statement nodes. A `Block` holds exactly the statement list it was built
      from, in order; a `Var` may lack an initializer. */
  datatype Stmt =
    | Block(statements: seq<Stmt>)
    | Expression(expression: Expr)
    | Var(name: Token, initializer: Option<Expr>)
    | Print(expression: Expr)
}

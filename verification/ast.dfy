/** The syntax tree the parser builds and the bytecode generator walks. */
module Ast {
  import opened Wrappers
  import opened Syntax

  datatype Expr =
    | Literal(token: Token)
    | IdentifierName(token: Token)
    | Parenthesized(expression: Expr)
    | UnaryOp(operand: Expr, operator: Token)
    | BinaryOp(left: Expr, operator: Token, right: Expr)
    | AssignmentOp(left: Expr, operator: Token, right: Expr)
    | NoOp
      /** Type references are expressions too: `SingularType` and `NoOpType`. */
    | SingularTypeRef(token: Token)
    | NoOpType

  datatype Stmt =
    | ExpressionStatement(expression: Expr)
    | VariableDeclaration(name: Token, initializer: Option<Expr>, typeRef: Option<Expr>, isMutable: bool)
    | Block(statements: seq<Stmt>)
    | NoOpStatement

  datatype SyntaxTree = SyntaxTree(statements: seq<Stmt>)
}

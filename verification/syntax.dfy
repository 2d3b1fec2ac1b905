/** The C# syntax the transformer consumes, reduced to the node types it
    dispatches on. The parser that produces these trees is not modelled:
    callers supply a `Parser`. */
module Syntax {

  /** `SyntaxKind` of a `LiteralExpressionSyntax`; `OtherLiteral` covers the
      remaining literal kinds (`default`, `__arglist`, UTF-8 strings). */
  datatype LiteralKind =
    | NumericLiteral
    | StringLiteral
    | CharacterLiteral
    | TrueLiteral
    | FalseLiteral
    | NullLiteral
    | OtherLiteral(name: string)

  /** `SyntaxKind` of a `BinaryExpressionSyntax`; `OtherBinary` covers `%`,
      comparisons, logical and bitwise operators, `??`, `is`, `as`. */
  datatype BinaryKind =
    | AddExpression
    | SubtractExpression
    | MultiplyExpression
    | DivideExpression
    | OtherBinary(name: string)

  /** The two kinds of `MemberAccessExpressionSyntax`: `a.b` and `a->b`. */
  datatype AccessKind = SimpleMemberAccess | ArrowMemberAccess

  /** An `ExpressionSyntax`. `text` of a literal is its token text, without
      trivia; identifiers and member names are their value text (no `@`).
      `OtherSyntax` is any node type the transformer does not handle
      (parentheses, unary operators, assignments, `this`, `new`, ...); its
      children are irrelevant because it is never descended into. */
  datatype Expr =
    | Literal(kind: LiteralKind, text: string)
    | Binary(op: BinaryKind, left: Expr, right: Expr)
    | IdentifierName(identifier: string)
    | MemberAccess(access: AccessKind, target: Expr, name: string)
    | Invocation(callee: Expr, arguments: seq<Expr>)
    | OtherSyntax(name: string)

  /** A child node of a statement: an expression or something else
      (an attribute list, say). */
  datatype ChildNode = ExpressionChild(expr: Expr) | OtherChild(name: string)

  /** An `ExpressionStatementSyntax` with its child nodes in order. */
  datatype Statement = ExpressionStatement(children: seq<ChildNode>)

  /** A node of the parsed tree in `DescendantNodes()` order. */
  datatype DescendantNode = ExpressionStatementNode(statement: Statement) | OtherNode(name: string)

  /** What parsing a text yields: its diagnostics and its descendant nodes. */
  datatype SyntaxTree = SyntaxTree(diagnostics: seq<string>, descendants: seq<DescendantNode>)

  /** `CSharpSyntaxTree.ParseText` in script mode, a deterministic function
      of the text. */
  type Parser = string -> SyntaxTree

  predicate IsExpressionChild(c: ChildNode) {
    c.ExpressionChild?
  }

  predicate IsExpressionStatement(d: DescendantNode) {
    d.ExpressionStatementNode?
  }

  /** The identifiers occurring anywhere in `e`. */
  function Names(e: Expr): set<string>
  {
    match e
    case Literal(_, _) => {}
    case Binary(_, l, r) => Names(l) + Names(r)
    case IdentifierName(id) => {id}
    case MemberAccess(_, t, _) => Names(t)
    case Invocation(c, args) => Names(c) + NamesOfAll(args)
    case OtherSyntax(_) => {}
  }

  function NamesOfAll(args: seq<Expr>): set<string>
  {
    if |args| == 0 then {} else Names(args[0]) + NamesOfAll(args[1..])
  }
}

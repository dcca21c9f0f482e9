/** The expression language of kaleidoscope/functional_programming_language. */
module KaleidoscopeAst {
  import opened Wrappers

  /** A machine double. Nothing is assumed about it: every theorem holds for any floating-point arithmetic. */
  type Double(==, !new)

  /** One entry of a var list; a missing initializer means 0.0. */
  datatype Binding = Binding(name: string, init: Option<Expr>)

  datatype Expr =
    | Number(val: Double)
    | Variable(name: string)
    | Unary(opcode: char, operand: Expr)
    | Binary(op: char, lhs: Expr, rhs: Expr)
    | Call(callee: string, args: seq<Expr>)
    | If(cond: Expr, thn: Expr, els: Expr)
    | For(varName: string, start: Expr, end: Expr, step: Option<Expr>, body: Expr)
    | VarIn(vars: seq<Binding>, body: Expr)

  /** The name under which a user-defined unary operator is called. */
  function UnaryName(op: char): string {
    "unary" + [op]
  }

  /** The name under which a user-defined binary operator is called. */
  function BinaryName(op: char): string {
    "binary" + [op]
  }

  /** The operators the code generator emits instructions for; every other one is a call. */
  predicate IsBuiltin(op: char) {
    op == '+' || op == '-' || op == '*' || op == '<'
  }

  function BoundNames(vars: seq<Binding>): (names: set<string>)
  {
    set b | b in vars :: b.name
  }
}

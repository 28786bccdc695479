/**
 * The abstract syntax the parser produces: expressions, prototypes and
 * functions, as declared at the top of the parser.
 */
module Ast {
  import opened Options
  import Lexer

  datatype Expr =
    | Binary(op: char, left: Expr, right: Expr)
    | Call(callee: string, args: seq<Expr>)
    | Conditional(cond: Expr, consequence: Expr, alternative: Expr)
    | For(varName: string, start: Expr, end: Expr, step: Option<Expr>, body: Expr)
    | Number(value: Lexer.Num)
    | Variable(name: string)
    | VarIn(bindings: seq<Binding>, body: Expr)

  /** One `name [= initializer]` entry of a `var..in` expression. */
  datatype Binding = Binding(name: string, init: Option<Expr>)

  /** A function's name and parameters; `prec` is the declared precedence of a binary operator. */
  datatype Prototype = Prototype(name: string, args: seq<string>, isOp: bool, prec: nat)

  /** A definition (`body` present), an extern (`body` absent) or a wrapped top-level expression (`isAnon`). */
  datatype Function = Function(proto: Prototype, body: Option<Expr>, isAnon: bool)

  /** The function name a user-defined unary operator `op` is declared and called under. */
  function UnaryName(op: char): (name: string)
    ensures |name| == 6 && name[..5] == "unary" && name[5] == op
  {
    "unary" + [op]
  }

  /** The function name a user-defined binary operator `op` is declared and called under. */
  function BinaryName(op: char): (name: string)
    ensures |name| == 7 && name[..6] == "binary" && name[6] == op
  {
    "binary" + [op]
  }
}

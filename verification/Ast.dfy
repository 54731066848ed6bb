/** The syntax tree built by the parser, without source positions. */
module Ast {
  import opened Wrappers
  import opened Tokens
  import Values

  datatype Literal =
    | Bool(b: bool)
    | Int(n: Values.I64)
    | Float(lex: string)
    | Str(lex: string)

  datatype Expr =
    | Lit(lit: Literal)
    | Ident(name: string)
    | Variable(final: bool, name: string, value: Expr)
    | Block(exprs: seq<Expr>)
    | If(cond: Expr, thn: Expr, els: Option<Expr>)
    | While(cond: Expr, body: Expr)
    | Binary(left: Expr, op: TKind, right: Expr)
    | Unary(op: TKind, right: Expr)
    | Call(callee: Expr, args: seq<Expr>)

  datatype Param = Param(name: string, typ: string)
  datatype Member = Member(name: string, typ: string, mutable: bool)
  datatype Function =
    Function(name: string, params: seq<Param>, retType: Option<string>, body: Option<Expr>)
  datatype Class =
    Class(name: string, members: seq<Member>, methods: seq<Function>, functions: seq<Function>)
  datatype Module = Module(functions: seq<Function>, classes: seq<Class>)
}

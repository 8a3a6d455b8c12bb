/** The syntax tree of the compiler (`src/compiler/ast/mod.rs`). */
module Ast {
  datatype BinOp = Add | Sub | Mul | Div | Eq | Lt | Gt | BitAnd | BitOr | BitXor

  /** The constructors whose operands are all expressions, evaluated from left to right; each has the
      fixed number of operands that `Arity` gives. */
  datatype PrimOp =
    | Binary(op: BinOp)
    | Len | Cat | SubStr | Loc | Reg | Read | Write | Str | Split
    | TimeNow | TimeNano | TimeZone | TimeGet | TimeSet | TimeArith(op: BinOp)
    | Env | Seq | OtelEmit
    | MoneyArith(op: BinOp) | MoneyStr
    | Panic | HttpClient | HttpServer | HttpHeader | FileOpen

  function Arity(op: PrimOp): nat {
    match op
    case TimeNow | TimeNano | TimeZone => 0
    case Len | Read | Str | Env | MoneyStr | Panic => 1
    case SubStr | Split | HttpClient => 3
    case OtelEmit => 4
    case TimeSet => 6
    case _ => 2
  }

  datatype Param = Param(name: string, expand: bool)

  datatype Exprs = Nil | Cons(head: Expr, tail: Exprs)

  datatype Expr =
    | Integer(value: int)
    | DeBruijn(idx: nat)
    | Identifier(name: string)
    | Text(text: string)
    | Expand(name: string)
    | Prim(op: PrimOp, args: Exprs)
    | Apply(func: Expr, args: Exprs)
    | Move(inner: Expr)
    | Borrow(inner: Expr)
    | MutBorrow(inner: Expr)
    | Define(name: string, params: seq<Param>, body: Expr, exported: bool)
    | Shape(name: string, fields: seq<string>, exported: bool)
    | New(shape: string, count: Expr)
    | Get(inst: Expr, field: string, index: Expr)
    | Set(inst: Expr, field: string, index: Expr, val: Expr)
    | If(cond: Expr, thn: Expr, els: Expr)
    | Let(name: string, val: Expr, body: Expr)
    | Import(mod: string, symbol: string, arity: nat)
    | Pack(inst: Expr)
    | Unpack(json: Expr, shape: string)
    | Map(inst: Expr, field: string, func: Expr)
    | Filter(inst: Expr, func: Expr)
    | Metadata(tag: Expr, val: Expr, target: Expr)
    | Trap(attempt: Expr, fallback: Expr)

  function Length(es: Exprs): nat {
    match es
    case Nil => 0
    case Cons(_, tail) => 1 + Length(tail)
  }
}

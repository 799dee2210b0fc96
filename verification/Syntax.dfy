/** The statements, expressions and patterns of the modelled subset, with the
    values they compute and the static types the checker gives them. */
module Syntax {
  import opened Wrappers

  /** Source-level values. Nothing in the subset updates a list in place, so a
      list is a value here; the machine keeps it in a heap cell. */
  datatype Value =
    | VInt(i: int)
    | VBool(b: bool)
    | VTuple(elems: seq<Value>)
    | VList(elems: seq<Value>)

  datatype Type =
    | TInt
    | TBool
    | TTuple(elems: seq<Type>)
    | TList(elem: Type)

  datatype BinOp = Add | Sub | Mul | FloorDivide | Modulo | BitXor
  datatype CmpOp = Eq | Ne | Lt | Le | Gt | Ge

  datatype Expr =
    | IntLit(n: int)
    | BoolLit(b: bool)
    | Name(x: string)
    | Neg(arg: Expr)
    | Pos(arg: Expr)
    | Invert(arg: Expr)
    | Not(arg: Expr)
    | Binary(op: BinOp, left: Expr, right: Expr)
    | Compare(first: Expr, ops: seq<CmpOp>, rest: seq<Expr>)
    | BoolOp(isAnd: bool, left: Expr, right: Expr)
    | IfExp(body: Expr, cond: Expr, orelse: Expr)
    | TupleLit(elems: seq<Expr>)
    | ListLit(elems: seq<Expr>, elem: Type)

  /** A sequence pattern keeps its elements before the star, the star's name and
      its elements after the star apart; without a star `after` is empty. */
  datatype Pattern =
    | Wildcard
    | Capture(x: string)
    | As(pat: Pattern, x: string)
    | Or(alts: seq<Pattern>)
    | ValuePat(lit: Expr)
    | SeqPat(before: seq<Pattern>, star: Option<string>, after: seq<Pattern>)

  datatype Target = NameTarget(x: string) | TupleTarget(xs: seq<string>)

  datatype Stmt =
    | Assign(x: string, e: Expr)
    | AugAssign(x: string, op: BinOp, e: Expr)
    | ChainAssign(xs: seq<string>, e: Expr)
    | Unpack(xs: seq<string>, es: seq<Expr>)
    | UnpackTuple(xs: seq<string>, e: Expr)
    | ExprStmt(e: Expr)
    | If(cond: Expr, body: seq<Stmt>, orelse: seq<Stmt>)
    | While(cond: Expr, body: seq<Stmt>, orelse: seq<Stmt>)
    | ForRange(x: string, start: Option<Expr>, stop: Expr, step: int, body: seq<Stmt>, orelse: seq<Stmt>)
    | ForEach(target: Target, iter: Expr, body: seq<Stmt>, orelse: seq<Stmt>)
    | Break
    | Continue
    | Pass
    | Match(subject: Expr, cases: seq<Case>)

  datatype Case = Case(pat: Pattern, guard: Option<Expr>, body: seq<Stmt>)

  predicate IsFor(s: Stmt) {
    s.ForRange? || s.ForEach?
  }

  function LoopTarget(s: Stmt): Target
    requires IsFor(s)
  {
    if s.ForRange? then NameTarget(s.x) else s.target
  }

  /** `""` and `_` are not variables in a pattern. */
  predicate Binds(x: string) {
    x != "" && x != "_"
  }

  /** The value expressions a pattern may hold: a literal or a signed integer. */
  predicate IsLiteral(e: Expr) {
    e.IntLit? || e.BoolLit? || ((e.Neg? || e.Pos?) && e.arg.IntLit?)
  }

  function LiteralValue(e: Expr): Value
    requires IsLiteral(e)
  {
    match e
    case IntLit(n) => VInt(n)
    case BoolLit(b) => VBool(b)
    case Neg(arg) => VInt(-arg.n)
    case Pos(arg) => VInt(arg.n)
  }
}

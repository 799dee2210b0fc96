/** The checker's rules for the subset (compiler/check_expr.go,
    compiler/check_stmt.go): every name has one declared type. */
module Typing {
  import opened Wrappers
  import opened Syntax

  type Types = map<string, Type>

  function TypeOf(g: Types, e: Expr): Option<Type>
    decreases e, 1
  {
    match e
    case IntLit(_) => Some(TInt)
    case BoolLit(_) => Some(TBool)
    case Name(x) => if x in g then Some(g[x]) else None
    case Neg(arg) => if TypeOf(g, arg) == Some(TInt) then Some(TInt) else None
    case Pos(arg) => if TypeOf(g, arg) == Some(TInt) then Some(TInt) else None
    case Invert(arg) => if TypeOf(g, arg) == Some(TInt) then Some(TInt) else None
    case Not(arg) => if TypeOf(g, arg) == Some(TBool) then Some(TBool) else None
    case Binary(_, left, right) =>
      if TypeOf(g, left) == TypeOf(g, right) == Some(TInt) then Some(TInt) else None
    case Compare(first, ops, rest) =>
      if |ops| == |rest| > 0 && IsScalar(TypeOf(g, first)) && AllTyped(g, rest, TypeOf(g, first).value)
      then Some(TBool) else None
    case BoolOp(_, left, right) =>
      if TypeOf(g, left) == TypeOf(g, right) == Some(TBool) then Some(TBool) else None
    case IfExp(body, cond, orelse) =>
      if TypeOf(g, cond) == Some(TBool) && TypeOf(g, body) == TypeOf(g, orelse)
      then TypeOf(g, body) else None
    case TupleLit(elems) =>
      (match TypesOf(g, elems) case Some(ts) => Some(TTuple(ts)) case None => None)
    case ListLit(elems, elem) => if AllTyped(g, elems, elem) then Some(TList(elem)) else None
  }

  predicate IsScalar(t: Option<Type>) {
    t == Some(TInt) || t == Some(TBool)
  }

  predicate AllTyped(g: Types, es: seq<Expr>, t: Type)
    decreases es, 0
  {
    es == [] || (TypeOf(g, es[0]) == Some(t) && AllTyped(g, es[1..], t))
  }

  function TypesOf(g: Types, es: seq<Expr>): (r: Option<seq<Type>>)
    ensures r.Some? ==> |r.value| == |es|
    decreases es, 0
  {
    if es == [] then Some([])
    else
      match (TypeOf(g, es[0]), TypesOf(g, es[1..]))
      case (Some(t), Some(ts)) => Some([t] + ts)
      case _ => None
  }

  predicate Declared(g: Types, x: string, t: Type) {
    x in g && g[x] == t
  }

  predicate CaptureOk(g: Types, x: string, t: Type) {
    Binds(x) ==> Declared(g, x, t)
  }

  predicate PatternOk(g: Types, p: Pattern, t: Type)
    decreases p, 1
  {
    match p
    case Wildcard => true
    case Capture(x) => CaptureOk(g, x, t)
    case As(pat, x) => PatternOk(g, pat, t) && CaptureOk(g, x, t)
    case Or(alts) => forall i :: 0 <= i < |alts| ==> PatternOk(g, alts[i], t)
    case ValuePat(lit) => IsLiteral(lit) && TypeOf(g, lit) == Some(t)
    case SeqPat(before, star, after) =>
      match t
      case TTuple(ts) =>
        && (star.None? ==> |before| == |ts| && after == [])
        && |before| + |after| <= |ts|
        && PatternsOk(g, before, ts[..|before|])
        && PatternsOk(g, after, ts[|ts| - |after|..])
        && (star.Some? ==> RestOk(g, star.value, ts[|before|..|ts| - |after|]))
      case TList(elem) =>
        && (star.None? ==> after == [])
        && PatternsOk(g, before, seq(|before|, _ => elem))
        && PatternsOk(g, after, seq(|after|, _ => elem))
        && (star.Some? ==> CaptureOk(g, star.value, t))
      case _ => false
  }

  predicate PatternsOk(g: Types, ps: seq<Pattern>, ts: seq<Type>)
    decreases ps, 0
  {
    |ps| == |ts| && forall i :: 0 <= i < |ps| ==> PatternOk(g, ps[i], ts[i])
  }

  /** A starred tuple rest must be homogeneous so that it binds as a list. */
  predicate RestOk(g: Types, x: string, ts: seq<Type>) {
    Binds(x) ==> x in g && g[x].TList? && forall i :: 0 <= i < |ts| ==> ts[i] == g[x].elem
  }

  predicate TargetOk(g: Types, t: Target, ty: Type) {
    match t
    case NameTarget(x) => Declared(g, x, ty)
    case TupleTarget(xs) => ty.TTuple? && TuplesOk(g, xs, ty.elems)
  }

  predicate TuplesOk(g: Types, xs: seq<string>, ts: seq<Type>) {
    |xs| == |ts| && forall i :: 0 <= i < |xs| ==> Declared(g, xs[i], ts[i])
  }

  predicate BlockOk(g: Types, inLoop: bool, ss: seq<Stmt>)
    decreases ss, 0
  {
    forall i :: 0 <= i < |ss| ==> StmtOk(g, inLoop, ss[i])
  }

  predicate StmtOk(g: Types, inLoop: bool, s: Stmt)
    decreases s, 1
  {
    match s
    case Assign(x, e) => TypeOf(g, e).Some? && Declared(g, x, TypeOf(g, e).value)
    case AugAssign(x, op, e) => Declared(g, x, TInt) && TypeOf(g, e) == Some(TInt)
    case ChainAssign(xs, e) =>
      TypeOf(g, e).Some? && xs != [] && forall i :: 0 <= i < |xs| ==> Declared(g, xs[i], TypeOf(g, e).value)
    case Unpack(xs, es) => TypesOf(g, es).Some? && TuplesOk(g, xs, TypesOf(g, es).value)
    case UnpackTuple(xs, e) => TypeOf(g, e).Some? && TargetOk(g, TupleTarget(xs), TypeOf(g, e).value)
    case ExprStmt(e) => TypeOf(g, e).Some?
    case If(cond, body, orelse) =>
      TypeOf(g, cond) == Some(TBool) && BlockOk(g, inLoop, body) && BlockOk(g, inLoop, orelse)
    case While(cond, body, orelse) =>
      TypeOf(g, cond) == Some(TBool) && BlockOk(g, true, body) && BlockOk(g, inLoop, orelse)
    case ForRange(x, start, stop, step, body, orelse) =>
      && (start.Some? ==> TypeOf(g, start.value) == Some(TInt))
      && TypeOf(g, stop) == Some(TInt)
      && step != 0
      && Declared(g, x, TInt)
      && BlockOk(g, true, body) && BlockOk(g, inLoop, orelse)
    case ForEach(target, iter, body, orelse) =>
      && TypeOf(g, iter).Some? && TypeOf(g, iter).value.TList?
      && TargetOk(g, target, TypeOf(g, iter).value.elem)
      && BlockOk(g, true, body) && BlockOk(g, inLoop, orelse)
    case Break => inLoop
    case Continue => inLoop
    case Pass => true
    case Match(subject, cases) =>
      && TypeOf(g, subject).Some?
      && forall i :: 0 <= i < |cases| ==> CaseOk(g, inLoop, TypeOf(g, subject).value, cases[i])
  }

  predicate CaseOk(g: Types, inLoop: bool, t: Type, c: Case)
    decreases c, 0
  {
    && PatternOk(g, c.pat, t)
    && (c.guard.Some? ==> TypeOf(g, c.guard.value) == Some(TBool))
    && BlockOk(g, inLoop, c.body)
  }

  /** Which values a static type describes. */
  predicate HasType(v: Value, t: Type) {
    match (v, t)
    case (VInt(_), TInt) => true
    case (VBool(_), TBool) => true
    case (VTuple(vs), TTuple(ts)) => |vs| == |ts| && forall i :: 0 <= i < |vs| ==> HasType(vs[i], ts[i])
    case (VList(vs), TList(elem)) => forall i :: 0 <= i < |vs| ==> HasType(vs[i], elem)
    case _ => false
  }
}

/** What the statements mean: a big-step evaluator following the Python Language
    Reference, sections 6.10 (comparison chains), 6.11 (short circuits), 7.2
    (assignment) and 8.1-8.3, 8.6 (if, while, for, match). An expression that
    Python would raise an exception on has no value, and a run that reaches one,
    or that needs more loop iterations than its fuel, has no result. */
module Semantics {
  import opened Wrappers
  import opened Syntax
  import opened IntMath

  type Store = map<string, Value>

  function Arith(op: BinOp, a: int, b: int): Option<int> {
    match op
    case Add => Some(a + b)
    case Sub => Some(a - b)
    case Mul => Some(a * b)
    case FloorDivide => if b == 0 then None else Some(FloorDiv(a, b))
    case Modulo => if b == 0 then None else Some(FloorMod(a, b))
    case BitXor => Some(Xor(a, b))
  }

  predicate CmpInts(op: CmpOp, a: int, b: int) {
    match op
    case Eq => a == b
    case Ne => a != b
    case Lt => a < b
    case Le => a <= b
    case Gt => a > b
    case Ge => a >= b
  }

  function BoolInt(b: bool): int {
    if b then 1 else 0
  }

  /** Comparing two scalars of one type; `False < True`. */
  function CmpValues(op: CmpOp, a: Value, b: Value): Option<bool> {
    match (a, b)
    case (VInt(m), VInt(n)) => Some(CmpInts(op, m, n))
    case (VBool(m), VBool(n)) => Some(CmpInts(op, BoolInt(m), BoolInt(n)))
    case _ => None
  }

  function Eval(e: Expr, st: Store): Option<Value>
    decreases e, 1
  {
    match e
    case IntLit(n) => Some(VInt(n))
    case BoolLit(b) => Some(VBool(b))
    case Name(x) => if x in st then Some(st[x]) else None
    case Neg(arg) =>
      (match Eval(arg, st) case Some(VInt(i)) => Some(VInt(-i)) case _ => None)
    case Pos(arg) =>
      (match Eval(arg, st) case Some(VInt(i)) => Some(VInt(i)) case _ => None)
    case Invert(arg) =>
      (match Eval(arg, st) case Some(VInt(i)) => Some(VInt(-i - 1)) case _ => None)
    case Not(arg) =>
      (match Eval(arg, st) case Some(VBool(b)) => Some(VBool(!b)) case _ => None)
    case Binary(op, left, right) =>
      (match (Eval(left, st), Eval(right, st))
       case (Some(VInt(a)), Some(VInt(b))) =>
         (match Arith(op, a, b) case Some(i) => Some(VInt(i)) case None => None)
       case _ => None)
    case Compare(first, ops, rest) =>
      (match Eval(first, st)
       case None => None
       case Some(v) =>
         (match EvalChain(v, ops, rest, st) case Some(b) => Some(VBool(b)) case None => None))
    case BoolOp(isAnd, left, right) =>
      (match Eval(left, st)
       case Some(VBool(b)) => if b == isAnd then Eval(right, st) else Some(VBool(b))
       case _ => None)
    case IfExp(body, cond, orelse) =>
      (match Eval(cond, st)
       case Some(VBool(b)) => if b then Eval(body, st) else Eval(orelse, st)
       case _ => None)
    case TupleLit(elems) =>
      (match EvalAll(elems, st) case Some(vs) => Some(VTuple(vs)) case None => None)
    case ListLit(elems, _) =>
      (match EvalAll(elems, st) case Some(vs) => Some(VList(vs)) case None => None)
  }

  /** `left op0 e0 op1 e1 ...`: each operand is evaluated at most once, and none
      after the first comparison that fails. */
  function EvalChain(left: Value, ops: seq<CmpOp>, rest: seq<Expr>, st: Store): Option<bool>
    decreases rest, 0
  {
    if ops == [] || rest == [] then
      Some(true)
    else
      match Eval(rest[0], st)
      case None => None
      case Some(right) =>
        match CmpValues(ops[0], left, right)
        case None => None
        case Some(false) => Some(false)
        case Some(true) => EvalChain(right, ops[1..], rest[1..], st)
  }

  function EvalAll(es: seq<Expr>, st: Store): (r: Option<seq<Value>>)
    ensures r.Some? ==> |r.value| == |es|
    decreases es, 0
  {
    if es == [] then
      Some([])
    else
      match (Eval(es[0], st), EvalAll(es[1..], st))
      case (Some(v), Some(vs)) => Some([v] + vs)
      case _ => None
  }

  // Patterns. A capture is stored as soon as its sub-pattern is reached, also
  // when the whole pattern fails later, which section 8.6.3 allows.

  function BindCapture(st: Store, x: string, v: Value): Store {
    if Binds(x) then st[x := v] else st
  }

  function MatchPat(p: Pattern, v: Value, st: Store): (bool, Store)
    decreases p, 1
  {
    match p
    case Wildcard => (true, st)
    case Capture(x) => (true, BindCapture(st, x, v))
    case As(pat, x) =>
      var (ok, st') := MatchPat(pat, v, st);
      (ok, if ok then BindCapture(st', x, v) else st')
    case Or(alts) => MatchAny(alts, v, st)
    case ValuePat(lit) => (IsLiteral(lit) && LiteralValue(lit) == v, st)
    case SeqPat(before, star, after) =>
      if !(v.VTuple? || v.VList?) || !Fits(before, star, after, |v.elems|) then (false, st)
      else
        var (ok, st') := MatchEnds(p, v.elems, st);
        if ok && star.Some?
        then (true, BindCapture(st', star.value, VList(v.elems[|before|..|v.elems| - |after|])))
        else (ok, st')
  }

  /** Whether a sequence of `n` elements is long enough, and not too long. */
  predicate Fits(before: seq<Pattern>, star: Option<string>, after: seq<Pattern>, n: nat) {
    |before| + |after| <= n && (star.None? ==> n == |before| + |after|)
  }

  /** The leading elements, then the trailing ones. */
  function MatchEnds(p: Pattern, vs: seq<Value>, st: Store): (bool, Store)
    requires p.SeqPat? && |p.before| + |p.after| <= |vs|
    decreases p, 0
  {
    var (ok, st') := MatchAll(p.before, vs[..|p.before|], st);
    if ok then MatchAll(p.after, vs[|vs| - |p.after|..], st') else (false, st')
  }

  function MatchAny(alts: seq<Pattern>, v: Value, st: Store): (bool, Store)
    decreases alts, 0
  {
    if alts == [] then (false, st)
    else
      var (ok, st') := MatchPat(alts[0], v, st);
      if ok then (true, st') else MatchAny(alts[1..], v, st')
  }

  function MatchAll(ps: seq<Pattern>, vs: seq<Value>, st: Store): (bool, Store)
    requires |ps| == |vs|
    decreases ps, 0
  {
    if ps == [] then (true, st)
    else
      var (ok, st') := MatchPat(ps[0], vs[0], st);
      if !ok then (false, st') else MatchAll(ps[1..], vs[1..], st')
  }

  // Statements.

  datatype Outcome = Normal | Broke | Continued
  datatype Ending = NoResult | Done(out: Outcome, st: Store)

  function AssignAll(st: Store, xs: seq<string>, vs: seq<Value>): Store
    requires |xs| == |vs|
    decreases xs
  {
    if xs == [] then st else AssignAll(st[xs[0] := vs[0]], xs[1..], vs[1..])
  }

  function AssignTarget(st: Store, t: Target, v: Value): Option<Store> {
    match t
    case NameTarget(x) => Some(st[x := v])
    case TupleTarget(xs) =>
      if v.VTuple? && |v.elems| == |xs| then Some(AssignAll(st, xs, v.elems)) else None
  }

  /** The integers `range(start, stop, step)` yields. */
  function Range(start: int, stop: int, step: int): (r: seq<int>)
    requires step != 0
    decreases if step > 0 then stop - start else start - stop
  {
    if (if step > 0 then start < stop else start > stop)
    then [start] + Range(start + step, stop, step)
    else []
  }

  function Ints(ns: seq<int>): (vs: seq<Value>)
    ensures |vs| == |ns|
  {
    seq(|ns|, k requires 0 <= k < |ns| => VInt(ns[k]))
  }

  function ExecBlock(fuel: nat, ss: seq<Stmt>, st: Store): Ending
    decreases fuel, ss, 2
  {
    if ss == [] then Done(Normal, st)
    else
      match Exec(fuel, ss[0], st)
      case Done(Normal, st') => ExecBlock(fuel, ss[1..], st')
      case r => r
  }

  function Exec(fuel: nat, s: Stmt, st: Store): Ending
    decreases fuel, s, 1
  {
    match s
    case Assign(x, e) =>
      (match Eval(e, st) case Some(v) => Done(Normal, st[x := v]) case None => NoResult)
    case AugAssign(x, op, e) =>
      (match Eval(Binary(op, Name(x), e), st) case Some(v) => Done(Normal, st[x := v]) case None => NoResult)
    case ChainAssign(xs, e) =>
      (match Eval(e, st)
       case Some(v) => Done(Normal, AssignAll(st, xs, seq(|xs|, _ => v)))
       case None => NoResult)
    case Unpack(xs, es) =>
      (match EvalAll(es, st)
       case Some(vs) => if |xs| == |vs| then Done(Normal, AssignAll(st, xs, vs)) else NoResult
       case None => NoResult)
    case UnpackTuple(xs, e) =>
      (match Eval(e, st)
       case Some(v) =>
         (match AssignTarget(st, TupleTarget(xs), v) case Some(st') => Done(Normal, st') case None => NoResult)
       case None => NoResult)
    case ExprStmt(e) =>
      (match Eval(e, st) case Some(_) => Done(Normal, st) case None => NoResult)
    case If(cond, body, orelse) =>
      (match Eval(cond, st)
       case Some(VBool(b)) => if b then ExecBlock(fuel, body, st) else ExecBlock(fuel, orelse, st)
       case _ => NoResult)
    case While(cond, body, orelse) => ExecWhile(fuel, cond, body, orelse, st)
    case ForRange(x, start, stop, step, body, orelse) =>
      (match (if start.Some? then Eval(start.value, st) else Some(VInt(0)), Eval(stop, st))
       case (Some(VInt(a)), Some(VInt(b))) =>
         if step == 0 then NoResult
         else ExecFor(fuel, s, Ints(Range(a, b, step)), st)
       case _ => NoResult)
    case ForEach(target, iter, body, orelse) =>
      (match Eval(iter, st)
       case Some(VList(vs)) => ExecFor(fuel, s, vs, st)
       case _ => NoResult)
    case Break => Done(Broke, st)
    case Continue => Done(Continued, st)
    case Pass => Done(Normal, st)
    case Match(subject, cases) =>
      (match Eval(subject, st)
       case Some(v) => ExecCases(fuel, cases, v, st)
       case None => NoResult)
  }

  function ExecWhile(fuel: nat, cond: Expr, body: seq<Stmt>, orelse: seq<Stmt>, st: Store): Ending
    decreases fuel, While(cond, body, orelse), 0
  {
    match Eval(cond, st)
    case Some(VBool(true)) =>
      (match ExecBlock(fuel, body, st)
       case NoResult => NoResult
       case Done(Broke, st') => Done(Normal, st')
       case Done(_, st') =>
         if fuel == 0 then NoResult else ExecWhile(fuel - 1, cond, body, orelse, st'))
    case Some(VBool(false)) => ExecBlock(fuel, orelse, st)
    case _ => NoResult
  }

  /** One pass of the body for each value, then the else block unless a break
      left the loop. */
  function ExecFor(fuel: nat, s: Stmt, vs: seq<Value>, st: Store): Ending
    requires IsFor(s)
    decreases fuel, s, 0, |vs|
  {
    if vs == [] then ExecBlock(fuel, s.orelse, st)
    else
      match AssignTarget(st, LoopTarget(s), vs[0])
      case None => NoResult
      case Some(st1) =>
        match ExecBlock(fuel, s.body, st1)
        case NoResult => NoResult
        case Done(Broke, st') => Done(Normal, st')
        case Done(_, st') => ExecFor(fuel, s, vs[1..], st')
  }

  function ExecCases(fuel: nat, cases: seq<Case>, v: Value, st: Store): Ending
    decreases fuel, cases, 0
  {
    if cases == [] then Done(Normal, st)
    else
      match CaseTest(cases[0], v, st)
      case None => NoResult
      case Some((true, st1)) => ExecBlock(fuel, cases[0].body, st1)
      case Some((false, st1)) => ExecCases(fuel, cases[1..], v, st1)
  }

  /** Whether a case is entered, when that is defined, and its store then. */
  function CaseTest(c: Case, v: Value, st: Store): Option<(bool, Store)> {
    var (ok, st1) := MatchPat(c.pat, v, st);
    if !ok || c.guard.None? then Some((ok, st1))
    else match Eval(c.guard.value, st1) case Some(VBool(b)) => Some((b, st1)) case _ => None
  }
}

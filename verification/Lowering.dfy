/** What lowering emits (compiler/lower.go, compiler/lower_expr.go,
    compiler/lower_stmt.go, operator/emit.go), as a function from the lowering
    state before a construct to the state after it. The `Lowerer` class does the
    same work by updating its fields. */
module Lowering {
  import opened Wrappers
  import opened Syntax
  import opened Typing
  import opened Machine
  import opened ScratchPool

  /** Where the names of the frame being lowered live: `names` globals, then
      `base` params and named locals, then the scratch pool. A `protected` frame
      contains a try region and never releases a scratch slot. */
  datatype Env = Env(
    names: nat,
    base: nat,
    globals: map<string, nat>,
    locals: map<string, nat>,
    types: Types,
    protected: bool)

  datatype Loop = Loop(cont: Label, brk: Label)

  /** The lowering state of one frame: the code so far, each label handed out so
      far with its position once bound, the scratch pool and the loop stack. */
  datatype Low = Low(
    env: Env,
    code: seq<Instr>,
    labels: seq<Option<nat>>,
    pool: Pool,
    loops: seq<Loop>)
  {
    /** The next label to be handed out. */
    function Next(): Label {
      |labels|
    }
  }

  function Start(env: Env): Low {
    Low(env, [], [], RawPool([], map[], [], []), [])
  }

  /** `r` continues `l`: it only appends code, reserves slots and hands out
      labels, and binds none of the labels `l` had handed out. */
  ghost predicate Grows(l: Low, r: Low) {
    && r.env == l.env
    && r.loops == l.loops
    && l.code <= r.code
    && l.labels <= r.labels
    && l.pool.scratch <= r.pool.scratch
    && l.pool.live <= r.pool.live
    && l.pool.open == r.pool.open
  }

  // Primitive steps.

  function Emit(l: Low, ins: seq<Instr>): Low {
    l.(code := l.code + ins)
  }

  /** Hands out `n` labels, `l.Next()` first. */
  function Labels(l: Low, n: nat): Low {
    l.(labels := l.labels + seq(n, _ => None))
  }

  function Bind(l: Low, x: Label): Low
    requires x < l.Next()
  {
    l.(labels := l.labels[x := Some(|l.code|)])
  }

  function Reserve(l: Low, k: Kind): Low {
    l.(pool := Tmp(l.pool, k))
  }

  /** Slot ids: globals, then the frame's named locals, then scratch. */
  function ScratchId(env: Env, idx: nat): nat {
    env.names + env.base + idx
  }

  function Reserved(l: Low, k: Kind): nat {
    ScratchId(l.env, TmpIndex(l.pool, k))
  }

  function EnterScope(l: Low): Low {
    l.(pool := Enter(l.pool))
  }

  function LeaveScope(l: Low): Low {
    l.(pool := Leave(l.pool))
  }

  function PushLoop(l: Low, cont: Label, brk: Label): Low {
    l.(loops := l.loops + [Loop(cont, brk)])
  }

  function PopLoop(l: Low): Low {
    if l.loops == [] then l else l.(loops := l.loops[..|l.loops| - 1])
  }

  function LoadSlot(env: Env, slot: nat): Instr {
    if slot >= env.names then LocalGet(slot - env.names) else GlobalGet(slot)
  }

  function StoreSlot(env: Env, slot: nat): Instr {
    if slot >= env.names then LocalSet(slot - env.names) else GlobalSet(slot)
  }

  /** A name without a binding is an internal failure that emits nothing. */
  function LoadName(env: Env, x: string): seq<Instr> {
    if x in env.locals then [LocalGet(env.locals[x])]
    else if x in env.globals then [LoadSlot(env, env.globals[x])]
    else []
  }

  function StoreName(env: Env, x: string): seq<Instr> {
    if x in env.locals then [LocalSet(env.locals[x])]
    else if x in env.globals then [StoreSlot(env, env.globals[x])]
    else []
  }

  function KindOf(t: Option<Type>): Kind {
    match t
    case Some(TInt) => KindI64
    case Some(TBool) => KindI1
    case _ => KindRef
  }

  function ExprKind(env: Env, e: Expr): Kind {
    KindOf(TypeOf(env.types, e))
  }

  function KindsOf(ts: seq<Type>): (r: seq<Kind>)
    ensures |r| == |ts|
  {
    seq(|ts|, i requires 0 <= i < |ts| => KindOf(Some(ts[i])))
  }

  // Expressions.

  function CmpInstr(op: CmpOp, t: Option<Type>): Instr {
    if t == Some(TBool) then I32Cmp(op) else I64Cmp(op)
  }

  function BinInstr(op: BinOp): Instr {
    match op
    case Add => I64Bin(I64Add)
    case Sub => I64Bin(I64Sub)
    case Mul => I64Bin(I64Mul)
    case _ => I64Bin(I64Xor)
  }

  /** The instructions after both operands of `//` are stored: the truncating
      quotient and remainder, whether they need correcting, the correction. */
  function FloorDivCode(env: Env, left: nat, right: nat, rem: nat, quo: nat): seq<Instr> {
    QuoRemCode(env, left, right, rem, quo) + AdjustCode(env, left, right, rem)
    + [LoadSlot(env, quo), Swap, I64Bin(I64Sub)]
  }

  function QuoRemCode(env: Env, left: nat, right: nat, rem: nat, quo: nat): seq<Instr> {
    [LoadSlot(env, left), LoadSlot(env, right), I64Bin(I64DivS), StoreSlot(env, quo),
     LoadSlot(env, left), LoadSlot(env, right), I64Bin(I64RemS), StoreSlot(env, rem)]
  }

  function AdjustCode(env: Env, left: nat, right: nat, rem: nat): seq<Instr> {
    [LoadSlot(env, rem), I64Const(0), I64Cmp(Ne)]
    + [LoadSlot(env, left), LoadSlot(env, right), I64Bin(I64Xor), I64Const(0), I64Cmp(Lt)]
    + [I32And, I32ToI64]
  }

  function CompExpr(e: Expr, l: Low): (r: Low)
    ensures Grows(l, r)
    decreases e, 2
  {
    match e
    case IntLit(n) => Emit(l, [I64Const(n)])
    case BoolLit(b) => Emit(l, [I32Const(if b then 1 else 0), I32Const(0), I32Cmp(Ne)])
    case Name(x) => Emit(l, LoadName(l.env, x))
    case Neg(arg) => Emit(CompExpr(arg, Emit(l, [I64Const(0)])), [I64Bin(I64Sub)])
    case Pos(arg) => CompExpr(arg, l)
    case Invert(arg) => Emit(CompExpr(arg, l), [I64Const(-1), I64Bin(I64Xor)])
    case Not(arg) => Emit(CompExpr(arg, l), [I32Eqz])
    case Binary(op, left, right) => CompBinary(op, left, right, l)
    case Compare(first, ops, rest) => CompCompare(first, ops, rest, l)
    case BoolOp(isAnd, left, right) => CompBoolOp(isAnd, left, right, l)
    case IfExp(body, cond, orelse) => CompIfExp(body, cond, orelse, l)
    case TupleLit(elems) =>
      var ts := TypesOf(l.env.types, elems);
      var ks := if ts.Some? then KindsOf(ts.value) else [];
      CompElems(elems, 0, StructSet, Emit(l, [StructNewDefault(ks)]))
    case ListLit(elems, elem) =>
      CompElems(elems, 0, ArraySet, Emit(l, [I32Const(|elems|), ArrayNewDefault(KindOf(Some(elem)))]))
  }

  /** A chain carries each middle operand in its own slot; its length is the
      checker's to guarantee. */
  function CompCompare(first: Expr, ops: seq<CmpOp>, rest: seq<Expr>, l: Low): (r: Low)
    ensures Grows(l, r)
    decreases Compare(first, ops, rest), 0
  {
    if |ops| != |rest| || ops == [] then l
    else if |ops| == 1 then
      Emit(CompExpr(rest[0], CompExpr(first, l)), [CmpInstr(ops[0], TypeOf(l.env.types, first))])
    else
      var k := ExprKind(l.env, first);
      var l1 := Emit(CompExpr(first, Labels(Reserve(l, k), 1)), [StoreSlot(l.env, Reserved(l, k))]);
      Bind(CompChain(Reserved(l, k), first, ops, rest, l.Next(), l1), l.Next())
  }

  function CompBoolOp(isAnd: bool, left: Expr, right: Expr, l: Low): (r: Low)
    ensures Grows(l, r)
    decreases BoolOp(isAnd, left, right), 0
  {
    var l1 := Emit(CompExpr(left, l), [Dup]);
    if isAnd then
      var eval, end := l1.Next(), l1.Next() + 1;
      var l2 := Bind(Emit(Labels(l1, 2), [BrIf(eval), Br(end)]), eval);
      Bind(CompExpr(right, Emit(l2, [Drop])), end)
    else
      var end := l1.Next();
      var l2 := Emit(Labels(l1, 1), [BrIf(end), Drop]);
      Bind(CompExpr(right, l2), end)
  }

  function CompIfExp(body: Expr, cond: Expr, orelse: Expr, l: Low): (r: Low)
    ensures Grows(l, r)
    decreases IfExp(body, cond, orelse), 0
  {
    var l1 := CompExpr(cond, l);
    var trueL, end := l1.Next(), l1.Next() + 1;
    var l2 := CompExpr(orelse, Emit(Labels(l1, 2), [BrIf(trueL)]));
    var l3 := Bind(Emit(l2, [Br(end)]), trueL);
    Bind(CompExpr(body, l3), end)
  }

  /** `%` evaluates its right operand first; `//` stores both operands. */
  function CompBinary(op: BinOp, left: Expr, right: Expr, l: Low): (r: Low)
    ensures Grows(l, r)
    decreases Binary(op, left, right), 1
  {
    match op
    case FloorDivide => CompFloorDiv(left, right, l)
    case Modulo => CompModulo(left, right, l)
    case _ => Emit(CompExpr(right, CompExpr(left, l)), [BinInstr(op)])
  }

  function CompFloorDiv(left: Expr, right: Expr, l: Low): (r: Low)
    ensures Grows(l, r)
    decreases Binary(FloorDivide, left, right), 0
  {
    var a := Reserved(l, KindI64);
    var l1 := Reserve(l, KindI64);
    var b := Reserved(l1, KindI64);
    var l2 := Reserve(l1, KindI64);
    var rem := Reserved(l2, KindI64);
    var l3 := Reserve(l2, KindI64);
    var l4 := Emit(CompExpr(left, l3), [StoreSlot(l.env, a)]);
    var l5 := Emit(CompExpr(right, l4), [StoreSlot(l.env, b)]);
    var quo := Reserved(l5, KindI64);
    Emit(Reserve(l5, KindI64), FloorDivCode(l.env, a, b, rem, quo))
  }

  function CompModulo(left: Expr, right: Expr, l: Low): (r: Low)
    ensures Grows(l, r)
    decreases Binary(Modulo, left, right), 0
  {
    var d := Reserved(l, KindI64);
    var l1 := Emit(CompExpr(right, Reserve(l, KindI64)), [StoreSlot(l.env, d)]);
    Emit(CompExpr(left, l1), ModuloCode(l.env, d))
  }

  function ModuloCode(env: Env, d: nat): seq<Instr> {
    [LoadSlot(env, d), I64Bin(I64RemS), LoadSlot(env, d), I64Bin(I64Add), LoadSlot(env, d), I64Bin(I64RemS)]
  }

  /** The links of a comparison chain whose left operand is in `slot`. */
  function CompChain(slot: nat, left: Expr, ops: seq<CmpOp>, rest: seq<Expr>, end: Label, l: Low): (r: Low)
    requires |ops| == |rest| > 0
    ensures Grows(l, r)
    decreases rest, 0
  {
    var cmp := CmpInstr(ops[0], TypeOf(l.env.types, left));
    var l1 := CompExpr(rest[0], Emit(l, [LoadSlot(l.env, slot)]));
    if |ops| == 1 then
      Emit(l1, [cmp])
    else
      var k := ExprKind(l.env, rest[0]);
      var slot' := Reserved(l1, k);
      var l2 := Emit(Reserve(l1, k),
                     LinkCode(l.env, slot', cmp, end));
      CompChain(slot', rest[0], ops[1..], rest[1..], end, l2)
  }

  function LinkCode(env: Env, slot: nat, cmp: Instr, end: Label): seq<Instr> {
    [Dup, StoreSlot(env, slot), cmp, Dup, I32Eqz, BrIf(end), Drop]
  }

  /** Fills the fresh object on top of the stack from index `i` on. */
  function CompElems(es: seq<Expr>, i: nat, set_: Instr, l: Low): (r: Low)
    ensures Grows(l, r)
    decreases es, 0
  {
    if es == [] then l
    else CompElems(es[1..], i + 1, set_, Emit(CompExpr(es[0], Emit(l, [Dup, I32Const(i)])), [set_]))
  }

  // Patterns.

  function CompBindSlot(x: string, slot: nat, l: Low): Low {
    if Binds(x) then Emit(l, [LoadSlot(l.env, slot)] + StoreName(l.env, x)) else l
  }

  /** Which element of a sequence a child slot is filled from: counted from the
      front, or from the back of a list whose length is only known at run time. */
  datatype Fetch = Front(i: nat) | Back(k: nat)

  function FetchCode(env: Env, slot: nat, isTuple: bool, f: Fetch): seq<Instr> {
    match f
    case Front(i) => [LoadSlot(env, slot), I32Const(i), if isTuple then StructGet else ArrayGet]
    case Back(k) =>
      [LoadSlot(env, slot), LoadSlot(env, slot), ArrayLen, I32Const(k), I32Sub,
       if isTuple then StructGet else ArrayGet]
  }

  function Fronts(from: nat, n: nat): (r: seq<Fetch>)
    ensures |r| == n
  {
    seq(n, i requires 0 <= i < n => Front(from + i))
  }

  function Backs(n: nat): (r: seq<Fetch>)
    ensures |r| == n
  {
    seq(n, i requires 0 <= i < n => Back(n - i))
  }

  function Copies(t: Type, n: nat): (r: seq<Type>)
    ensures |r| == n
  {
    seq(n, _ => t)
  }

  function CompPat(p: Pattern, slot: nat, t: Type, next: Label, l: Low): (r: Low)
    ensures Grows(l, r)
    decreases p, 2
  {
    match p
    case Wildcard => l
    case Capture(x) => CompBindSlot(x, slot, l)
    case As(pat, x) => CompBindSlot(x, slot, CompPat(pat, slot, t, next, l))
    case Or(alts) =>
      var succ := l.Next();
      Bind(Emit(CompAlts(alts, slot, t, succ, Labels(l, 1)), [Br(next)]), succ)
    case ValuePat(lit) =>
      Emit(CompExpr(lit, Emit(l, [LoadSlot(l.env, slot)])),
           [CmpInstr(Eq, Some(t)), I32Eqz, BrIf(next)])
    case SeqPat(before, star, after) =>
      match t
      case TTuple(ts) => CompTuplePat(p, slot, ts, next, l)
      case TList(elem) => CompListPat(p, slot, elem, next, l)
      case _ => l
  }

  /** A tuple's length is static, so there is no length test. */
  function CompTuplePat(p: Pattern, slot: nat, ts: seq<Type>, next: Label, l: Low): (r: Low)
    requires p.SeqPat?
    ensures Grows(l, r)
    decreases p, 1
  {
    var b, a := |p.before|, |p.after|;
    if b + a > |ts| then l
    else
      var n := |ts| - a;
      var l1 := CompEnds(p, Fronts(0, b), Fronts(n, a), ts[..b], ts[n..], slot, true, next, l);
      if p.star.Some? && Binds(p.star.value)
      then Emit(l1, RestCode(l.env, slot, b, ts[b..n]) + StoreName(l.env, p.star.value))
      else l1
  }

  function CompListPat(p: Pattern, slot: nat, elem: Type, next: Label, l: Low): (r: Low)
    requires p.SeqPat?
    ensures Grows(l, r)
    decreases p, 1
  {
    var b, a := |p.before|, |p.after|;
    var l1 := Emit(l, LengthGuardCode(l.env, slot, p.star.None?, b + a, next));
    var l2 := CompEnds(p, Fronts(0, b), Backs(a), Copies(elem, b), Copies(elem, a), slot, false, next, l1);
    if p.star.Some? && Binds(p.star.value)
    then Emit(l2, SliceCode(l.env, slot, b, a) + StoreName(l.env, p.star.value))
    else l2
  }

  function LengthGuardCode(env: Env, slot: nat, exact: bool, n: nat, next: Label): seq<Instr> {
    if exact
    then [LoadSlot(env, slot), ArrayLen, I32Const(n), I32Cmp(Eq), I32Eqz, BrIf(next)]
    else [LoadSlot(env, slot), ArrayLen, I32Const(n), I32Cmp(Lt), BrIf(next)]
  }

  function CompEnds(p: Pattern, fb: seq<Fetch>, fa: seq<Fetch>, tb: seq<Type>, ta: seq<Type>, slot: nat,
        isTuple: bool, next: Label, l: Low): (r: Low)
    requires p.SeqPat? && |p.before| == |fb| == |tb| && |p.after| == |fa| == |ta|
    ensures Grows(l, r)
    decreases p, 0
  {
    var l1 := CompChildren(p.before, fb, tb, slot, isTuple, next, l);
    CompChildren(p.after, fa, ta, slot, isTuple, next, l1)
  }

  /** The list slice between a prefix and a suffix. */
  function SliceCode(env: Env, slot: nat, before: nat, after: nat): seq<Instr> {
    [LoadSlot(env, slot), I32Const(before)]
    + [LoadSlot(env, slot), ArrayLen, I32Const(after), I32Sub]
    + [ArraySlice]
  }

  function CompAlts(alts: seq<Pattern>, slot: nat, t: Type, succ: Label, l: Low): (r: Low)
    ensures Grows(l, r)
    decreases alts, 0
  {
    if alts == [] then l
    else
      var altNext := l.Next();
      var l1 := Emit(CompPat(alts[0], slot, t, altNext, Labels(l, 1)), [Br(succ)]);
      CompAlts(alts[1..], slot, t, succ, Bind(l1, altNext))
  }

  /** Each element is extracted into a fresh slot of its own kind and tested. */
  function CompChildren(ps: seq<Pattern>, fs: seq<Fetch>, ts: seq<Type>, slot: nat, isTuple: bool, next: Label,
        l: Low): (r: Low)
    requires |ps| == |fs| == |ts|
    ensures Grows(l, r)
    decreases ps, 0
  {
    if ps == [] then l
    else
      var k := KindOf(Some(ts[0]));
      var child := Reserved(l, k);
      var l1 := Emit(Reserve(l, k), FetchCode(l.env, slot, isTuple, fs[0]) + [StoreSlot(l.env, child)]);
      CompChildren(ps[1..], fs[1..], ts[1..], slot, isTuple, next, CompPat(ps[0], child, ts[0], next, l1))
  }

  /** Copies the tuple fields of types `ts` from index `from` on into a fresh list. */
  function RestCode(env: Env, slot: nat, from: nat, ts: seq<Type>): seq<Instr> {
    [I32Const(|ts|), ArrayNewDefault(if ts == [] then KindRef else KindOf(Some(ts[0])))]
    + CopyCode(env, slot, from, 0, |ts|)
  }

  function CopyCode(env: Env, slot: nat, from: nat, i: nat, n: nat): seq<Instr>
    requires i <= n
    decreases n - i
  {
    if i == n then []
    else CopyOneCode(env, slot, from, i) + CopyCode(env, slot, from, i + 1, n)
  }

  function CopyOneCode(env: Env, slot: nat, from: nat, i: nat): seq<Instr> {
    [Dup, I32Const(i)] + [LoadSlot(env, slot), I32Const(from + i), StructGet, ArraySet]
  }

  // Statements.

  function CompBlock(ss: seq<Stmt>, l: Low): (r: Low)
    ensures Grows(l, r)
    decreases ss, 3
  {
    if ss == [] then l else CompBlock(ss[1..], CompStmt(ss[0], l))
  }

  /** Each statement is a scratch scope, except in a protected frame. */
  function CompStmt(s: Stmt, l: Low): (r: Low)
    ensures Grows(l, r)
    decreases s, 2
  {
    if l.env.protected then CompBody(s, l) else LeaveScope(CompBody(s, EnterScope(l)))
  }

  function CompBody(s: Stmt, l: Low): (r: Low)
    ensures Grows(l, r)
    decreases s, 1
  {
    match s
    case Assign(x, e) => Emit(CompExpr(e, l), StoreName(l.env, x))
    case AugAssign(x, op, e) => Emit(CompBinary(op, Name(x), e, l), StoreName(l.env, x))
    case ChainAssign(xs, e) => Emit(CompExpr(e, l), ChainCode(l.env, xs))
    case Unpack(xs, es) =>
      if |xs| != |es| then l
      else
        var l1 := CompStash(es, l);
        Emit(l1, UnstashCode(l.env, xs, Stashed(es, l)))
    case UnpackTuple(xs, e) =>
      var l1 := CompExpr(e, l);
      var slot := Reserved(l1, ExprKind(l.env, e));
      var l2 := Emit(Reserve(l1, ExprKind(l.env, e)), [StoreSlot(l.env, slot)]);
      Emit(l2, UnpackCode(l.env, slot, xs, 0))
    case ExprStmt(e) => Emit(CompExpr(e, l), [Drop])
    case If(cond, body, orelse) => CompIf(s, l)
    case While(cond, body, orelse) => CompWhile(s, l)
    case ForRange(x, start, stop, step, body, orelse) => CompRangeFor(s, l)
    case ForEach(target, iter, body, orelse) => CompForEach(s, l)
    case Break => if l.loops == [] then l else Emit(l, [Br(l.loops[|l.loops| - 1].brk)])
    case Continue => if l.loops == [] then l else Emit(l, [Br(l.loops[|l.loops| - 1].cont)])
    case Pass => l
    case Match(subject, cases) => CompMatch(s, l)
  }

  /** The conditions that the lowerer decides itself, isinstance calls and tests
      against None, are no expressions of the subset. */
  function CompIf(s: Stmt, l: Low): (r: Low)
    requires s.If?
    ensures Grows(l, r)
    decreases s, 0
  {
    var l1 := Emit(CompExpr(s.cond, l), [I32Eqz]);
    var elseL, end := l1.Next(), l1.Next() + 1;
    var l2 := CompBlock(s.body, Emit(Labels(l1, 2), [BrIf(elseL)]));
    var l3 := Bind(Emit(l2, [Br(end)]), elseL);
    Bind(CompBlock(s.orelse, l3), end)
  }

  /** The test sits at the bottom and is entered by a jump. The labels are, in
      order: body, test, else, end. */
  function CompWhile(s: Stmt, l: Low): (r: Low)
    requires s.While?
    ensures Grows(l, r)
    decreases s, 0, 3
  {
    Bind(CompBlock(s.orelse, WhileElse(s, l)), l.Next() + 3)
  }

  function WhileBody(l: Low): (r: Low)
    ensures Grows(l, r) && r.Next() == l.Next() + 4
  {
    Bind(Emit(Labels(l, 4), [Br(l.Next() + 1)]), l.Next())
  }

  function WhileTest(s: Stmt, l: Low): (r: Low)
    requires s.While?
    ensures Grows(l, r) && r.Next() >= l.Next() + 4
    decreases s, 0, 1
  {
    Bind(CompLoopBody(s.body, l.Next() + 1, l.Next() + 3, WhileBody(l)), l.Next() + 1)
  }

  function WhileElse(s: Stmt, l: Low): (r: Low)
    requires s.While?
    ensures Grows(l, r) && r.Next() >= l.Next() + 4
    decreases s, 0, 2
  {
    Bind(Emit(CompExpr(s.cond, WhileTest(s, l)), [BrIf(l.Next())]), l.Next() + 2)
  }

  function CompLoopBody(body: seq<Stmt>, cont: Label, brk: Label, l: Low): (r: Low)
    ensures Grows(l, r)
    decreases body, 4
  {
    PopLoop(CompBlock(body, PushLoop(l, cont, brk)))
  }

  /** What drives a for loop: a counter and its limit, or a list and an index. */
  datatype Driver = RangeDriver(index: nat, limit: nat, step: int) | ListDriver(list: nat, index: nat)

  function CompRangeFor(s: Stmt, l: Low): (r: Low)
    requires s.ForRange?
    ensures Grows(l, r)
    decreases s, 0, 5
  {
    var l1 := Reserve(l, KindI64);
    var index, limit := Reserved(l, KindI64), Reserved(l1, KindI64);
    var l2 := CompRangeBounds(s.start, s.stop, index, limit, Reserve(l1, KindI64));
    CompFor(s, RangeDriver(index, limit, s.step), l2)
  }

  function CompRangeBounds(start: Option<Expr>, stop: Expr, index: nat, limit: nat, l: Low): (r: Low)
    ensures Grows(l, r)
  {
    CompInto(stop, limit, CompInto(if start.Some? then start.value else IntLit(0), index, l))
  }

  function CompInto(e: Expr, slot: nat, l: Low): (r: Low)
    ensures Grows(l, r)
  {
    Emit(CompExpr(e, l), [StoreSlot(l.env, slot)])
  }

  function CompForEach(s: Stmt, l: Low): (r: Low)
    requires s.ForEach?
    ensures Grows(l, r)
    decreases s, 0, 5
  {
    var l1 := Reserve(l, KindRef);
    var list, index := Reserved(l, KindRef), Reserved(l1, KindI64);
    var l2 := CompIterStart(s.iter, list, index, Reserve(l1, KindI64));
    CompFor(s, ListDriver(list, index), l2)
  }

  function CompIterStart(iter: Expr, list: nat, index: nat, l: Low): (r: Low)
    ensures Grows(l, r)
  {
    CompInto(IntLit(0), index, CompInto(iter, list, l))
  }

  /** The loop both kinds of driver share. The labels are, in order: body,
      continue, test, else, end. */
  function CompFor(s: Stmt, d: Driver, l: Low): (r: Low)
    requires IsFor(s)
    ensures Grows(l, r)
    decreases s, 0, 4
  {
    Bind(CompBlock(s.orelse, ForElse(s, d, l)), l.Next() + 4)
  }

  function ForBody(l: Low): (r: Low)
    ensures Grows(l, r) && r.Next() == l.Next() + 5
  {
    Bind(Emit(Labels(l, 5), [Br(l.Next() + 2)]), l.Next())
  }

  function ForStep(s: Stmt, d: Driver, l: Low): (r: Low)
    requires IsFor(s)
    ensures Grows(l, r) && r.Next() >= l.Next() + 5
    decreases s, 0, 1
  {
    Bind(CompLoopBody(s.body, l.Next() + 1, l.Next() + 4, ForTarget(s, d, l)), l.Next() + 1)
  }

  function ForTarget(s: Stmt, d: Driver, l: Low): (r: Low)
    requires IsFor(s)
    ensures Grows(l, r) && r.Next() == l.Next() + 5
  {
    Emit(ForBody(l), ElementCode(l.env, d) + TargetCode(l.env, LoopTarget(s)))
  }

  function ForTest(s: Stmt, d: Driver, l: Low): (r: Low)
    requires IsFor(s)
    ensures Grows(l, r) && r.Next() >= l.Next() + 5
    decreases s, 0, 2
  {
    Bind(Emit(ForStep(s, d, l), StepCode(l.env, d)), l.Next() + 2)
  }

  function ForElse(s: Stmt, d: Driver, l: Low): (r: Low)
    requires IsFor(s)
    ensures Grows(l, r) && r.Next() >= l.Next() + 5
    decreases s, 0, 3
  {
    Bind(Emit(ForTest(s, d, l), MoreCode(l.env, d) + [BrIf(l.Next())]), l.Next() + 3)
  }

  /** Pushes the next element. */
  function ElementCode(env: Env, d: Driver): seq<Instr> {
    match d
    case RangeDriver(index, _, _) => [LoadSlot(env, index)]
    case ListDriver(list, index) => [LoadSlot(env, list), LoadSlot(env, index), I64ToI32, ArrayGet]
  }

  function StepCode(env: Env, d: Driver): seq<Instr> {
    var step := if d.RangeDriver? then d.step else 1;
    [LoadSlot(env, d.index), I64Const(step), I64Bin(I64Add), StoreSlot(env, d.index)]
  }

  /** Pushes whether there is a next element. The list's length is re-read at
      every test. */
  function MoreCode(env: Env, d: Driver): seq<Instr> {
    match d
    case RangeDriver(index, limit, step) =>
      [LoadSlot(env, index), LoadSlot(env, limit), I64Cmp(if step > 0 then Lt else Gt)]
    case ListDriver(list, index) =>
      [LoadSlot(env, index), LoadSlot(env, list), ArrayLen, I32ToI64, I64Cmp(Lt)]
  }

  function CompMatch(s: Stmt, l: Low): (r: Low)
    requires s.Match?
    ensures Grows(l, r)
    decreases s, 0
  {
    var k := ExprKind(l.env, s.subject);
    var slot := Reserved(l, k);
    var l1 := Emit(CompExpr(s.subject, Reserve(l, k)), [StoreSlot(l.env, slot)]);
    var t := TypeOf(l.env.types, s.subject);
    if t.None? then l1
    else Bind(CompCases(s.cases, slot, t.value, l1.Next(), Labels(l1, 1)), l1.Next())
  }

  function ChainCode(env: Env, xs: seq<string>): seq<Instr>
    decreases xs
  {
    if xs == [] then []
    else (if |xs| > 1 then [Dup] else []) + StoreName(env, xs[0]) + ChainCode(env, xs[1..])
  }

  /** Evaluates each right-hand element into its own slot. */
  function CompStash(es: seq<Expr>, l: Low): (r: Low)
    ensures Grows(l, r)
    decreases es, 0
  {
    if es == [] then l
    else
      var l1 := CompExpr(es[0], l);
      var k := ExprKind(l.env, es[0]);
      CompStash(es[1..], Emit(Reserve(l1, k), [StoreSlot(l.env, Reserved(l1, k))]))
  }

  /** The slots `CompStash` fills. */
  function Stashed(es: seq<Expr>, l: Low): (r: seq<nat>)
    ensures |r| == |es|
    decreases es
  {
    if es == [] then []
    else
      var l1 := CompExpr(es[0], l);
      var k := ExprKind(l.env, es[0]);
      [Reserved(l1, k)] + Stashed(es[1..], Emit(Reserve(l1, k), [StoreSlot(l.env, Reserved(l1, k))]))
  }

  function UnstashCode(env: Env, xs: seq<string>, slots: seq<nat>): seq<Instr>
    requires |xs| == |slots|
    decreases xs
  {
    if xs == [] then []
    else [LoadSlot(env, slots[0])] + StoreName(env, xs[0]) + UnstashCode(env, xs[1..], slots[1..])
  }

  function UnpackCode(env: Env, slot: nat, xs: seq<string>, i: nat): seq<Instr>
    decreases xs
  {
    if xs == [] then []
    else FetchCode(env, slot, true, Front(i)) + StoreName(env, xs[0]) + UnpackCode(env, slot, xs[1..], i + 1)
  }

  /** Stores the value on the stack into a loop target. */
  function TargetCode(env: Env, target: Target): seq<Instr> {
    match target
    case NameTarget(x) => StoreName(env, x)
    case TupleTarget(xs) => TargetElemsCode(env, xs, 0) + [Drop]
  }

  function TargetElemsCode(env: Env, xs: seq<string>, i: nat): seq<Instr>
    decreases xs
  {
    if xs == [] then []
    else [Dup, I32Const(i), StructGet] + StoreName(env, xs[0]) + TargetElemsCode(env, xs[1..], i + 1)
  }

  /** The linear decision tree of a match statement. */
  function CompCases(cases: seq<Case>, slot: nat, t: Type, end: Label, l: Low): (r: Low)
    ensures Grows(l, r)
    decreases cases, 0
  {
    if cases == [] then l
    else
      var next := l.Next();
      var l1 := CompPat(cases[0].pat, slot, t, next, Labels(l, 1));
      var l2 := Emit(CompBlock(cases[0].body, CompGuard(cases[0].guard, next, l1)), [Br(end)]);
      CompCases(cases[1..], slot, t, end, Bind(l2, next))
  }

  function CompGuard(guard: Option<Expr>, next: Label, l: Low): (r: Low)
    ensures Grows(l, r)
  {
    if guard.Some? then Emit(CompExpr(guard.value, l), [I32Eqz, BrIf(next)]) else l
  }

  /** A whole frame: the trailing NOP gives a label bound at the very end an
      instruction to land on. */
  function CompModule(body: seq<Stmt>, env: Env): Program {
    var l := Emit(CompBlock(body, Start(env)), [Nop]);
    Program(l.code, l.labels)
  }
}

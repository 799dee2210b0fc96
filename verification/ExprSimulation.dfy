/** Lowered expressions compute the values they mean. */
module ExprSimulation {
  import opened Wrappers
  import opened Syntax
  import opened Typing
  import opened Semantics
  import opened IntMath
  import opened Machine
  import opened ScratchPool
  import opened Lowering
  import opened Correspondence

  ghost predicate WellTyped(g: Types, st: Store) {
    forall x :: x in st ==> x in g && HasType(st[x], g[x])
  }

  /** A checked expression that has a value has one of its static type. */
  lemma {:induction false} EvalTyped(g: Types, e: Expr, st: Store)
    requires WellTyped(g, st) && TypeOf(g, e).Some? && Eval(e, st).Some?
    ensures HasType(Eval(e, st).value, TypeOf(g, e).value)
    decreases e, 1
  {
    match e
    case IntLit(_) =>
    case BoolLit(_) =>
    case Name(_) =>
    case Neg(_) =>
    case Pos(_) =>
    case Invert(_) =>
    case Not(_) =>
    case Binary(_, _, _) =>
    case Compare(_, _, _) =>
    case BoolOp(_, left, right) =>
      EvalTyped(g, left, st);
      if Eval(right, st).Some? {
        EvalTyped(g, right, st);
      }
    case IfExp(body, cond, orelse) =>
      if Eval(cond, st) == Some(VBool(true)) {
        EvalTyped(g, body, st);
      } else {
        EvalTyped(g, orelse, st);
      }
    case TupleLit(elems) => EvalAllTyped(g, elems, st);
    case ListLit(elems, t) => EvalAllOfType(g, elems, t, st);
  }

  lemma {:induction false} EvalAllTyped(g: Types, es: seq<Expr>, st: Store)
    requires WellTyped(g, st) && TypesOf(g, es).Some? && EvalAll(es, st).Some?
    ensures forall k :: 0 <= k < |es| ==> HasType(EvalAll(es, st).value[k], TypesOf(g, es).value[k])
    decreases es, 0
  {
    if es != [] {
      EvalTyped(g, es[0], st);
      EvalAllTyped(g, es[1..], st);
    }
  }

  lemma {:induction false} EvalAllOfType(g: Types, es: seq<Expr>, t: Type, st: Store)
    requires WellTyped(g, st) && AllTyped(g, es, t) && EvalAll(es, st).Some?
    ensures forall k :: 0 <= k < |es| ==> HasType(EvalAll(es, st).value[k], t)
    decreases es, 0
  {
    if es != [] {
      EvalTyped(g, es[0], st);
      EvalAllOfType(g, es[1..], t, st);
    }
  }

  lemma AgreesTyped(env: Env, st: Store, mem: Memory, bad: set<nat>)
    requires Agrees(env, st, mem, bad)
    ensures WellTyped(env.types, st)
  {
    forall x | x in st ensures x in env.types && HasType(st[x], env.types[x]) {
      assert Holds(env, mem, x, st[x], bad);
    }
  }

  /** The code from `l` to `r` is about to run in a state that stands for `st`. */
  ghost predicate Ready(l: Low, r: Low, p: Program, m: State, st: Store, bad: set<nat>) {
    && ValidEnv(l.env)
    && Within(r, p)
    && m.pc == |l.code|
    && Agrees(l.env, st, m.mem, bad)
  }

  /** Running from `m` to the end of `r` pushed a word for `v` and was quiet. */
  ghost predicate Computes(l: Low, r: Low, p: Program, m: State, m': State, v: Value, bad: set<nat>) {
    && Reaches(p, m, m')
    && m'.pc == |r.code|
    && m'.stack.Push? && m'.stack.below == m.stack
    && Rep(m'.mem.heap, m'.stack.top, v, bad)
    && Quiet(l, m.mem, m'.mem, {})
  }

  lemma {:induction false} SimExpr(e: Expr, l: Low, p: Program, m: State, st: Store, bad: set<nat>) returns (m': State)
    requires Ready(l, CompExpr(e, l), p, m, st, bad)
    requires TypeOf(l.env.types, e).Some? && Eval(e, st).Some?
    ensures Computes(l, CompExpr(e, l), p, m, m', Eval(e, st).value, bad)
    decreases e, 3
  {
    hide RawPool.Valid, Step, Run, Reaches, CodeAt, Agrees, Within, Grows;
    hide CompBinary, CompCompare, CompBoolOp, CompIfExp, CompElems, EvalChain, Arith;
    match e
    case IntLit(n) =>
      m' := SimConst(I64Const(n), I64(n), l, p, m);
    case BoolLit(b) => m' := SimBool(b, l, p, m);
    case Name(x) => m' := SimName(x, l, p, m, st, bad);
    case Neg(arg) => m' := SimNeg(arg, l, p, m, st, bad);
    case Pos(arg) => m' := SimExpr(arg, l, p, m, st, bad);
    case Invert(arg) => m' := SimInvert(arg, l, p, m, st, bad);
    case Not(arg) => m' := SimNot(arg, l, p, m, st, bad);
    case Binary(_, _, _) => m' := SimBinary(e, l, p, m, st, bad);
    case Compare(first, ops, rest) => m' := SimCompare(first, ops, rest, l, p, m, st, bad);
    case BoolOp(_, _, _) => m' := SimBoolOp(e, l, p, m, st, bad);
    case IfExp(_, _, _) => m' := SimIfExp(e, l, p, m, st, bad);
    case TupleLit(elems) => m' := SimTupleLit(elems, l, p, m, st, bad);
    case ListLit(elems, elem) => m' := SimListLit(elems, elem, l, p, m, st, bad);
  }

  lemma SimConst(i: Instr, w: Word, l: Low, p: Program, m: State) returns (m': State)
    requires Within(Emit(l, [i]), p) && m.pc == |l.code|
    requires (i.I64Const? && w == I64(i.c)) || (i.I32Const? && w == I32(i.c))
    ensures Reaches(p, m, m') && m' == m.(pc := m.pc + 1, stack := Push(w, m.stack))
  {
    hide Step, Run, Reaches;
    WithinEmit(l, [i], p);
    ReachesSelf(p, m);
    m' := Next(p, m, m, |l.code|, [i], 0);
  }

  lemma SimBool(b: bool, l: Low, p: Program, m: State) returns (m': State)
    requires Within(CompExpr(BoolLit(b), l), p) && m.pc == |l.code|
    ensures Reaches(p, m, m') && m' == m.(pc := m.pc + 3, stack := Push(I1(b), m.stack))
  {
    hide Step, Run, Reaches, CodeAt, Within;
    var ins := [I32Const(if b then 1 else 0), I32Const(0), I32Cmp(Ne)];
    WithinEmit(l, ins, p);
    ReachesSelf(p, m);
    var m1 := Next(p, m, m, |l.code|, ins, 0);
    var m2 := Next(p, m, m1, |l.code|, ins, 1);
    m' := Next(p, m, m2, |l.code|, ins, 2);
  }

  lemma SimName(x: string, l: Low, p: Program, m: State, st: Store, bad: set<nat>) returns (m': State)
    requires Ready(l, CompExpr(Name(x), l), p, m, st, bad) && x in st
    ensures Computes(l, CompExpr(Name(x), l), p, m, m', st[x], bad)
  {
    hide Step, Run, Reaches, CodeAt, Within;
    assert Holds(l.env, m.mem, x, st[x], bad);
    WithinEmit(l, LoadName(l.env, x), p);
    ReachesSelf(p, m);
    m' := Next(p, m, m, |l.code|, LoadName(l.env, x), 0);
  }

  /** A sub-expression lowered from a later state `l1` of a construct that
      started at `l`, after a quiet run from `m0` to `m`. */
  lemma {:induction false} SimThen(e: Expr, l: Low, l1: Low, p: Program, m0: State, m: State, st: Store,
        bad: set<nat>) returns (m': State)
    requires ValidEnv(l.env) && Grows(l, l1) && Within(CompExpr(e, l1), p) && m.pc == |l1.code|
    requires Agrees(l.env, st, m0.mem, bad)
    requires Reaches(p, m0, m) && Quiet(l, m0.mem, m.mem, {})
    requires TypeOf(l.env.types, e).Some? && Eval(e, st).Some?
    ensures Reaches(p, m0, m') && m'.pc == |CompExpr(e, l1).code|
    ensures m'.stack.Push? && m'.stack.below == m.stack && Rep(m'.mem.heap, m'.stack.top, Eval(e, st).value, bad)
    ensures Quiet(l, m0.mem, m'.mem, {}) && Quiet(l1, m.mem, m'.mem, {})
    decreases e, 4
  {
    hide RawPool.Valid, Step, Run, Reaches, CompExpr, Agrees, Quiet, Within, Eval, TypeOf, Rep;
    QuietAgrees(l, m0.mem, m.mem, st, bad, {});
    m' := SimExpr(e, l1, p, m, st, bad);
    ReachesTrans(p, m0, m, m');
    QuietTrans(l, l1, m0.mem, m.mem, m'.mem, {});
  }

  /** The same, with the value stored in a scratch slot the construct owns. */
  lemma {:induction false} SimInto(e: Expr, slot: nat, l: Low, l1: Low, p: Program, m0: State, m: State, st: Store,
        bad: set<nat>) returns (m': State)
    requires ValidEnv(l.env) && Grows(l, l1) && m.pc == |l1.code|
    requires Within(Emit(CompExpr(e, l1), [StoreSlot(l.env, slot)]), p)
    requires Agrees(l.env, st, m0.mem, bad)
    requires Reaches(p, m0, m) && Quiet(l, m0.mem, m.mem, {})
    requires TypeOf(l.env.types, e).Some? && Eval(e, st).Some?
    requires Overwritable(l, SlotAt(l.env, slot))
    ensures Reaches(p, m0, m') && m'.pc == |CompExpr(e, l1).code| + 1 && m'.stack == m.stack
    ensures Quiet(l, m0.mem, m'.mem, {}) && QuietBut(l1, m.mem, m'.mem, SlotAt(l.env, slot))
    ensures SlotAt(l.env, slot) in m'.mem.slots
    ensures Rep(m'.mem.heap, m'.mem.slots[SlotAt(l.env, slot)], Eval(e, st).value, bad)
    decreases e, 5
  {
    hide RawPool.Valid, Step, Run, Reaches, CompExpr, Agrees, Within, Eval, TypeOf, Rep, SlotAt, CodeAt, Overwritable,
         Grows;
    hide LoadSlot, StoreSlot;
    WithinEmit(CompExpr(e, l1), [StoreSlot(l.env, slot)], p);
    var m1 := SimThen(e, l, l1, p, m0, m, st, bad);
    m' := StoreScratch(p, m0, m1, |CompExpr(e, l1).code|, [StoreSlot(l.env, slot)], 0, l.env, slot);
    QuietStore(l, SlotAt(l.env, slot), m0.mem, m1.mem, m1.stack.top, {});
  }

  /** What is lowered from `l` left every slot it may not overwrite alone, except `s`. */
  ghost predicate QuietBut(l: Low, mem: Memory, mem': Memory, s: Slot) {
    && HeapKept(mem.heap, mem'.heap, {})
    && forall x :: x in mem.slots && !Overwritable(l, x) && x != s ==> x in mem'.slots && mem'.slots[x] == mem.slots[x]
  }

  lemma {:induction false} SimNeg(arg: Expr, l: Low, p: Program, m: State, st: Store, bad: set<nat>) returns (m': State)
    requires Ready(l, CompExpr(Neg(arg), l), p, m, st, bad)
    requires TypeOf(l.env.types, arg).Some? && Eval(arg, st).Some? && Eval(arg, st).value.VInt?
    ensures Computes(l, CompExpr(Neg(arg), l), p, m, m', VInt(-Eval(arg, st).value.i), bad)
    decreases arg, 5
  {
    hide RawPool.Valid, Step, Run, Reaches, CodeAt, Within, Agrees, Eval, TypeOf;
    var l1 := Emit(l, [I64Const(0)]);
    var l2 := CompExpr(arg, l1);
    WithinEmit(l2, [I64Bin(I64Sub)], p);
    WithinBefore(l1, l2, p);
    var m1 := SimConst(I64Const(0), I64(0), l, p, m);
    var m2 := SimThen(arg, l, l1, p, m, m1, st, bad);
    m' := Next(p, m, m2, |l2.code|, [I64Bin(I64Sub)], 0);
  }

  lemma {:induction false} SimInvert(arg: Expr, l: Low, p: Program, m: State, st: Store, bad: set<nat>)
    returns (m': State)
    requires Ready(l, CompExpr(Invert(arg), l), p, m, st, bad)
    requires TypeOf(l.env.types, arg).Some? && Eval(arg, st).Some? && Eval(arg, st).value.VInt?
    ensures Computes(l, CompExpr(Invert(arg), l), p, m, m', VInt(-Eval(arg, st).value.i - 1), bad)
    decreases arg, 5
  {
    hide RawPool.Valid, Step, Run, Reaches, CodeAt, Within, Agrees, Quiet, Eval, TypeOf;
    var l1 := CompExpr(arg, l);
    var ins := [I64Const(-1), I64Bin(I64Xor)];
    WithinEmit(l1, ins, p);
    var m1 := SimExpr(arg, l, p, m, st, bad);
    var m2 := Next(p, m, m1, |l1.code|, ins, 0);
    XorMinusOne(Eval(arg, st).value.i);
    m' := Next(p, m, m2, |l1.code|, ins, 1);
  }

  lemma {:induction false} SimNot(arg: Expr, l: Low, p: Program, m: State, st: Store, bad: set<nat>) returns (m': State)
    requires Ready(l, CompExpr(Not(arg), l), p, m, st, bad)
    requires TypeOf(l.env.types, arg).Some? && Eval(arg, st).Some? && Eval(arg, st).value.VBool?
    ensures Computes(l, CompExpr(Not(arg), l), p, m, m', VBool(!Eval(arg, st).value.b), bad)
    decreases arg, 5
  {
    hide RawPool.Valid, Step, Run, Reaches, CodeAt, Within, Agrees, Quiet, Eval, TypeOf;
    var l1 := CompExpr(arg, l);
    WithinEmit(l1, [I32Eqz], p);
    var m1 := SimExpr(arg, l, p, m, st, bad);
    m' := Next(p, m, m1, |l1.code|, [I32Eqz], 0);
  }

  // Arithmetic.

  lemma {:induction false} SimBinary(e: Expr, l: Low, p: Program, m: State, st: Store, bad: set<nat>)
    returns (m': State)
    requires e.Binary?
    requires Ready(l, CompBinary(e.op, e.left, e.right, l), p, m, st, bad)
    requires TypeOf(l.env.types, e.left) == TypeOf(l.env.types, e.right) == Some(TInt)
    requires Eval(e, st).Some?
    ensures Computes(l, CompBinary(e.op, e.left, e.right, l), p, m, m', Eval(e, st).value, bad)
    decreases e, 2
  {
    hide RawPool.Valid, Step, Run, Reaches, CompExpr, TypeOf, Agrees, Within;
    var op, left, right := e.op, e.left, e.right;
    var a, b := Eval(left, st).value.i, Eval(right, st).value.i;
    match op
    case FloorDivide => m' := SimFloorDiv(e, a, b, l, p, m, st, bad);
    case Modulo => m' := SimModulo(e, a, b, l, p, m, st, bad);
    case _ => m' := SimPlainBinary(e, a, b, l, p, m, st, bad);
  }

  lemma BinStep(op: BinOp, a: int, b: int, m: State, below: Stack)
    requires !op.FloorDivide? && !op.Modulo? && m.stack == Push(I64(b), Push(I64(a), below))
    ensures !BinInstr(op).Br? && !BinInstr(op).BrIf?
    ensures Arith(op, a, b).Some?
      && Compute(BinInstr(op), m) == Some(m.(stack := Push(I64(Arith(op, a, b).value), below)))
  {
  }

  lemma {:induction false} SimPlainBinary(e: Expr, a: int, b: int, l: Low, p: Program, m: State, st: Store,
        bad: set<nat>)
    returns (m': State)
    requires e.Binary?
    requires !e.op.FloorDivide? && !e.op.Modulo?
    requires Ready(l, CompBinary(e.op, e.left, e.right, l), p, m, st, bad)
    requires TypeOf(l.env.types, e.left) == TypeOf(l.env.types, e.right) == Some(TInt)
    requires Eval(e.left, st) == Some(VInt(a)) && Eval(e.right, st) == Some(VInt(b))
    ensures Computes(l, CompBinary(e.op, e.left, e.right, l), p, m, m', VInt(Arith(e.op, a, b).value), bad)
    decreases e, 1
  {
    hide RawPool.Valid, Step, Run, Reaches, CodeAt, CompExpr, Agrees, Quiet, Within, Grows, TypeOf, Eval;
    hide Xor, TruncDiv, TruncRem, FloorDiv, FloorMod, CompFloorDiv, CompModulo, Compute, BinInstr;
    var op, left, right := e.op, e.left, e.right;
    var l1 := CompExpr(left, l);
    var l2 := CompExpr(right, l1);
    WithinEmit(l2, [BinInstr(op)], p);
    WithinBefore(l1, l2, p);
    var m1 := SimExpr(left, l, p, m, st, bad);
    var m2 := SimThen(right, l, l1, p, m, m1, st, bad);
    BinStep(op, a, b, m2, m.stack);
    m' := Next(p, m, m2, |l2.code|, [BinInstr(op)], 0);
  }

  lemma {:induction false} SimModulo(e: Expr, a: int, b: int, l: Low, p: Program, m: State, st: Store, bad: set<nat>)
    returns (m': State)
    requires e.Binary?
    requires Ready(l, CompModulo(e.left, e.right, l), p, m, st, bad)
    requires TypeOf(l.env.types, e.left) == TypeOf(l.env.types, e.right) == Some(TInt)
    requires Eval(e.left, st) == Some(VInt(a)) && Eval(e.right, st) == Some(VInt(b)) && b != 0
    ensures Computes(l, CompModulo(e.left, e.right, l), p, m, m', VInt(FloorMod(a, b)), bad)
    decreases e, 1
  {
    hide RawPool.Valid, Step, Run, Reaches, CodeAt, CompExpr, Agrees, Quiet, Within, TypeOf, Eval, TruncRem, FloorMod;
    var left, right := e.left, e.right;
    var d := Reserved(l, KindI64);
    var s := SlotAt(l.env, d);
    var l0 := Reserve(l, KindI64);
    var l1 := CompExpr(right, l0);
    var l2 := Emit(l1, [StoreSlot(l.env, d)]);
    var l3 := CompExpr(left, l2);
    var ins := ModuloCode(l.env, d);
    WithinEmit(l3, ins, p);
    WithinBefore(l2, l3, p);
    ReservedSlot(l, KindI64, l2);
    ReachesSelf(p, m);
    QuietSelf(l, m.mem, {});
    var m2 := SimInto(right, d, l, l0, p, m, m, st, bad);
    var m3 := SimThen(left, l, l2, p, m, m2, st, bad);
    QuietKeeps(l2, m2.mem, m3.mem, s);
    m' := RunModulo(l.env, d, a, b, p, m, m3, |l3.code|);
  }

  lemma QuietKeeps(l: Low, mem: Memory, mem': Memory, s: Slot)
    requires Quiet(l, mem, mem', {}) && !Overwritable(l, s) && s in mem.slots
    ensures s in mem'.slots && mem'.slots[s] == mem.slots[s]
  {
  }

  lemma RunModulo(env: Env, d: nat, a: int, b: int, p: Program, m0: State, m: State, at: nat) returns (m': State)
    requires Reaches(p, m0, m) && CodeAt(p, at, ModuloCode(env, d)) && m.pc == at
    requires SlotAt(env, d) in m.mem.slots && m.mem.slots[SlotAt(env, d)] == I64(b) && b != 0
    requires m.stack.Push? && m.stack.top == I64(a)
    ensures Reaches(p, m0, m')
    ensures m' == m.(pc := at + 6, stack := Push(I64(FloorMod(a, b)), m.stack.below))
  {
    hide Step, Run, Reaches, CodeAt, TruncRem, FloorMod;
    var ins := ModuloCode(env, d);
    var m1 := LoadScratch(p, m0, m, at, ins, 0, env, d);
    var m2 := Next(p, m0, m1, at, ins, 1);
    var m3 := LoadScratch(p, m0, m2, at, ins, 2, env, d);
    var m4 := Next(p, m0, m3, at, ins, 3);
    var m5 := LoadScratch(p, m0, m4, at, ins, 4, env, d);
    m' := Next(p, m0, m5, at, ins, 5);
    DoubleRemainder(a, b);
  }

  lemma {:induction false} SimFloorDiv(e: Expr, a: int, b: int, l: Low, p: Program, m: State, st: Store, bad: set<nat>)
    returns (m': State)
    requires e.Binary?
    requires Ready(l, CompFloorDiv(e.left, e.right, l), p, m, st, bad)
    requires TypeOf(l.env.types, e.left) == TypeOf(l.env.types, e.right) == Some(TInt)
    requires Eval(e.left, st) == Some(VInt(a)) && Eval(e.right, st) == Some(VInt(b)) && b != 0
    ensures Computes(l, CompFloorDiv(e.left, e.right, l), p, m, m', VInt(FloorDiv(a, b)), bad)
    decreases e, 1
  {
    hide RawPool.Valid, Step, Run, Reaches, CodeAt, CompExpr, Agrees, Quiet, Within, TypeOf, Eval, FloorDiv,
         Overwritable, Grows, SlotAt, LoadSlot, StoreSlot, Tmp, TmpIndex, FloorDivCode, HeapKept;
    var left, right := e.left, e.right;
    var env := l.env;
    var x, l1 := Reserved(l, KindI64), Reserve(l, KindI64);
    var y, l2 := Reserved(l1, KindI64), Reserve(l1, KindI64);
    var rem, l3 := Reserved(l2, KindI64), Reserve(l2, KindI64);
    var l4 := CompExpr(left, l3);
    var l5 := Emit(l4, [StoreSlot(env, x)]);
    var l6 := CompExpr(right, l5);
    var l7 := Emit(l6, [StoreSlot(env, y)]);
    var quo, l8 := Reserved(l7, KindI64), Reserve(l7, KindI64);
    WithinEmit(l8, FloorDivCode(env, x, y, rem, quo), p);
    WithinReserve(l7, KindI64, p);
    FloorDivSlots(left, right, l, l1, l2, l3, l5, l7, SlotAt(env, x), SlotAt(env, y), SlotAt(env, rem), SlotAt(env,
          quo));
    var m4 := SimOperands(e, a, b, x, y, l, l3, l5, p, m, st, bad);
    m' := SimQuotient(env, x, y, rem, quo, a, b, l, p, m, m4, |l8.code|);
  }

  /** Both operands end up in their slots. */
  lemma {:induction false} SimOperands(e: Expr, a: int, b: int, x: nat, y: nat, l: Low, l3: Low, l5: Low, p: Program,
        m: State, st: Store, bad: set<nat>)
    returns (m': State)
    requires e.Binary?
    requires ValidEnv(l.env) && Agrees(l.env, st, m.mem, bad) && m.pc == |l3.code|
    requires l5 == Emit(CompExpr(e.left, l3), [StoreSlot(l.env, x)])
      && Within(Emit(CompExpr(e.right, l5), [StoreSlot(l.env, y)]), p)
    requires TypeOf(l.env.types, e.left) == TypeOf(l.env.types, e.right) == Some(TInt)
    requires Eval(e.left, st) == Some(VInt(a)) && Eval(e.right, st) == Some(VInt(b))
    requires Grows(l, l3) && Grows(l, l5) && SlotAt(l.env, x) != SlotAt(l.env, y)
    requires Overwritable(l, SlotAt(l.env, x)) && Overwritable(l, SlotAt(l.env, y))
      && !Overwritable(l5, SlotAt(l.env, x))
    ensures Reaches(p, m, m') && m'.pc == |CompExpr(e.right, l5).code| + 1 && m'.stack == m.stack
      && Quiet(l, m.mem, m'.mem, {})
    ensures SlotAt(l.env, x) in m'.mem.slots && m'.mem.slots[SlotAt(l.env, x)] == I64(a)
    ensures SlotAt(l.env, y) in m'.mem.slots && m'.mem.slots[SlotAt(l.env, y)] == I64(b)
    decreases e, 0
  {
    hide RawPool.Valid, Step, Run, Reaches, CodeAt, CompExpr, Agrees, Quiet, Within, TypeOf, Eval, Overwritable,
         Grows, SlotAt, StoreSlot;
    var left, right := e.left, e.right;
    var l6 := CompExpr(right, l5);
    WithinEmit(l6, [StoreSlot(l.env, y)], p);
    WithinBefore(l5, l6, p);
    ReachesSelf(p, m);
    QuietSelf(l, m.mem, {});
    var m2 := SimInto(left, x, l, l3, p, m, m, st, bad);
    m' := SimInto(right, y, l, l5, p, m, m2, st, bad);
  }

  lemma SimQuotient(env: Env, x: nat, y: nat, rem: nat, quo: nat, a: int, b: int, l: Low, p: Program, m0: State,
        m: State, at: nat)
    returns (m': State)
    requires env == l.env && Reaches(p, m0, m) && CodeAt(p, at, FloorDivCode(env, x, y, rem, quo)) && m.pc == at
    requires SlotAt(env, x) in m.mem.slots && m.mem.slots[SlotAt(env, x)] == I64(a)
    requires SlotAt(env, y) in m.mem.slots && m.mem.slots[SlotAt(env, y)] == I64(b) && b != 0
    requires SlotAt(env, quo) != SlotAt(env, x) && SlotAt(env, quo) != SlotAt(env, y)
      && SlotAt(env, quo) != SlotAt(env, rem)
    requires SlotAt(env, rem) != SlotAt(env, x) && SlotAt(env, rem) != SlotAt(env, y)
    requires Quiet(l, m0.mem, m.mem, {}) && Overwritable(l, SlotAt(env, quo)) && Overwritable(l, SlotAt(env, rem))
    ensures |FloorDivCode(env, x, y, rem, quo)| == 21
    ensures Reaches(p, m0, m') && m'.pc == at + 21 && m'.stack == Push(I64(FloorDiv(a, b)), m.stack)
    ensures Quiet(l, m0.mem, m'.mem, {})
  {
    hide Step, Run, Reaches, CodeAt, Quiet, Overwritable, SlotAt, FloorDiv, TruncDiv, TruncRem, FloorDivCode;
    m' := RunFloorDiv(env, x, y, rem, quo, a, b, p, m0, m, at);
    QuietStore(l, SlotAt(env, quo), m0.mem, m.mem, I64(TruncDiv(a, b)), {});
    QuietStore(l, SlotAt(env, rem), m0.mem, m.mem.(slots := m.mem.slots[SlotAt(env, quo) := I64(TruncDiv(a, b))]),
          I64(TruncRem(a, b)), {});
  }

  /** The four scratch slots of a floored division are distinct, and the operand
      slots survive the other operand. */
  lemma FloorDivSlots(left: Expr, right: Expr, l: Low, l1: Low, l2: Low, l3: Low, l5: Low, l7: Low, x: Slot, y: Slot,
        rem: Slot, quo: Slot)
    requires l1 == Reserve(l, KindI64) && l2 == Reserve(l1, KindI64) && l3 == Reserve(l2, KindI64)
    requires l5 == Emit(CompExpr(left, l3), [StoreSlot(l.env, Reserved(l, KindI64))])
    requires l7 == Emit(CompExpr(right, l5), [StoreSlot(l.env, Reserved(l1, KindI64))])
    requires x == SlotAt(l.env, Reserved(l, KindI64)) && y == SlotAt(l.env, Reserved(l1, KindI64))
    requires rem == SlotAt(l.env, Reserved(l2, KindI64)) && quo == SlotAt(l.env, Reserved(l7, KindI64))
    ensures Grows(l, l3) && Grows(l, l5)
    ensures Overwritable(l, x) && Overwritable(l, y) && Overwritable(l, rem) && Overwritable(l, quo)
    ensures !Overwritable(l5, x)
    ensures x != y && x != rem && y != rem && quo != x && quo != y && quo != rem
  {
    hide RawPool.Valid, CompExpr, TypeOf, Overwritable, SlotAt;
    ReservedSlot(l, KindI64, l2);
    ReservedSlot(l, KindI64, l5);
    ReservedSlot(l, KindI64, l7);
    ReservedSlot(l, KindI64, l1);
    ReservedSlot(l1, KindI64, l2);
    ReservedSlot(l1, KindI64, l7);
    ReservedSlot(l2, KindI64, l7);
    ReservedSlot(l7, KindI64, Reserve(l7, KindI64));
    OverwritableBefore(l, l1, SlotAt(l.env, Reserved(l1, KindI64)));
    OverwritableBefore(l, l2, SlotAt(l.env, Reserved(l2, KindI64)));
    OverwritableBefore(l, l7, SlotAt(l.env, Reserved(l7, KindI64)));
  }

  lemma RunFloorDiv(env: Env, x: nat, y: nat, rem: nat, quo: nat, a: int, b: int, p: Program, m0: State, m: State,
        at: nat)
    returns (m': State)
    requires Reaches(p, m0, m) && CodeAt(p, at, FloorDivCode(env, x, y, rem, quo)) && m.pc == at
    requires SlotAt(env, x) in m.mem.slots && m.mem.slots[SlotAt(env, x)] == I64(a)
    requires SlotAt(env, y) in m.mem.slots && m.mem.slots[SlotAt(env, y)] == I64(b) && b != 0
    requires SlotAt(env, quo) != SlotAt(env, x) && SlotAt(env, quo) != SlotAt(env, y)
      && SlotAt(env, quo) != SlotAt(env, rem)
    requires SlotAt(env, rem) != SlotAt(env, x) && SlotAt(env, rem) != SlotAt(env, y)
    ensures |FloorDivCode(env, x, y, rem, quo)| == 21
    ensures Reaches(p, m0, m')
    ensures m' == State(at + 21, Push(I64(FloorDiv(a, b)), m.stack),
                        m.mem.(slots := m.mem.slots[SlotAt(env, quo) := I64(TruncDiv(a, b))]
                                                   [SlotAt(env, rem) := I64(TruncRem(a, b))]))
  {
    hide Step, Run, Reaches, CodeAt, TruncRem, TruncDiv, FloorDiv, Xor, SlotAt, LoadSlot, StoreSlot, QuoRemCode,
         AdjustCode;
    var fix := [LoadSlot(env, quo), Swap, I64Bin(I64Sub)];
    CodeAtConcat(p, at, QuoRemCode(env, x, y, rem, quo) + AdjustCode(env, x, y, rem), fix);
    CodeAtConcat(p, at, QuoRemCode(env, x, y, rem, quo), AdjustCode(env, x, y, rem));
    var m1 := RunQuoRem(env, x, y, rem, quo, a, b, p, m0, m, at);
    var m2 := RunAdjust(env, x, y, rem, a, b, p, m0, m1, at + 8);
    var m3 := LoadScratch(p, m0, m2, at + 18, fix, 0, env, quo);
    var m4 := Next(p, m0, m3, at + 18, fix, 1);
    m' := Next(p, m0, m4, at + 18, fix, 2);
    SignCorrectedQuotient(a, b);
  }

  lemma RunQuoRem(env: Env, x: nat, y: nat, rem: nat, quo: nat, a: int, b: int, p: Program, m0: State, m: State,
        at: nat)
    returns (m': State)
    requires Reaches(p, m0, m) && CodeAt(p, at, QuoRemCode(env, x, y, rem, quo)) && m.pc == at
    requires SlotAt(env, x) in m.mem.slots && m.mem.slots[SlotAt(env, x)] == I64(a)
    requires SlotAt(env, y) in m.mem.slots && m.mem.slots[SlotAt(env, y)] == I64(b) && b != 0
    requires SlotAt(env, quo) != SlotAt(env, x) && SlotAt(env, quo) != SlotAt(env, y)
    ensures |QuoRemCode(env, x, y, rem, quo)| == 8
    ensures Reaches(p, m0, m')
    ensures m' == State(at + 8, m.stack,
                        m.mem.(slots := m.mem.slots[SlotAt(env, quo) := I64(TruncDiv(a, b))]
                                                   [SlotAt(env, rem) := I64(TruncRem(a, b))]))
  {
    hide Step, Run, Reaches, CodeAt, TruncRem, TruncDiv, SlotAt, LoadSlot, StoreSlot;
    var ins := QuoRemCode(env, x, y, rem, quo);
    var m1 := LoadScratch(p, m0, m, at, ins, 0, env, x);
    var m2 := LoadScratch(p, m0, m1, at, ins, 1, env, y);
    var m3 := Next(p, m0, m2, at, ins, 2);
    var m4 := StoreScratch(p, m0, m3, at, ins, 3, env, quo);
    var m5 := LoadScratch(p, m0, m4, at, ins, 4, env, x);
    var m6 := LoadScratch(p, m0, m5, at, ins, 5, env, y);
    var m7 := Next(p, m0, m6, at, ins, 6);
    m' := StoreScratch(p, m0, m7, at, ins, 7, env, rem);
  }

  /** One, when the remainder is non-zero and the operands' signs differ. */
  lemma RunAdjust(env: Env, x: nat, y: nat, rem: nat, a: int, b: int, p: Program, m0: State, m: State, at: nat)
    returns (m': State)
    requires Reaches(p, m0, m) && CodeAt(p, at, AdjustCode(env, x, y, rem)) && m.pc == at && b != 0
    requires SlotAt(env, x) in m.mem.slots && m.mem.slots[SlotAt(env, x)] == I64(a)
    requires SlotAt(env, y) in m.mem.slots && m.mem.slots[SlotAt(env, y)] == I64(b)
    requires SlotAt(env, rem) in m.mem.slots && m.mem.slots[SlotAt(env, rem)] == I64(TruncRem(a, b))
    ensures |AdjustCode(env, x, y, rem)| == 10
    ensures Reaches(p, m0, m')
    ensures m' == m.(pc := at + 10, stack := Push(I64(if TruncRem(a, b) != 0 && Xor(a, b) < 0 then 1 else 0), m.stack))
  {
    hide Step, Run, Reaches, CodeAt, TruncRem, Xor, SlotAt, LoadSlot, StoreSlot;
    var ne := [LoadSlot(env, rem), I64Const(0), I64Cmp(Ne)];
    var signs := [LoadSlot(env, x), LoadSlot(env, y), I64Bin(I64Xor), I64Const(0), I64Cmp(Lt)];
    var both := [I32And, I32ToI64];
    CodeAtConcat(p, at, ne + signs, both);
    CodeAtConcat(p, at, ne, signs);
    var m1 := LoadScratch(p, m0, m, at, ne, 0, env, rem);
    var m2 := Next(p, m0, m1, at, ne, 1);
    var m3 := Next(p, m0, m2, at, ne, 2);
    var m8 := RunSigns(env, x, y, a, b, p, m0, m3, at + 3);
    var m9 := Next(p, m0, m8, at + 8, both, 0);
    m' := Next(p, m0, m9, at + 8, both, 1);
  }

  lemma RunSigns(env: Env, x: nat, y: nat, a: int, b: int, p: Program, m0: State, m: State, at: nat) returns (m': State)
    requires Reaches(p, m0, m) && m.pc == at
    requires CodeAt(p, at, [LoadSlot(env, x), LoadSlot(env, y), I64Bin(I64Xor), I64Const(0), I64Cmp(Lt)])
    requires SlotAt(env, x) in m.mem.slots && m.mem.slots[SlotAt(env, x)] == I64(a)
    requires SlotAt(env, y) in m.mem.slots && m.mem.slots[SlotAt(env, y)] == I64(b)
    ensures Reaches(p, m0, m')
    ensures m' == m.(pc := at + 5, stack := Push(I1(Xor(a, b) < 0), m.stack))
  {
    hide Step, Run, Reaches, CodeAt, Xor, SlotAt, LoadSlot, StoreSlot;
    var ins := [LoadSlot(env, x), LoadSlot(env, y), I64Bin(I64Xor), I64Const(0), I64Cmp(Lt)];
    var m1 := LoadScratch(p, m0, m, at, ins, 0, env, x);
    var m2 := LoadScratch(p, m0, m1, at, ins, 1, env, y);
    var m3 := Next(p, m0, m2, at, ins, 2);
    var m4 := Next(p, m0, m3, at, ins, 3);
    m' := Next(p, m0, m4, at, ins, 4);
  }

  // Short circuits.

  lemma {:induction false} SimBoolOp(e: Expr, l: Low, p: Program, m: State, st: Store, bad: set<nat>)
    returns (m': State)
    requires e.BoolOp?
    requires Ready(l, CompBoolOp(e.isAnd, e.left, e.right, l), p, m, st, bad)
    requires TypeOf(l.env.types, e).Some? && Eval(e, st).Some?
    ensures Computes(l, CompBoolOp(e.isAnd, e.left, e.right, l), p, m, m', Eval(e, st).value, bad)
    decreases e, 2
  {
    hide RawPool.Valid, Step, Run, Reaches, CodeAt, Within, Quiet, Agrees, CompExpr;
    var isAnd, left, right := e.isAnd, e.left, e.right;
    var b := Eval(left, st).value.b;
    if isAnd {
      m' := SimAnd(e, b, l, p, m, st, bad);
    } else {
      m' := SimOr(e, b, l, p, m, st, bad);
    }
  }

  /** The left operand was evaluated and duplicated. */
  lemma {:induction false} SimLeft(left: Expr, b: bool, l: Low, p: Program, m: State, st: Store, bad: set<nat>)
    returns (m': State)
    requires Ready(l, Emit(CompExpr(left, l), [Dup]), p, m, st, bad)
    requires TypeOf(l.env.types, left).Some? && Eval(left, st) == Some(VBool(b))
    ensures Reaches(p, m, m') && m'.pc == |CompExpr(left, l).code| + 1
    ensures m'.stack == Push(I1(b), Push(I1(b), m.stack))
    ensures Quiet(l, m.mem, m'.mem, {})
    decreases left, 4
  {
    hide RawPool.Valid, Step, Run, Reaches, CodeAt, CompExpr, Agrees, Quiet, Within, Eval, TypeOf;
    WithinEmit(CompExpr(left, l), [Dup], p);
    var m1 := SimExpr(left, l, p, m, st, bad);
    m' := Next(p, m, m1, |CompExpr(left, l).code|, [Dup], 0);
  }

  lemma {:induction false} SimAnd(e: Expr, b: bool, l: Low, p: Program, m: State, st: Store, bad: set<nat>)
    returns (m': State)
    requires e.BoolOp?
    requires Ready(l, CompBoolOp(true, e.left, e.right, l), p, m, st, bad)
    requires TypeOf(l.env.types, e.left).Some? && TypeOf(l.env.types, e.right).Some?
    requires Eval(e.left, st) == Some(VBool(b)) && (b ==> Eval(e.right, st).Some?)
    ensures Computes(l, CompBoolOp(true, e.left, e.right, l), p, m, m',
                     if b then Eval(e.right, st).value else VBool(false), bad)
    decreases e, 1
  {
    hide RawPool.Valid, Step, Run, Reaches, CodeAt, CompExpr, Agrees, Quiet, Within, Eval, TypeOf;
    var left, right := e.left, e.right;
    var l1 := Emit(CompExpr(left, l), [Dup]);
    var eval, end := l1.Next(), l1.Next() + 1;
    var ins := [BrIf(eval), Br(end)];
    var l2 := Emit(Labels(l1, 2), ins);
    var l3 := Bind(l2, eval);
    var l4 := Emit(l3, [Drop]);
    var l5 := CompExpr(right, l4);
    WithinBind(l5, end, p);
    WithinBefore(l4, l5, p);
    WithinEmit(l3, [Drop], p);
    WithinBind(l2, eval, p);
    WithinEmit(Labels(l1, 2), ins, p);
    WithinLabels(l1, 2, p);
    var m2 := SimLeft(left, b, l, p, m, st, bad);
    var m3 := Branch(p, m, m2, |l1.code|, ins, 0, b);
    if b {
      var m4 := Next(p, m, m3, |l3.code|, [Drop], 0);
      m' := SimThen(right, l, l4, p, m, m4, st, bad);
    } else {
      m' := Jump(p, m, m3, |l1.code|, ins, 1);
    }
  }

  lemma {:induction false} SimOr(e: Expr, b: bool, l: Low, p: Program, m: State, st: Store, bad: set<nat>)
    returns (m': State)
    requires e.BoolOp?
    requires Ready(l, CompBoolOp(false, e.left, e.right, l), p, m, st, bad)
    requires TypeOf(l.env.types, e.left).Some? && TypeOf(l.env.types, e.right).Some?
    requires Eval(e.left, st) == Some(VBool(b)) && (!b ==> Eval(e.right, st).Some?)
    ensures Computes(l, CompBoolOp(false, e.left, e.right, l), p, m, m',
                     if b then VBool(true) else Eval(e.right, st).value, bad)
    decreases e, 1
  {
    hide RawPool.Valid, Step, Run, Reaches, CodeAt, CompExpr, Agrees, Quiet, Within, Eval, TypeOf;
    var left, right := e.left, e.right;
    var l1 := Emit(CompExpr(left, l), [Dup]);
    var end := l1.Next();
    var ins := [BrIf(end), Drop];
    var l2 := Emit(Labels(l1, 1), ins);
    var l3 := CompExpr(right, l2);
    WithinBind(l3, end, p);
    WithinBefore(l2, l3, p);
    WithinEmit(Labels(l1, 1), ins, p);
    WithinLabels(l1, 1, p);
    var m2 := SimLeft(left, b, l, p, m, st, bad);
    m' := Branch(p, m, m2, |l1.code|, ins, 0, b);
    if !b {
      var m4 := Next(p, m, m', |l1.code|, ins, 1);
      m' := SimThen(right, l, l2, p, m, m4, st, bad);
    }
  }

  lemma {:induction false} SimIfExp(e: Expr, l: Low, p: Program, m: State, st: Store, bad: set<nat>)
    returns (m': State)
    requires e.IfExp?
    requires Ready(l, CompIfExp(e.body, e.cond, e.orelse, l), p, m, st, bad)
    requires TypeOf(l.env.types, e).Some? && Eval(e, st).Some?
    ensures Computes(l, CompIfExp(e.body, e.cond, e.orelse, l), p, m, m', Eval(e, st).value, bad)
    decreases e, 2
  {
    hide RawPool.Valid, Step, Run, Reaches, CodeAt, CompExpr, Agrees, Quiet, Within;
    var body, cond, orelse := e.body, e.cond, e.orelse;
    var l1 := CompExpr(cond, l);
    var trueL, end := l1.Next(), l1.Next() + 1;
    var l2 := Emit(Labels(l1, 2), [BrIf(trueL)]);
    var l3 := CompExpr(orelse, l2);
    var l4 := Emit(l3, [Br(end)]);
    var l5 := Bind(l4, trueL);
    var l6 := CompExpr(body, l5);
    WithinBind(l6, end, p);
    WithinBefore(l5, l6, p);
    WithinBind(l4, trueL, p);
    WithinEmit(l3, [Br(end)], p);
    WithinBefore(l2, l3, p);
    WithinEmit(Labels(l1, 2), [BrIf(trueL)], p);
    WithinLabels(l1, 2, p);
    var m1 := SimExpr(cond, l, p, m, st, bad);
    var b := Eval(cond, st).value.b;
    var m2 := Branch(p, m, m1, |l1.code|, [BrIf(trueL)], 0, b);
    if b {
      m' := SimThen(body, l, l5, p, m, m2, st, bad);
    } else {
      var m3 := SimThen(orelse, l, l2, p, m, m2, st, bad);
      m' := Jump(p, m, m3, |l3.code|, [Br(end)], 0);
    }
  }

  // Comparisons.

  /** The word a scalar is on the stack. */
  function WordOf(v: Value): Word {
    match v
    case VInt(i) => I64(i)
    case VBool(b) => I1(b)
    case _ => Ref(0)
  }

  lemma ScalarWord(h: Heap, w: Word, v: Value, bad: set<nat>, t: Type)
    requires Rep(h, w, v, bad) && HasType(v, t) && IsScalar(Some(t))
    ensures w == WordOf(v)
  {
  }

  /** One comparison of two scalars of the same static type. */
  lemma SimCmp(op: CmpOp, t: Type, a: Value, b: Value, p: Program, m0: State, m: State, at: nat, ins: seq<Instr>,
        k: nat, below: Stack)
    returns (m': State)
    requires AtInstr(p, m0, m, at, ins, k) && ins[k] == CmpInstr(op, Some(t))
    requires IsScalar(Some(t)) && HasType(a, t) && HasType(b, t)
    requires m.stack == Push(WordOf(b), Push(WordOf(a), below))
    ensures CmpValues(op, a, b).Some?
    ensures m' == m.(pc := m.pc + 1, stack := Push(I1(CmpValues(op, a, b).value), below)) && Reaches(p, m0, m')
  {
    hide Step, Run, Reaches, CodeAt;
    m' := Next(p, m0, m, at, ins, k);
  }

  lemma {:induction false} SimCompare(first: Expr, ops: seq<CmpOp>, rest: seq<Expr>, l: Low, p: Program, m: State,
        st: Store, bad: set<nat>)
    returns (m': State)
    requires Ready(l, CompCompare(first, ops, rest, l), p, m, st, bad)
    requires TypeOf(l.env.types, Compare(first, ops, rest)).Some? && Eval(Compare(first, ops, rest), st).Some?
    ensures Computes(l, CompCompare(first, ops, rest, l), p, m, m', Eval(Compare(first, ops, rest), st).value, bad)
    decreases Compare(first, ops, rest), 2
  {
    hide RawPool.Valid, Step, Run, Reaches, CodeAt, CompExpr, Quiet, Within, Agrees;
    var t, v := TypeOf(l.env.types, first).value, Eval(first, st).value;
    var b := EvalChain(v, ops, rest, st).value;
    AgreesTyped(l.env, st, m.mem, bad);
    EvalTyped(l.env.types, first, st);
    if |ops| == 1 {
      m' := SimOneCompare(first, ops, rest, t, v, b, l, p, m, st, bad);
    } else {
      m' := SimChainCompare(first, ops, rest, t, v, b, l, p, m, st, bad);
    }
  }

  lemma {:induction false} SimOneCompare(left: Expr, ops: seq<CmpOp>, rest: seq<Expr>, t: Type, v: Value, b: bool,
        l: Low, p: Program, m: State, st: Store, bad: set<nat>)
    returns (m': State)
    requires |ops| == |rest| == 1
    requires Ready(l, CompCompare(left, ops, rest, l), p, m, st, bad)
    requires TypeOf(l.env.types, left) == TypeOf(l.env.types, rest[0]) == Some(t) && IsScalar(Some(t))
    requires Eval(left, st) == Some(v) && EvalChain(v, ops, rest, st) == Some(b)
    ensures Computes(l, CompCompare(left, ops, rest, l), p, m, m', VBool(b), bad)
    decreases Compare(left, ops, rest), 1
  {
    hide RawPool.Valid, Step, Run, Reaches, CodeAt, CompExpr, Quiet, Within, Agrees, Grows, Eval, TypeOf, CmpValues,
         CmpInstr;
    var op, right := ops[0], rest[0];
    var w := Eval(right, st).value;
    var l1 := CompExpr(left, l);
    var l2 := CompExpr(right, l1);
    WithinEmit(l2, [CmpInstr(op, Some(t))], p);
    WithinBefore(l1, l2, p);
    AgreesTyped(l.env, st, m.mem, bad);
    EvalTyped(l.env.types, left, st);
    EvalTyped(l.env.types, right, st);
    var m1 := SimExpr(left, l, p, m, st, bad);
    ScalarWord(m1.mem.heap, m1.stack.top, v, bad, t);
    var m2 := SimThen(right, l, l1, p, m, m1, st, bad);
    ScalarWord(m2.mem.heap, m2.stack.top, w, bad, t);
    m' := SimCmp(op, t, v, w, p, m, m2, |l2.code|, [CmpInstr(op, Some(t))], 0, m.stack);
    LastLink(v, ops, rest, st);
  }

  lemma LastLink(v: Value, ops: seq<CmpOp>, rest: seq<Expr>, st: Store)
    requires |ops| == |rest| == 1 && EvalChain(v, ops, rest, st).Some?
    ensures Eval(rest[0], st).Some? && EvalChain(v, ops, rest, st) == CmpValues(ops[0], v, Eval(rest[0], st).value)
  {
    hide CmpValues, Eval;
    assert EvalChain(Eval(rest[0], st).value, ops[1..], rest[1..], st) == Some(true);
  }

  lemma {:induction false} SimChainCompare(first: Expr, ops: seq<CmpOp>, rest: seq<Expr>, t: Type, v: Value, b: bool,
        l: Low, p: Program, m: State, st: Store, bad: set<nat>)
    returns (m': State)
    requires |ops| == |rest| > 1
    requires Ready(l, CompCompare(first, ops, rest, l), p, m, st, bad)
    requires TypeOf(l.env.types, first) == Some(t) && IsScalar(Some(t)) && AllTyped(l.env.types, rest, t)
    requires Eval(first, st) == Some(v) && EvalChain(v, ops, rest, st) == Some(b)
    ensures Computes(l, CompCompare(first, ops, rest, l), p, m, m', VBool(b), bad)
    decreases Compare(first, ops, rest), 1
  {
    hide RawPool.Valid, Step, Run, Reaches, CodeAt, CompExpr, CompChain, Quiet, Within, Agrees, Eval, EvalChain,
         TypeOf, SlotAt, Overwritable;
    var k := KindOf(Some(t));
    var slot := Reserved(l, k);
    var l0 := Labels(Reserve(l, k), 1);
    var l1 := Emit(CompExpr(first, l0), [StoreSlot(l.env, slot)]);
    var l2 := CompChain(slot, first, ops, rest, l.Next(), l1);
    assert l0.labels[l.Next()] == None;
    WithinBind(l2, l.Next(), p);
    WithinBefore(l1, l2, p);
    ReservedSlot(l, k, l1);
    AgreesTyped(l.env, st, m.mem, bad);
    EvalTyped(l.env.types, first, st);
    ReachesSelf(p, m);
    QuietSelf(l, m.mem, {});
    var m1 := SimInto(first, slot, l, l0, p, m, m, st, bad);
    ScalarWord(m1.mem.heap, m1.mem.slots[SlotAt(l.env, slot)], v, bad, t);
    m' := SimChain(slot, first, ops, rest, l.Next(), t, v, b, l, l1, p, m, m1, st, bad);
  }

  /** The left operand of the rest of the chain is in `slot`. */
  lemma {:induction false} SimChain(slot: nat, left: Expr, ops: seq<CmpOp>, rest: seq<Expr>, end: Label, t: Type,
        v: Value, b: bool,
                                    l: Low, l1: Low, p: Program, m0: State, m: State, st: Store, bad: set<nat>)
    returns (m': State)
    requires |ops| == |rest| > 0
    requires ValidEnv(l.env) && Grows(l, l1) && Within(CompChain(slot, left, ops, rest, end, l1), p)
    requires p.Bound(end) && p.labels[end].value == |CompChain(slot, left, ops, rest, end, l1).code|
    requires m.pc == |l1.code| && Agrees(l.env, st, m0.mem, bad) && Reaches(p, m0, m) && Quiet(l, m0.mem, m.mem, {})
    requires TypeOf(l.env.types, left) == Some(t) && IsScalar(Some(t)) && AllTyped(l.env.types, rest, t)
    requires HasType(v, t) && EvalChain(v, ops, rest, st) == Some(b)
    requires !Overwritable(l1, SlotAt(l.env, slot)) && SlotAt(l.env, slot) in m.mem.slots
    requires m.mem.slots[SlotAt(l.env, slot)] == WordOf(v)
    ensures Reaches(p, m0, m') && m'.pc == |CompChain(slot, left, ops, rest, end, l1).code|
    ensures m'.stack == Push(I1(b), m.stack) && Quiet(l, m0.mem, m'.mem, {})
    decreases rest, 7
  {
    hide RawPool.Valid, Step, Run, Reaches, CodeAt, CompExpr, Quiet, Within, Agrees, Eval, TypeOf, CmpValues, CmpInstr;
    hide SlotAt, LoadSlot, StoreSlot, Overwritable;
    var w := Eval(rest[0], st).value;
    var cmp := CmpInstr(ops[0], Some(t));
    var la := Emit(l1, [LoadSlot(l.env, slot)]);
    var lb := CompExpr(rest[0], la);
    if |ops| == 1 {
      WithinEmit(lb, [cmp], p);
      var m2 := SimLink(slot, t, v, rest, l, l1, p, m0, m, st, bad);
      m' := SimCmp(ops[0], t, v, w, p, m0, m2, |lb.code|, [cmp], 0, m.stack);
      LastLink(v, ops, rest, st);
    } else {
      var k := KindOf(Some(t));
      var slot' := Reserved(lb, k);
      var ins := LinkCode(l.env, slot', cmp, end);
      var lc := Emit(Reserve(lb, k), ins);
      WithinBefore(lc, CompChain(slot', rest[0], ops[1..], rest[1..], end, lc), p);
      WithinEmit(Reserve(lb, k), ins, p);
      WithinReserve(lb, k, p);
      var m2 := SimLink(slot, t, v, rest, l, l1, p, m0, m, st, bad);
      ReservedSlot(lb, k, lc);
      OverwritableBefore(l, lb, SlotAt(l.env, slot'));
      m' := RunLink(ops[0], t, v, w, slot', end, l, p, m0, m2, m.stack, |lb.code|);
      if CmpValues(ops[0], v, w).value {
        EvalTypedHere(l.env, rest[0], st, m0.mem, bad);
        m' := SimChain(slot', rest[0], ops[1..], rest[1..], end, t, w, b, l, lc, p, m0, m', st, bad);
      }
    }
  }

  lemma EvalTypedHere(env: Env, e: Expr, st: Store, mem: Memory, bad: set<nat>)
    requires Agrees(env, st, mem, bad) && TypeOf(env.types, e).Some? && Eval(e, st).Some?
    ensures HasType(Eval(e, st).value, TypeOf(env.types, e).value)
  {
    AgreesTyped(env, st, mem, bad);
    EvalTyped(env.types, e, st);
  }

  /** Both operands of the next comparison are on the stack. */
  lemma {:induction false} SimLink(slot: nat, t: Type, v: Value, rest: seq<Expr>, l: Low, l1: Low, p: Program,
        m0: State, m: State, st: Store, bad: set<nat>)
    returns (m': State)
    requires rest != [] && ValidEnv(l.env) && Grows(l, l1)
    requires Within(CompExpr(rest[0], Emit(l1, [LoadSlot(l.env, slot)])), p)
    requires m.pc == |l1.code| && Agrees(l.env, st, m0.mem, bad) && Reaches(p, m0, m) && Quiet(l, m0.mem, m.mem, {})
    requires TypeOf(l.env.types, rest[0]) == Some(t) && IsScalar(Some(t)) && Eval(rest[0], st).Some?
    requires SlotAt(l.env, slot) in m.mem.slots && m.mem.slots[SlotAt(l.env, slot)] == WordOf(v)
    ensures Reaches(p, m0, m') && m'.pc == |CompExpr(rest[0], Emit(l1, [LoadSlot(l.env, slot)])).code|
    ensures m'.stack == Push(WordOf(Eval(rest[0], st).value), Push(WordOf(v), m.stack))
    ensures HasType(Eval(rest[0], st).value, t)
    ensures Quiet(l, m0.mem, m'.mem, {})
    decreases rest, 6
  {
    hide RawPool.Valid, Step, Run, Reaches, CodeAt, CompExpr, Quiet, Within, Agrees, Eval, TypeOf;
    hide SlotAt, LoadSlot, StoreSlot, Overwritable;
    var la := Emit(l1, [LoadSlot(l.env, slot)]);
    WithinBefore(la, CompExpr(rest[0], la), p);
    WithinEmit(l1, [LoadSlot(l.env, slot)], p);
    var m1 := LoadScratch(p, m0, m, |l1.code|, [LoadSlot(l.env, slot)], 0, l.env, slot);
    m' := SimThen(rest[0], l, la, p, m0, m1, st, bad);
    EvalTypedHere(l.env, rest[0], st, m0.mem, bad);
    ScalarWord(m'.mem.heap, m'.stack.top, Eval(rest[0], st).value, bad, t);
  }

  /** A middle operand is kept, and a false comparison ends the chain. */
  lemma RunLink(op: CmpOp, t: Type, v: Value, w: Value, slot: nat, end: Label, l: Low, p: Program, m0: State,
        m: State, below: Stack, at: nat)
    returns (m': State)
    requires Reaches(p, m0, m) && m.pc == at && CodeAt(p, at, LinkCode(l.env, slot, CmpInstr(op, Some(t)), end))
    requires p.Bound(end) && Quiet(l, m0.mem, m.mem, {}) && Overwritable(l, SlotAt(l.env, slot))
    requires IsScalar(Some(t)) && HasType(v, t) && HasType(w, t)
    requires m.stack == Push(WordOf(w), Push(WordOf(v), below))
    ensures CmpValues(op, v, w).Some? && Reaches(p, m0, m') && Quiet(l, m0.mem, m'.mem, {})
    ensures SlotAt(l.env, slot) in m'.mem.slots && m'.mem.slots[SlotAt(l.env, slot)] == WordOf(w)
    ensures if CmpValues(op, v, w).value then m'.pc == at + 7 && m'.stack == below
            else m'.pc == p.labels[end].value && m'.stack == Push(I1(false), below)
  {
    hide Step, Run, Reaches, CodeAt, Quiet, CmpInstr, WordOf, SlotAt, LoadSlot, StoreSlot, Overwritable, CmpValues;
    var ins := LinkCode(l.env, slot, CmpInstr(op, Some(t)), end);
    var m1 := Next(p, m0, m, at, ins, 0);
    var m2 := StoreScratch(p, m0, m1, at, ins, 1, l.env, slot);
    QuietStore(l, SlotAt(l.env, slot), m0.mem, m.mem, WordOf(w), {});
    var m3 := SimCmp(op, t, v, w, p, m0, m2, at, ins, 2, below);
    var m4 := Next(p, m0, m3, at, ins, 3);
    var m5 := Next(p, m0, m4, at, ins, 4);
    var m6 := Branch(p, m0, m5, at, ins, 5, !CmpValues(op, v, w).value);
    if CmpValues(op, v, w).value {
      m' := Next(p, m0, m6, at, ins, 6);
    } else {
      m' := m6;
    }
  }

  // Displays: a fresh object is filled while its elements are evaluated.

  lemma {:induction false} SimTupleLit(elems: seq<Expr>, l: Low, p: Program, m: State, st: Store, bad: set<nat>)
    returns (m': State)
    requires Ready(l, CompExpr(TupleLit(elems), l), p, m, st, bad)
    requires TypesOf(l.env.types, elems).Some? && EvalAll(elems, st).Some?
    ensures Computes(l, CompExpr(TupleLit(elems), l), p, m, m', VTuple(EvalAll(elems, st).value), bad)
    decreases TupleLit(elems), 2
  {
    hide RawPool.Valid, Step, Run, Reaches, CodeAt, Within, Agrees, Quiet, Rep, TypesOf, EvalAll, CompElems, KindsOf;
    var ks := KindsOf(TypesOf(l.env.types, elems).value);
    var l1 := Emit(l, [StructNewDefault(ks)]);
    WithinBefore(l1, CompElems(elems, 0, StructSet, l1), p);
    WithinEmit(l, [StructNewDefault(ks)], p);
    ReachesSelf(p, m);
    var m1 := Next(p, m, m, |l.code|, [StructNewDefault(ks)], 0);
    TypesOfSome(l.env.types, elems);
    m' := SimFill(elems, StructSet, l, l1, p, m, m1, st, bad);
    RepTuple(m'.mem.heap, |m.mem.heap|, EvalAll(elems, st).value, bad);
  }

  lemma {:induction false} SimListLit(elems: seq<Expr>, t: Type, l: Low, p: Program, m: State, st: Store, bad: set<nat>)
    returns (m': State)
    requires Ready(l, CompExpr(ListLit(elems, t), l), p, m, st, bad)
    requires AllTyped(l.env.types, elems, t) && EvalAll(elems, st).Some?
    ensures Computes(l, CompExpr(ListLit(elems, t), l), p, m, m', VList(EvalAll(elems, st).value), bad)
    decreases ListLit(elems, t), 2
  {
    hide RawPool.Valid, Step, Run, Reaches, CodeAt, Within, Agrees, Quiet, Rep, AllTyped, EvalAll, CompElems;
    var ins := [I32Const(|elems|), ArrayNewDefault(KindOf(Some(t)))];
    var l1 := Emit(l, ins);
    WithinBefore(l1, CompElems(elems, 0, ArraySet, l1), p);
    WithinEmit(l, ins, p);
    ReachesSelf(p, m);
    var m0 := Next(p, m, m, |l.code|, ins, 0);
    var m1 := Next(p, m, m0, |l.code|, ins, 1);
    AllTypedSome(l.env.types, elems, t);
    m' := SimFill(elems, ArraySet, l, l1, p, m, m1, st, bad);
    RepTuple(m'.mem.heap, |m.mem.heap|, EvalAll(elems, st).value, bad);
  }

  lemma RepTuple(h: Heap, a: nat, vs: seq<Value>, bad: set<nat>)
    requires a < |h| && a !in bad && |h[a]| == |vs|
    requires forall k :: 0 <= k < |vs| ==> Rep(h, h[a][k], vs[k], bad + {a})
    ensures Rep(h, Ref(a), VTuple(vs), bad) && Rep(h, Ref(a), VList(vs), bad)
  {
    forall k | 0 <= k < |vs| ensures Rep(h, h[a][k], vs[k], bad) {
      RepWeaken(h, h[a][k], vs[k], bad + {a}, bad);
    }
  }

  lemma {:induction false} TypesOfSome(g: Types, es: seq<Expr>)
    requires TypesOf(g, es).Some?
    ensures forall k :: 0 <= k < |es| ==> TypeOf(g, es[k]).Some?
  {
    if es != [] {
      TypesOfSome(g, es[1..]);
    }
  }

  lemma {:induction false} AllTypedSome(g: Types, es: seq<Expr>, t: Type)
    requires AllTyped(g, es, t)
    ensures forall k :: 0 <= k < |es| ==> TypeOf(g, es[k]) == Some(t)
  {
    if es != [] {
      AllTypedSome(g, es[1..], t);
    }
  }

  /** From a freshly allocated object, still unreachable from every variable, to
      the object holding its elements. */
  lemma {:induction false} SimFill(es: seq<Expr>, set_: Instr, l: Low, l1: Low, p: Program, m: State, m1: State,
        st: Store, bad: set<nat>)
    returns (m': State)
    requires set_ == StructSet || set_ == ArraySet
    requires ValidEnv(l.env) && Grows(l, l1) && Within(CompElems(es, 0, set_, l1), p) && Agrees(l.env, st, m.mem, bad)
    requires Reaches(p, m, m1) && m1.pc == |l1.code|
    requires m1.stack == Push(Ref(|m.mem.heap|), m.stack) && m1.mem.slots == m.mem.slots
    requires exists cell :: m1.mem.heap == m.mem.heap + [cell] && |cell| == |es|
    requires EvalAll(es, st).Some? && forall k :: 0 <= k < |es| ==> TypeOf(l.env.types, es[k]).Some?
    ensures Reaches(p, m, m') && m'.pc == |CompElems(es, 0, set_, l1).code|
    ensures m'.stack == m1.stack && Quiet(l, m.mem, m'.mem, {})
    ensures var a := |m.mem.heap|;
            && a < |m'.mem.heap| && a !in bad && |m'.mem.heap[a]| == |es|
            && forall k :: 0 <= k < |es| ==> Rep(m'.mem.heap, m'.mem.heap[a][k], EvalAll(es, st).value[k], bad + {a})
    decreases es, 8
  {
    hide RawPool.Valid, Step, Run, Reaches, CodeAt, Within, Rep, TypeOf, EvalAll, CompElems, Overwritable;
    var a := |m.mem.heap|;
    assert Agrees(l.env, st, m1.mem, bad + {a}) by {
      forall x | x in st ensures Holds(l.env, m1.mem, x, st[x], bad + {a}) {
        assert Holds(l.env, m.mem, x, st[x], bad);
        var w := m.mem.slots[NamedSlot(l.env, x)];
        RepFresh(m.mem.heap, w, st[x], bad, a);
        RepKept(m.mem.heap, m1.mem.heap, w, st[x], bad + {a});
      }
    }
    m' := SimElems(es, 0, set_, a, l1, p, m1, st, bad + {a});
    ReachesTrans(p, m, m1, m');
    QuietFresh(l, l1, m.mem, m1.mem, m'.mem);
  }

  lemma QuietFresh(l: Low, l1: Low, mem: Memory, mem1: Memory, mem2: Memory)
    requires Grows(l, l1) && mem1.slots == mem.slots
    requires exists cell :: mem1.heap == mem.heap + [cell]
    requires Quiet(l1, mem1, mem2, {|mem.heap|})
    ensures Quiet(l, mem, mem2, {})
  {
    forall s | s in mem.slots && !Overwritable(l, s) ensures s in mem2.slots && mem2.slots[s] == mem.slots[s] {
      assert !Overwritable(l1, s);
    }
  }

  lemma {:induction false} SimElems(es: seq<Expr>, i: nat, set_: Instr, a: nat, l: Low, p: Program, m: State,
        st: Store, bad: set<nat>)
    returns (m': State)
    requires set_ == StructSet || set_ == ArraySet
    requires Ready(l, CompElems(es, i, set_, l), p, m, st, bad) && a in bad
    requires m.stack.Push? && m.stack.top == Ref(a) && a < |m.mem.heap| && |m.mem.heap[a]| == i + |es|
    requires EvalAll(es, st).Some? && forall k :: 0 <= k < |es| ==> TypeOf(l.env.types, es[k]).Some?
    ensures Reaches(p, m, m') && m'.pc == |CompElems(es, i, set_, l).code|
    ensures m'.stack == m.stack && Quiet(l, m.mem, m'.mem, {a})
    ensures a < |m'.mem.heap| && |m'.mem.heap[a]| == i + |es| && m'.mem.heap[a][..i] == m.mem.heap[a][..i]
    ensures forall k :: 0 <= k < |es| ==> Rep(m'.mem.heap, m'.mem.heap[a][i + k], EvalAll(es, st).value[k], bad)
    decreases es, 7
  {
    hide RawPool.Valid, Step, Run, Reaches, CodeAt, Within, Agrees, Rep, TypeOf, Eval, CompExpr, Overwritable, Quiet;
    if es == [] {
      m' := m;
      ReachesSelf(p, m);
      QuietSelf(l, m.mem, {a});
    } else {
      var lb := CompExpr(es[0], Emit(l, [Dup, I32Const(i)]));
      var lc := Emit(lb, [set_]);
      WithinBefore(lc, CompElems(es[1..], i + 1, set_, lc), p);
      var m3 := SimElem(es[0], i, set_, a, l, p, m, st, bad);
      var m4 := SimElems(es[1..], i + 1, set_, a, lc, p, m3, st, bad);
      m' := m4;
      ReachesTrans(p, m, m3, m4);
      GrowsElem(es[0], i, set_, l);
      QuietTrans(l, lc, m.mem, m3.mem, m4.mem, {a});
      assert m4.mem.heap[a][i] == m4.mem.heap[a][..i + 1][i] == m3.mem.heap[a][i];
      assert m4.mem.heap[a][..i] == m4.mem.heap[a][..i + 1][..i];
      QuietHeap(lc, m3.mem, m4.mem, a, bad);
      RepKept(m3.mem.heap, m4.mem.heap, m3.mem.heap[a][i], Eval(es[0], st).value, bad);
      forall k | 0 <= k < |es| ensures Rep(m'.mem.heap, m'.mem.heap[a][i + k], EvalAll(es, st).value[k], bad) {
        if k > 0 {
          assert m'.mem.heap[a][i + k] == m'.mem.heap[a][i + 1 + (k - 1)];
          assert EvalAll(es, st).value[k] == EvalAll(es[1..], st).value[k - 1];
        }
      }
    }
  }

  lemma GrowsElem(e: Expr, i: nat, set_: Instr, l: Low)
    ensures Grows(l, Emit(CompExpr(e, Emit(l, [Dup, I32Const(i)])), [set_]))
  {
    hide CompExpr;
  }

  lemma QuietHeap(l: Low, mem: Memory, mem': Memory, a: nat, bad: set<nat>)
    requires Quiet(l, mem, mem', {a}) && a in bad
    ensures HeapKept(mem.heap, mem'.heap, bad)
  {
  }

  /** One element: duplicate the object, evaluate, store. */
  lemma {:induction false} SimElem(e: Expr, i: nat, set_: Instr, a: nat, l: Low, p: Program, m: State, st: Store,
        bad: set<nat>)
    returns (m': State)
    requires set_ == StructSet || set_ == ArraySet
    requires Ready(l, Emit(CompExpr(e, Emit(l, [Dup, I32Const(i)])), [set_]), p, m, st, bad) && a in bad
    requires m.stack.Push? && m.stack.top == Ref(a) && a < |m.mem.heap| && i < |m.mem.heap[a]|
    requires TypeOf(l.env.types, e).Some? && Eval(e, st).Some?
    ensures Reaches(p, m, m') && m'.pc == |CompExpr(e, Emit(l, [Dup, I32Const(i)])).code| + 1
    ensures m'.stack == m.stack && Quiet(l, m.mem, m'.mem, {a}) && Agrees(l.env, st, m'.mem, bad)
    ensures a < |m'.mem.heap| && |m'.mem.heap[a]| == |m.mem.heap[a]| && m'.mem.heap[a][..i] == m.mem.heap[a][..i]
    ensures Rep(m'.mem.heap, m'.mem.heap[a][i], Eval(e, st).value, bad)
    decreases e, 6
  {
    hide RawPool.Valid, Step, Run, Reaches, CodeAt, Within, Agrees, Rep, TypeOf, Eval, CompExpr, Overwritable;
    var la := Emit(l, [Dup, I32Const(i)]);
    var lb := CompExpr(e, la);
    WithinEmit(lb, [set_], p);
    WithinBefore(la, lb, p);
    WithinEmit(l, [Dup, I32Const(i)], p);
    ReachesSelf(p, m);
    var m1 := Next(p, m, m, |l.code|, [Dup, I32Const(i)], 0);
    var m2 := Next(p, m, m1, |l.code|, [Dup, I32Const(i)], 1);
    var m3 := SimThen(e, l, la, p, m, m2, st, bad);
    m' := Next(p, m, m3, |lb.code|, [set_], 0);
    assert m'.mem.heap[a] == m3.mem.heap[a][i := m3.stack.top];
    QuietAgrees(l, m.mem, m'.mem, st, bad, {a});
    RepKept(m3.mem.heap, m'.mem.heap, m3.stack.top, Eval(e, st).value, bad);
  }
}

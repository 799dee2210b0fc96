/** Lowered statements do what they mean: the main simulation. */
module StmtSimulation {
  import opened Wrappers
  import opened Syntax
  import opened Typing
  import opened Semantics
  import opened Machine
  import opened ScratchPool
  import opened Lowering
  import opened Correspondence
  import opened ExprSimulation
  import opened PatternSimulation

  /** The code from `l` to `r` is about to run on a store, in a program that
      knows the labels of the innermost loop. */
  ghost predicate StmtReady(l: Low, r: Low, p: Program, m: State, st: Store) {
    && ValidEnv(l.env)
    && Within(r, p)
    && m.pc == |l.code|
    && Agrees(l.env, st, m.mem, {})
    && LoopsBound(l, p)
  }

  predicate LoopsBound(l: Low, p: Program) {
    l.loops != [] ==> p.Bound(l.loops[|l.loops| - 1].brk) && p.Bound(l.loops[|l.loops| - 1].cont)
  }

  /** Where a statement's code leaves for each outcome: the end of its code, or
      the innermost loop's break or continue label. */
  function Exit(l: Low, r: Low, p: Program, out: Outcome): nat
    requires LoopsBound(l, p) && (out.Normal? || l.loops != [])
  {
    match out
    case Normal => |r.code|
    case Broke => p.labels[l.loops[|l.loops| - 1].brk].value
    case Continued => p.labels[l.loops[|l.loops| - 1].cont].value
  }

  /** The run left for the right label with the stack unchanged, every variable
      as the semantics leaves it and every live scratch slot as it was. */
  ghost predicate Lands(l: Low, r: Low, p: Program, m: State, m': State, res: Ending) {
    && res.Done?
    && LoopsBound(l, p) && (res.out.Normal? || l.loops != [])
    && Reaches(p, m, m')
    && m'.pc == Exit(l, r, p, res.out)
    && m'.stack == m.stack
    && Agrees(l.env, res.st, m'.mem, {})
    && Steady(l, m.mem, m'.mem)
  }

  lemma {:induction false} SimBlock(fuel: nat, ss: seq<Stmt>, inLoop: bool, l: Low, p: Program, m: State, st: Store)
    returns (m': State)
    requires StmtReady(l, CompBlock(ss, l), p, m, st)
    requires BlockOk(l.env.types, inLoop, ss) && (inLoop ==> l.loops != [])
    requires ExecBlock(fuel, ss, st).Done?
    ensures Lands(l, CompBlock(ss, l), p, m, m', ExecBlock(fuel, ss, st))
    decreases fuel, ss, 9
  {
    hide RawPool.Valid, Step, Run, Reaches, Agrees, Within, Steady, CompStmt, Exec, StmtOk;
    if ss == [] {
      m' := m;
      ReachesSelf(p, m);
      SteadySelf(l, m.mem);
    } else {
      var l1 := CompStmt(ss[0], l);
      WithinBefore(l1, CompBlock(ss[1..], l1), p);
      var m1 := SimStmt(fuel, ss[0], inLoop, l, p, m, st);
      var r := Exec(fuel, ss[0], st);
      if r.out.Normal? {
        m' := SimBlock(fuel, ss[1..], inLoop, l1, p, m1, r.st);
        ReachesTrans(p, m, m1, m');
        SteadyTrans(l, l1, m.mem, m1.mem, m'.mem);
      } else {
        m' := m1;
      }
    }
  }

  /** The scratch scope of a statement changes neither the code nor what is live. */
  lemma {:induction false} SimStmt(fuel: nat, s: Stmt, inLoop: bool, l: Low, p: Program, m: State, st: Store)
    returns (m': State)
    requires StmtReady(l, CompStmt(s, l), p, m, st)
    requires StmtOk(l.env.types, inLoop, s) && (inLoop ==> l.loops != [])
    requires Exec(fuel, s, st).Done?
    ensures Lands(l, CompStmt(s, l), p, m, m', Exec(fuel, s, st))
    decreases fuel, s, 8
  {
    hide RawPool.Valid, Step, Run, Reaches, Agrees, CompBody, Exec, StmtOk;
    if l.env.protected {
      m' := SimBody(fuel, s, inLoop, l, p, m, st);
    } else {
      m' := SimBody(fuel, s, inLoop, EnterScope(l), p, m, st);
      assert forall x :: Overwritable(EnterScope(l), x) == Overwritable(l, x);
    }
  }

  lemma {:induction false} SimBody(fuel: nat, s: Stmt, inLoop: bool, l: Low, p: Program, m: State, st: Store)
    returns (m': State)
    requires StmtReady(l, CompBody(s, l), p, m, st)
    requires StmtOk(l.env.types, inLoop, s) && (inLoop ==> l.loops != [])
    requires Exec(fuel, s, st).Done?
    ensures Lands(l, CompBody(s, l), p, m, m', Exec(fuel, s, st))
    decreases fuel, s, 7
  {
    hide RawPool.Valid, Step, Run, Reaches, Agrees, Within, Steady, Grows, ExecBlock, ExecWhile, ExecFor, ExecCases;
    hide CompIf, CompWhile, CompRangeFor, CompForEach, CompMatch, CompExpr, CompBinary, CompStash, Stashed, StoreName;
    match s
    case Assign(x, e) => m' := SimAssign(x, e, l, p, m, st);
    case AugAssign(x, op, e) => m' := SimAugAssign(x, op, e, l, p, m, st);
    case ChainAssign(xs, e) => m' := SimChainAssign(xs, e, l, p, m, st);
    case Unpack(xs, es) => m' := SimUnpack(xs, es, l, p, m, st);
    case UnpackTuple(xs, e) => m' := SimUnpackTuple(xs, e, l, p, m, st);
    case ExprStmt(e) => m' := SimExprStmt(e, l, p, m, st);
    case If(_, _, _) => m' := SimIf(fuel, s, inLoop, l, p, m, st);
    case While(_, _, _) => m' := SimWhile(fuel, s, inLoop, l, p, m, st);
    case ForRange(_, _, _, _, _, _) => m' := SimForRange(fuel, s, inLoop, l, p, m, st);
    case ForEach(_, _, _, _) => m' := SimForEach(fuel, s, inLoop, l, p, m, st);
    case Break => m' := SimLeave(l, p, m, l.loops[|l.loops| - 1].brk);
    case Continue => m' := SimLeave(l, p, m, l.loops[|l.loops| - 1].cont);
    case Pass =>
      m' := m;
      ReachesSelf(p, m);
      SteadySelf(l, m.mem);
    case Match(_, _) => m' := SimMatch(fuel, s, inLoop, l, p, m, st);
  }

  lemma SimLeave(l: Low, p: Program, m: State, x: Label) returns (m': State)
    requires Within(Emit(l, [Br(x)]), p) && m.pc == |l.code| && p.Bound(x)
    ensures Reaches(p, m, m') && m' == m.(pc := p.labels[x].value) && Steady(l, m.mem, m'.mem)
  {
    hide Step, Run, Reaches, CodeAt, Within;
    WithinEmit(l, [Br(x)], p);
    ReachesSelf(p, m);
    m' := Jump(p, m, m, |l.code|, [Br(x)], 0);
  }

  // Assignments.

  /** The value on top of the stack is stored in `x`. */
  lemma SimSet(x: string, v: Value, l: Low, p: Program, m0: State, m: State, st: Store, at: nat) returns (m': State)
    requires ValidEnv(l.env) && CodeAt(p, at, StoreName(l.env, x)) && m.pc == at && Reaches(p, m0, m)
    requires Agrees(l.env, st, m.mem, {}) && Steady(l, m0.mem, m.mem)
    requires DeclaredFor(l.env.types, x, v)
    requires m.stack.Push? && Rep(m.mem.heap, m.stack.top, v, {})
    ensures |StoreName(l.env, x)| == 1 && Reaches(p, m0, m') && m'.pc == at + 1 && m'.stack == m.stack.below
    ensures Agrees(l.env, st[x := v], m'.mem, {}) && Steady(l, m0.mem, m'.mem) && m'.mem.heap == m.mem.heap
  {
    hide RawPool.Valid, Step, Run, Reaches, CodeAt, Agrees, Rep, Overwritable, Steady;
    assert HasSlot(l.env, x);
    m' := SetName(p, m0, m, at, StoreName(l.env, x), 0, l.env, x, st, v);
    NamedIsNamed(l.env, x);
    SteadyStore(l, NamedSlot(l.env, x), m0.mem, m.mem, m.stack.top);
  }

  lemma SimAssign(x: string, e: Expr, l: Low, p: Program, m: State, st: Store) returns (m': State)
    requires StmtReady(l, CompBody(Assign(x, e), l), p, m, st)
    requires TypeOf(l.env.types, e).Some? && Declared(l.env.types, x, TypeOf(l.env.types, e).value) && Eval(e, st).Some?
    ensures Lands(l, CompBody(Assign(x, e), l), p, m, m', Done(Normal, st[x := Eval(e, st).value]))
  {
    hide RawPool.Valid, Step, Run, Reaches, CodeAt, Agrees, Within, Steady, Quiet, Rep, CompExpr, Eval, TypeOf;
    var l1 := CompExpr(e, l);
    WithinEmit(l1, StoreName(l.env, x), p);
    var m1 := SimExpr(e, l, p, m, st, {});
    EvalTypedHere(l.env, e, st, m.mem, {});
    QuietSteady(l, m.mem, m1.mem);
    QuietAgrees(l, m.mem, m1.mem, st, {}, {});
    m' := SimSet(x, Eval(e, st).value, l, p, m, m1, st, |l1.code|);
  }

  lemma SimAugAssign(x: string, op: BinOp, e: Expr, l: Low, p: Program, m: State, st: Store) returns (m': State)
    requires StmtReady(l, CompBody(AugAssign(x, op, e), l), p, m, st)
    requires Declared(l.env.types, x, TInt) && TypeOf(l.env.types, e) == Some(TInt)
      && Eval(Binary(op, Name(x), e), st).Some?
    ensures Lands(l, CompBody(AugAssign(x, op, e), l), p, m, m',
      Done(Normal, st[x := Eval(Binary(op, Name(x), e), st).value]))
  {
    hide RawPool.Valid, Step, Run, Reaches, CodeAt, Agrees, Within, Steady, Quiet, Rep, CompBinary;
    var l1 := CompBinary(op, Name(x), e, l);
    WithinEmit(l1, StoreName(l.env, x), p);
    var m1 := SimBinary(Binary(op, Name(x), e), l, p, m, st, {});
    EvalTypedHere(l.env, Binary(op, Name(x), e), st, m.mem, {});
    QuietSteady(l, m.mem, m1.mem);
    QuietAgrees(l, m.mem, m1.mem, st, {}, {});
    m' := SimSet(x, Eval(Binary(op, Name(x), e), st).value, l, p, m, m1, st, |l1.code|);
  }

  lemma SimExprStmt(e: Expr, l: Low, p: Program, m: State, st: Store) returns (m': State)
    requires StmtReady(l, CompBody(ExprStmt(e), l), p, m, st)
    requires TypeOf(l.env.types, e).Some? && Eval(e, st).Some?
    ensures Lands(l, CompBody(ExprStmt(e), l), p, m, m', Done(Normal, st))
  {
    hide RawPool.Valid, Step, Run, Reaches, CodeAt, Agrees, Within, Steady, Quiet, Rep, CompExpr, Eval, TypeOf;
    var l1 := CompExpr(e, l);
    WithinEmit(l1, [Drop], p);
    var m1 := SimExpr(e, l, p, m, st, {});
    QuietSteady(l, m.mem, m1.mem);
    QuietAgrees(l, m.mem, m1.mem, st, {}, {});
    m' := Next(p, m, m1, |l1.code|, [Drop], 0);
  }

  lemma SimChainAssign(xs: seq<string>, e: Expr, l: Low, p: Program, m: State, st: Store) returns (m': State)
    requires StmtReady(l, CompBody(ChainAssign(xs, e), l), p, m, st)
    requires TypeOf(l.env.types, e).Some? && Eval(e, st).Some? && xs != []
    requires forall i :: 0 <= i < |xs| ==> Declared(l.env.types, xs[i], TypeOf(l.env.types, e).value)
    ensures Lands(l, CompBody(ChainAssign(xs, e), l), p, m, m',
      Done(Normal, AssignAll(st, xs, seq(|xs|, _ => Eval(e, st).value))))
  {
    hide RawPool.Valid, Step, Run, Reaches, CodeAt, Agrees, Within, Steady, Quiet, Rep, CompExpr, Eval, TypeOf,
         ChainCode;
    var l1 := CompExpr(e, l);
    WithinEmit(l1, ChainCode(l.env, xs), p);
    var m1 := SimExpr(e, l, p, m, st, {});
    EvalTypedHere(l.env, e, st, m.mem, {});
    QuietSteady(l, m.mem, m1.mem);
    QuietAgrees(l, m.mem, m1.mem, st, {}, {});
    m' := SimChainCode(xs, Eval(e, st).value, l, p, m, m1, st, |l1.code|);
  }

  lemma {:induction false} SimChainCode(xs: seq<string>, v: Value, l: Low, p: Program, m0: State, m: State,
        st: Store, at: nat)
    returns (m': State)
    requires ValidEnv(l.env) && CodeAt(p, at, ChainCode(l.env, xs)) && m.pc == at && Reaches(p, m0, m)
    requires Agrees(l.env, st, m.mem, {}) && Steady(l, m0.mem, m.mem)
    requires xs != [] && forall i :: 0 <= i < |xs| ==> DeclaredFor(l.env.types, xs[i], v)
    requires m.stack.Push? && Rep(m.mem.heap, m.stack.top, v, {})
    ensures Reaches(p, m0, m') && m'.pc == at + |ChainCode(l.env, xs)| && m'.stack == m.stack.below
    ensures Agrees(l.env, AssignAll(st, xs, seq(|xs|, _ => v)), m'.mem, {}) && Steady(l, m0.mem, m'.mem)
    decreases xs
  {
    hide RawPool.Valid, Step, Run, Reaches, CodeAt, Agrees, Within, Steady, Rep, StoreName, DeclaredFor;
    var set_, rest := StoreName(l.env, xs[0]), ChainCode(l.env, xs[1..]);
    if |xs| == 1 {
      assert [] + set_ + rest == set_ + rest;
      CodeAtConcat(p, at, set_, rest);
      m' := SimSet(xs[0], v, l, p, m0, m, st, at);
      assert AssignAll(st[xs[0] := v], xs[1..], seq(|xs|, _ => v)[1..]) == st[xs[0] := v];
    } else {
      CodeAtConcat(p, at, [Dup] + set_, rest);
      CodeAtConcat(p, at, [Dup], set_);
      var m1 := Next(p, m0, m, at, [Dup], 0);
      var m2 := SimSet(xs[0], v, l, p, m0, m1, st, at + 1);
      RepKept(m.mem.heap, m2.mem.heap, m.stack.top, v, {});
      m' := SimChainCode(xs[1..], v, l, p, m0, m2, st[xs[0] := v], at + 2);
      assert seq(|xs|, _ => v)[1..] == seq(|xs[1..]|, _ => v);
    }
  }

  // Parallel assignment: every right-hand element has its own slot before any
  // name is rebound.

  ghost predicate Stash(l: Low, mem: Memory, slots: seq<nat>, vs: seq<Value>) {
    |slots| == |vs| && forall i :: 0 <= i < |slots| ==> Carries(l, mem, slots[i], vs[i])
  }

  lemma StashOn(l: Low, l1: Low, mem: Memory, mem': Memory, slots: seq<nat>, vs: seq<Value>)
    requires Stash(l, mem, slots, vs) && Grows(l, l1) && Steady(l, mem, mem')
    ensures Stash(l1, mem', slots, vs)
  {
    forall i | 0 <= i < |slots| ensures Carries(l1, mem', slots[i], vs[i]) {
      CarriesOn(l, l1, mem, mem', slots[i], vs[i]);
    }
  }

  lemma {:induction false} SimStash(es: seq<Expr>, l: Low, l1: Low, p: Program, m0: State, m: State, st: Store)
    returns (m': State)
    requires ValidEnv(l.env) && Grows(l, l1) && Within(CompStash(es, l1), p) && m.pc == |l1.code|
    requires Agrees(l.env, st, m0.mem, {}) && Reaches(p, m0, m) && Quiet(l, m0.mem, m.mem, {})
    requires TypesOf(l.env.types, es).Some? && EvalAll(es, st).Some?
    ensures Reaches(p, m0, m') && m'.pc == |CompStash(es, l1).code| && m'.stack == m.stack
    ensures Quiet(l, m0.mem, m'.mem, {}) && Quiet(l1, m.mem, m'.mem, {})
    ensures Stash(CompStash(es, l1), m'.mem, Stashed(es, l1), EvalAll(es, st).value)
    decreases es
  {
    hide RawPool.Valid, Step, Run, Reaches, CodeAt, Agrees, Within, Quiet, Rep, CompExpr, Eval, TypeOf, Carries;
    if es == [] {
      m' := m;
      QuietSelf(l1, m.mem, {});
    } else {
      var k := ExprKind(l1.env, es[0]);
      var l2 := CompExpr(es[0], l1);
      var l3 := Emit(Reserve(l2, k), [StoreSlot(l1.env, Reserved(l2, k))]);
      WithinBefore(l3, CompStash(es[1..], l3), p);
      var m1 := SimStashOne(es[0], k, l, l1, p, m0, m, st);
      m' := SimStash(es[1..], l, l3, p, m0, m1, st);
      QuietTrans(l1, l3, m.mem, m1.mem, m'.mem, {});
      QuietSteady(l3, m1.mem, m'.mem);
      CarriesOn(l3, CompStash(es[1..], l3), m1.mem, m'.mem, Reserved(l2, k), Eval(es[0], st).value);
    }
  }

  lemma SimStashOne(e: Expr, k: Kind, l: Low, l1: Low, p: Program, m0: State, m: State, st: Store) returns (m': State)
    requires ValidEnv(l.env) && Grows(l, l1) && m.pc == |l1.code|
    requires Within(Emit(Reserve(CompExpr(e, l1), k), [StoreSlot(l1.env, Reserved(CompExpr(e, l1), k))]), p)
    requires Agrees(l.env, st, m0.mem, {}) && Reaches(p, m0, m) && Quiet(l, m0.mem, m.mem, {})
    requires TypeOf(l.env.types, e).Some? && Eval(e, st).Some?
    ensures
      var slot := Reserved(CompExpr(e, l1), k);
      var r := Emit(Reserve(CompExpr(e, l1), k), [StoreSlot(l1.env, slot)]);
      && Grows(l, r) && Grows(l1, r)
      && Reaches(p, m0, m') && m'.pc == |r.code| && m'.stack == m.stack
      && Quiet(l, m0.mem, m'.mem, {}) && Quiet(l1, m.mem, m'.mem, {})
      && Carries(r, m'.mem, slot, Eval(e, st).value)
  {
    hide RawPool.Valid, Step, Run, Reaches, CodeAt, Agrees, Within, Rep, CompExpr, Eval, TypeOf, StoreSlot, Quiet,
         Overwritable;
    var l2 := CompExpr(e, l1);
    var slot := Reserved(l2, k);
    var l3 := Emit(Reserve(l2, k), [StoreSlot(l1.env, slot)]);
    WithinEmit(Reserve(l2, k), [StoreSlot(l1.env, slot)], p);
    WithinReserve(l2, k, p);
    var m1 := SimThen(e, l, l1, p, m0, m, st, {});
    m' := StoreScratch(p, m0, m1, |l2.code|, [StoreSlot(l1.env, slot)], 0, l1.env, slot);
    ReservedSlot(l2, k, l3);
    OverwritableBefore(l1, l2, SlotAt(l.env, slot));
    OverwritableBefore(l, l1, SlotAt(l.env, slot));
    QuietStore(l, SlotAt(l.env, slot), m0.mem, m1.mem, m1.stack.top, {});
    QuietStore(l1, SlotAt(l.env, slot), m.mem, m1.mem, m1.stack.top, {});
  }

  lemma {:induction false} SimUnstash(xs: seq<string>, slots: seq<nat>, vs: seq<Value>, l: Low, l1: Low, p: Program,
        m0: State, m: State, st: Store, at: nat)
    returns (m': State)
    requires ValidEnv(l.env) && Grows(l, l1) && |xs| == |slots| == |vs|
    requires CodeAt(p, at, UnstashCode(l.env, xs, slots)) && m.pc == at && Reaches(p, m0, m)
    requires Agrees(l.env, st, m.mem, {}) && Steady(l, m0.mem, m.mem) && Stash(l1, m.mem, slots, vs)
    requires forall i :: 0 <= i < |xs| ==> DeclaredFor(l.env.types, xs[i], vs[i])
    ensures Reaches(p, m0, m') && m'.pc == at + |UnstashCode(l.env, xs, slots)| && m'.stack == m.stack
    ensures Agrees(l.env, AssignAll(st, xs, vs), m'.mem, {}) && Steady(l, m0.mem, m'.mem)
    decreases xs
  {
    hide RawPool.Valid, Step, Run, Reaches, CodeAt, Agrees, Steady, Rep, LoadSlot, StoreName, DeclaredFor, Carries;
    if xs == [] {
      m' := m;
    } else {
      var set_, rest := StoreName(l.env, xs[0]), UnstashCode(l.env, xs[1..], slots[1..]);
      CodeAtConcat(p, at, [LoadSlot(l.env, slots[0])] + set_, rest);
      CodeAtConcat(p, at, [LoadSlot(l.env, slots[0])], set_);
      var m1 := SimLoadCarried(slots[0], vs[0], l1, p, m0, m, at);
      SteadySelf(l1, m.mem);
      var m2 := SimSet(xs[0], vs[0], l1, p, m, m1, st, at + 1);
      StashOn(l1, l1, m.mem, m2.mem, slots[1..], vs[1..]);
      ReachesTrans(p, m0, m, m2);
      SteadyTrans(l, l1, m0.mem, m.mem, m2.mem);
      m' := SimUnstash(xs[1..], slots[1..], vs[1..], l, l1, p, m0, m2, st[xs[0] := vs[0]], at + 2);
    }
  }

  lemma SimLoadCarried(slot: nat, v: Value, l: Low, p: Program, m0: State, m: State, at: nat) returns (m': State)
    requires Carries(l, m.mem, slot, v) && CodeAt(p, at, [LoadSlot(l.env, slot)]) && m.pc == at && Reaches(p, m0, m)
    ensures Reaches(p, m0, m') && Reaches(p, m, m') && m'.pc == at + 1 && m'.mem == m.mem
    ensures m'.stack.Push? && m'.stack.below == m.stack && Rep(m.mem.heap, m'.stack.top, v, {})
  {
    hide RawPool.Valid, Step, Run, Reaches, CodeAt, Rep, LoadSlot;
    m' := LoadScratch(p, m0, m, at, [LoadSlot(l.env, slot)], 0, l.env, slot);
    ReachesSelf(p, m);
    var m'' := LoadScratch(p, m, m, at, [LoadSlot(l.env, slot)], 0, l.env, slot);
  }

  lemma SimUnpack(xs: seq<string>, es: seq<Expr>, l: Low, p: Program, m: State, st: Store) returns (m': State)
    requires StmtReady(l, CompBody(Unpack(xs, es), l), p, m, st)
    requires TypesOf(l.env.types, es).Some? && EvalAll(es, st).Some?
    requires TuplesOk(l.env.types, xs, TypesOf(l.env.types, es).value)
    ensures Lands(l, CompBody(Unpack(xs, es), l), p, m, m', Done(Normal, AssignAll(st, xs, EvalAll(es, st).value)))
  {
    hide RawPool.Valid, Step, Run, Reaches, CodeAt, Agrees, Within, Steady, Quiet, CompStash, Stashed, EvalAll,
         TypesOf, UnstashCode, Stash;
    var l1 := CompStash(es, l);
    var code := UnstashCode(l.env, xs, Stashed(es, l));
    WithinEmit(l1, code, p);
    ReachesSelf(p, m);
    QuietSelf(l, m.mem, {});
    var m1 := SimStash(es, l, l, p, m, m, st);
    QuietSteady(l, m.mem, m1.mem);
    QuietAgrees(l, m.mem, m1.mem, st, {}, {});
    AgreesTyped(l.env, st, m.mem, {});
    EvalAllTyped(l.env.types, es, st);
    m' := SimUnstash(xs, Stashed(es, l), EvalAll(es, st).value, l, l1, p, m, m1, st, |l1.code|);
  }

  // Unpacking a tuple value.

  lemma SimUnpackTuple(xs: seq<string>, e: Expr, l: Low, p: Program, m: State, st: Store) returns (m': State)
    requires StmtReady(l, CompBody(UnpackTuple(xs, e), l), p, m, st)
    requires TypeOf(l.env.types, e).Some? && Eval(e, st).Some?
    requires TargetOk(l.env.types, TupleTarget(xs), TypeOf(l.env.types, e).value)
    ensures AssignTarget(st, TupleTarget(xs), Eval(e, st).value).Some?
    ensures Lands(l, CompBody(UnpackTuple(xs, e), l), p, m, m',
                  Done(Normal, AssignTarget(st, TupleTarget(xs), Eval(e, st).value).value))
  {
    hide RawPool.Valid, Step, Run, Reaches, CodeAt, Agrees, Within, Steady, Quiet, CompExpr, Eval, TypeOf, UnpackCode,
         Carries, StoreSlot, SlotAt, Overwritable, TargetOk, DeclaredFor, HasType;
    var k := ExprKind(l.env, e);
    var l1 := CompExpr(e, l);
    var slot := Reserved(l1, k);
    var l2 := Emit(Reserve(l1, k), [StoreSlot(l.env, slot)]);
    WithinEmit(l2, UnpackCode(l.env, slot, xs, 0), p);
    ReachesSelf(p, m);
    QuietSelf(l, m.mem, {});
    var m1 := SimStashOne(e, k, l, l, p, m, m, st);
    EvalTypedHere(l.env, e, st, m.mem, {});
    QuietSteady(l, m.mem, m1.mem);
    QuietAgrees(l, m.mem, m1.mem, st, {}, {});
    var v := Eval(e, st).value;
    UnpackFits(l.env.types, xs, TypeOf(l.env.types, e).value, v);
    m' := SimUnpackCode(xs, slot, 0, v, l, l2, p, m, m1, st, |l2.code|);
  }

  lemma UnpackFits(g: Types, xs: seq<string>, ty: Type, v: Value)
    requires TargetOk(g, TupleTarget(xs), ty) && HasType(v, ty)
    ensures v.VTuple? && |xs| == |v.elems| && v.elems[0..] == v.elems
    ensures forall k :: 0 <= k < |xs| ==> DeclaredFor(g, xs[k], v.elems[0 + k])
  {
  }

  lemma {:induction false} SimUnpackCode(xs: seq<string>, slot: nat, i: nat, v: Value, l: Low, l1: Low, p: Program,
        m0: State, m: State, st: Store, at: nat)
    returns (m': State)
    requires ValidEnv(l.env) && Grows(l, l1) && v.VTuple? && i + |xs| == |v.elems|
    requires CodeAt(p, at, UnpackCode(l.env, slot, xs, i)) && m.pc == at && Reaches(p, m0, m)
    requires Agrees(l.env, st, m.mem, {}) && Steady(l, m0.mem, m.mem) && Carries(l1, m.mem, slot, v)
    requires forall k :: 0 <= k < |xs| ==> DeclaredFor(l.env.types, xs[k], v.elems[i + k])
    ensures Reaches(p, m0, m') && m'.pc == at + |UnpackCode(l.env, slot, xs, i)| && m'.stack == m.stack
    ensures Agrees(l.env, AssignAll(st, xs, v.elems[i..]), m'.mem, {}) && Steady(l, m0.mem, m'.mem)
    decreases xs
  {
    hide RawPool.Valid, Step, Run, Reaches, CodeAt, Agrees, Steady, Rep, StoreName, DeclaredFor, Carries, FetchCode;
    if xs == [] {
      m' := m;
    } else {
      var fetch, set_, rest := FetchCode(l.env, slot, true, Front(i)), StoreName(l.env, xs[0]), UnpackCode(l.env,
            slot, xs[1..], i + 1);
      CodeAtConcat(p, at, fetch + set_, rest);
      CodeAtConcat(p, at, fetch, set_);
      var m1 := SimFetch(Front(i), slot, true, v, v.elems[i], l1, p, m, at, fetch);
      SteadySelf(l1, m.mem);
      var m2 := SimSet(xs[0], v.elems[i], l1, p, m, m1, st, at + |fetch|);
      CarriesOn(l1, l1, m.mem, m2.mem, slot, v);
      ReachesTrans(p, m0, m, m2);
      SteadyTrans(l, l1, m0.mem, m.mem, m2.mem);
      m' := SimUnpackCode(xs[1..], slot, i + 1, v, l, l1, p, m0, m2, st[xs[0] := v.elems[i]], at + |fetch| + 1);
      assert v.elems[i..][1..] == v.elems[i + 1..];
    }
  }

  // Control flow.

  lemma SteadyLive(l: Low, l1: Low, mem: Memory, mem1: Memory, mem2: Memory)
    requires l.env == l1.env && l.pool.live <= l1.pool.live
    requires Steady(l, mem, mem1) && Steady(l1, mem1, mem2)
    ensures Steady(l, mem, mem2)
  {
    forall s | s in mem.slots && !Overwritable(l, s) && !IsNamed(l.env, s)
        ensures s in mem2.slots && mem2.slots[s] == mem.slots[s] {
      assert !Overwritable(l1, s);
    }
  }

  /** A state on the way: `m` was reached from `m0` by code of a construct that
      started at `l`, and stands for `st`. */
  ghost predicate Underway(l: Low, p: Program, m0: State, m: State, st: Store) {
    && ValidEnv(l.env)
    && LoopsBound(l, p)
    && Reaches(p, m0, m)
    && m.stack == m0.stack
    && Agrees(l.env, st, m.mem, {})
    && Steady(l, m0.mem, m.mem)
  }

  /** A block of the construct that continues to the same exits. */
  lemma {:induction false} SimBlockThen(fuel: nat, ss: seq<Stmt>, inLoop: bool, l: Low, l1: Low, p: Program,
        m0: State, m: State, st: Store)
    returns (m': State)
    requires Underway(l, p, m0, m, st) && Grows(l, l1) && Within(CompBlock(ss, l1), p) && m.pc == |l1.code|
    requires BlockOk(l.env.types, inLoop, ss) && (inLoop ==> l.loops != [])
    requires ExecBlock(fuel, ss, st).Done?
    ensures Lands(l, CompBlock(ss, l1), p, m0, m', ExecBlock(fuel, ss, st))
    decreases fuel, ss, 10
  {
    hide RawPool.Valid, Step, Run, Reaches, Agrees, Within, Steady, CompBlock, ExecBlock, BlockOk;
    m' := SimBlock(fuel, ss, inLoop, l1, p, m, st);
    ReachesTrans(p, m0, m, m');
    SteadyTrans(l, l1, m0.mem, m.mem, m'.mem);
  }

  /** The body of a loop, with the loop's own labels. */
  lemma {:induction false} SimLoopBody(fuel: nat, body: seq<Stmt>, cont: Label, brk: Label, l: Low, l1: Low,
        p: Program, m0: State, m: State, st: Store)
    returns (m': State)
    requires Underway(l, p, m0, m, st) && Grows(l, l1) && Within(CompLoopBody(body, cont, brk, l1), p)
      && m.pc == |l1.code|
    requires p.Bound(cont) && p.Bound(brk) && p.labels[cont].value == |CompLoopBody(body, cont, brk, l1).code|
    requires BlockOk(l.env.types, true, body)
    requires ExecBlock(fuel, body, st).Done?
    ensures var r := ExecBlock(fuel, body, st);
            && Underway(l, p, m0, m', r.st)
            && m'.pc == if r.out.Broke? then p.labels[brk].value else p.labels[cont].value
    decreases fuel, body, 10
  {
    hide RawPool.Valid, Step, Run, Reaches, Agrees, Steady, CompBlock, ExecBlock, BlockOk;
    var l2 := PushLoop(l1, cont, brk);
    m' := SimBlock(fuel, body, true, l2, p, m, st);
    ReachesTrans(p, m0, m, m');
    SteadyLive(l, l2, m0.mem, m.mem, m'.mem);
  }

  /** A condition of the construct was evaluated to the top of the stack. */
  lemma {:induction false} SimCond(cond: Expr, b: bool, l: Low, l1: Low, p: Program, m0: State, m: State, st: Store)
    returns (m': State)
    requires Underway(l, p, m0, m, st) && Grows(l, l1) && Within(CompExpr(cond, l1), p) && m.pc == |l1.code|
    requires TypeOf(l.env.types, cond).Some? && Eval(cond, st) == Some(VBool(b))
    ensures Reaches(p, m0, m') && m'.pc == |CompExpr(cond, l1).code| && m'.stack == Push(I1(b), m0.stack)
    ensures Agrees(l.env, st, m'.mem, {}) && Steady(l, m0.mem, m'.mem) && Steady(l1, m.mem, m'.mem)
  {
    hide RawPool.Valid, Step, Run, Reaches, Agrees, Within, Steady, Quiet, CompExpr, Eval, TypeOf;
    m' := SimExpr(cond, l1, p, m, st, {});
    ReachesTrans(p, m0, m, m');
    QuietSteady(l1, m.mem, m'.mem);
    QuietAgrees(l1, m.mem, m'.mem, st, {}, {});
    SteadyTrans(l, l1, m0.mem, m.mem, m'.mem);
  }

  lemma Start(l: Low, p: Program, m: State, st: Store)
    requires ValidEnv(l.env) && LoopsBound(l, p) && Agrees(l.env, st, m.mem, {})
    ensures Underway(l, p, m, m, st)
  {
    ReachesSelf(p, m);
    SteadySelf(l, m.mem);
  }

  /** Where the parts of an if statement are. */
  lemma IfLayout(s: Stmt, l: Low, p: Program)
    requires s.If? && Within(CompIf(s, l), p)
    ensures
      var l0 := CompExpr(s.cond, l);
      var l1 := Emit(l0, [I32Eqz]);
      var elseL, end := l1.Next(), l1.Next() + 1;
      var l2 := Emit(Labels(l1, 2), [BrIf(elseL)]);
      var body := CompBlock(s.body, l2);
      var l3 := Bind(Emit(body, [Br(end)]), elseL);
      && Within(l0, p) && CodeAt(p, |l0.code|, [I32Eqz])
      && CodeAt(p, |l1.code|, [BrIf(elseL)])
      && Grows(l, l2) && Within(body, p) && CodeAt(p, |body.code|, [Br(end)])
      && Grows(l, l3) && Within(CompBlock(s.orelse, l3), p)
      && p.Bound(elseL) && p.labels[elseL].value == |l3.code|
      && p.Bound(end) && p.labels[end].value == |CompIf(s, l).code|
  {
    hide RawPool.Valid, CodeAt, Within, CompExpr, CompBlock;
    var l0 := CompExpr(s.cond, l);
    var l1 := Emit(l0, [I32Eqz]);
    var elseL, end := l1.Next(), l1.Next() + 1;
    var l2 := Emit(Labels(l1, 2), [BrIf(elseL)]);
    var l3 := CompBlock(s.body, l2);
    var l4 := Emit(l3, [Br(end)]);
    var l5 := Bind(l4, elseL);
    var l6 := CompBlock(s.orelse, l5);
    assert Labels(l1, 2).labels[elseL].None? && Labels(l1, 2).labels[end].None?;
    WithinBind(l6, end, p);
    WithinBefore(l5, l6, p);
    WithinBind(l4, elseL, p);
    WithinEmit(l3, [Br(end)], p);
    WithinBefore(l2, l3, p);
    WithinEmit(Labels(l1, 2), [BrIf(elseL)], p);
    WithinLabels(l1, 2, p);
    WithinEmit(l0, [I32Eqz], p);
  }

  lemma {:induction false} SimIf(fuel: nat, s: Stmt, inLoop: bool, l: Low, p: Program, m: State, st: Store)
    returns (m': State)
    requires s.If? && StmtReady(l, CompIf(s, l), p, m, st)
    requires StmtOk(l.env.types, inLoop, s) && (inLoop ==> l.loops != [])
    requires Exec(fuel, s, st).Done?
    ensures Lands(l, CompIf(s, l), p, m, m', Exec(fuel, s, st))
    decreases fuel, s, 6
  {
    hide RawPool.Valid, Step, Run, Reaches, CodeAt, Agrees, Within, Steady, CompExpr, CompBlock, ExecBlock, BlockOk,
         Eval, TypeOf;
    var b := Eval(s.cond, st).value.b;
    var l0 := CompExpr(s.cond, l);
    var l1 := Emit(l0, [I32Eqz]);
    var elseL, end := l1.Next(), l1.Next() + 1;
    var l2 := Emit(Labels(l1, 2), [BrIf(elseL)]);
    var l3 := CompBlock(s.body, l2);
    var l5 := Bind(Emit(l3, [Br(end)]), elseL);
    IfLayout(s, l, p);
    Start(l, p, m, st);
    var m1 := SimCond(s.cond, b, l, l, p, m, m, st);
    var m2 := Next(p, m, m1, |l0.code|, [I32Eqz], 0);
    var m3 := Branch(p, m, m2, |l1.code|, [BrIf(elseL)], 0, !b);
    if b {
      m' := SimBlockThen(fuel, s.body, inLoop, l, l2, p, m, m3, st);
      if ExecBlock(fuel, s.body, st).out.Normal? {
        m' := Jump(p, m, m', |l3.code|, [Br(end)], 0);
      }
    } else {
      m' := SimBlockThen(fuel, s.orelse, inLoop, l, l5, p, m, m3, st);
    }
  }

  /** Where the parts of a while loop are. */
  lemma WhileLayout(s: Stmt, l: Low, p: Program)
    requires s.While? && Within(CompWhile(s, l), p)
    ensures
      var bodyL, test, end := l.Next(), l.Next() + 1, l.Next() + 3;
      && CodeAt(p, |l.code|, [Br(test)])
      && CodeAt(p, |CompExpr(s.cond, WhileTest(s, l)).code|, [BrIf(bodyL)])
      && Within(CompLoopBody(s.body, test, end, WhileBody(l)), p)
      && Within(CompExpr(s.cond, WhileTest(s, l)), p)
      && Within(CompBlock(s.orelse, WhileElse(s, l)), p)
      && p.Bound(bodyL) && p.labels[bodyL].value == |WhileBody(l).code|
      && p.Bound(test) && p.labels[test].value == |WhileTest(s, l).code|
      && p.Bound(end) && p.labels[end].value == |CompWhile(s, l).code|
  {
    hide RawPool.Valid, CodeAt, Within, CompExpr, CompBlock, CompLoopBody;
    var bodyL, test, elseL, end := l.Next(), l.Next() + 1, l.Next() + 2, l.Next() + 3;
    var l0 := Labels(l, 4);
    var l1 := WhileBody(l);
    var l2 := CompLoopBody(s.body, test, end, l1);
    var l3 := CompExpr(s.cond, WhileTest(s, l));
    var l4 := Emit(l3, [BrIf(bodyL)]);
    var l5 := CompBlock(s.orelse, WhileElse(s, l));
    assert forall x :: bodyL <= x <= end ==> l0.labels[x] == None;
    WithinBind(l5, end, p);
    WithinBefore(WhileElse(s, l), l5, p);
    WithinBind(l4, elseL, p);
    WithinEmit(l3, [BrIf(bodyL)], p);
    WithinBefore(WhileTest(s, l), l3, p);
    WithinBind(l2, test, p);
    WithinBefore(l1, l2, p);
    WithinBind(Emit(l0, [Br(test)]), bodyL, p);
    WithinEmit(l0, [Br(test)], p);
  }

  lemma {:induction false} SimWhile(fuel: nat, s: Stmt, inLoop: bool, l: Low, p: Program, m: State, st: Store)
    returns (m': State)
    requires s.While? && StmtReady(l, CompWhile(s, l), p, m, st)
    requires StmtOk(l.env.types, inLoop, s) && (inLoop ==> l.loops != [])
    requires ExecWhile(fuel, s.cond, s.body, s.orelse, st).Done?
    ensures Lands(l, CompWhile(s, l), p, m, m', ExecWhile(fuel, s.cond, s.body, s.orelse, st))
    decreases fuel, s, 6
  {
    hide RawPool.Valid, Step, Run, Reaches, CodeAt, Agrees, Within, Steady, CompWhile, WhileTest, WhileElse,
         ExecWhile, StmtOk;
    WhileLayout(s, l, p);
    Start(l, p, m, st);
    var m1 := Jump(p, m, m, |l.code|, [Br(l.Next() + 1)], 0);
    m' := SimWhileTest(fuel, s, inLoop, l, p, m, m1, st);
  }

  /** From the test on. */
  lemma {:induction false} SimWhileTest(fuel: nat, s: Stmt, inLoop: bool, l: Low, p: Program, m0: State, m: State,
        st: Store) returns (m': State)
    requires s.While? && Within(CompWhile(s, l), p) && Underway(l, p, m0, m, st) && m.pc == |WhileTest(s, l).code|
    requires StmtOk(l.env.types, inLoop, s) && (inLoop ==> l.loops != [])
    requires ExecWhile(fuel, s.cond, s.body, s.orelse, st).Done?
    ensures Lands(l, CompWhile(s, l), p, m0, m', ExecWhile(fuel, s.cond, s.body, s.orelse, st))
    decreases fuel, s, 5
  {
    hide RawPool.Valid, Step, Run, Reaches, CodeAt, Agrees, Within, Steady, CompWhile, WhileTest, WhileElse,
         WhileBody, BlockOk, CompBlock, CompLoopBody, CompExpr, Eval, TypeOf;
    WhileLayout(s, l, p);
    WhileEnds(s, l);
    var b := Eval(s.cond, st).value.b;
    var lt := WhileTest(s, l);
    var m1 := SimCond(s.cond, b, l, lt, p, m0, m, st);
    var m2 := Branch(p, m0, m1, |CompExpr(s.cond, lt).code|, [BrIf(l.Next())], 0, b);
    if b {
      var m3 := SimLoopBody(fuel, s.body, l.Next() + 1, l.Next() + 3, l, WhileBody(l), p, m0, m2, st);
      var r := ExecBlock(fuel, s.body, st);
      if r.out.Broke? {
        m' := m3;
      } else {
        m' := SimWhileTest(fuel - 1, s, inLoop, l, p, m0, m3, r.st);
      }
    } else {
      m' := SimBlockThen(fuel, s.orelse, inLoop, l, WhileElse(s, l), p, m0, m2, st);
    }
  }

  /** Binding a label emits nothing. */
  lemma WhileEnds(s: Stmt, l: Low)
    requires s.While?
    ensures |CompWhile(s, l).code| == |CompBlock(s.orelse, WhileElse(s, l)).code|
    ensures |WhileElse(s, l).code| == |CompExpr(s.cond, WhileTest(s, l)).code| + 1
    ensures |WhileTest(s, l).code| == |CompLoopBody(s.body, l.Next() + 1, l.Next() + 3, WhileBody(l)).code|
  {
    hide RawPool.Valid, CompExpr, CompBlock, CompLoopBody;
  }

  // For loops.

  /** The labels from `x` on, of those a for loop hands out, are not bound yet. */
  predicate Unbound(h: Low, l: Low, x: nat) {
    h.Next() + 5 <= l.Next() && forall y :: h.Next() + x <= y < h.Next() + 5 ==> l.labels[y].None?
  }

  lemma UnboundGrows(h: Low, l: Low, r: Low, x: nat)
    requires Unbound(h, l, x) && Grows(l, r)
    ensures Unbound(h, r, x)
  {
    forall y | h.Next() + x <= y < h.Next() + 5 ensures r.labels[y].None? {
      assert l.labels[y].None?;
    }
  }

  lemma ForUnbound(s: Stmt, d: Driver, l: Low)
    requires IsFor(s)
    ensures Unbound(l, CompLoopBody(s.body, l.Next() + 1, l.Next() + 4, ForTarget(s, d, l)), 1)
    ensures Unbound(l, ForStep(s, d, l), 2)
    ensures Unbound(l, ForTest(s, d, l), 3)
    ensures Unbound(l, CompBlock(s.orelse, ForElse(s, d, l)), 4)
  {
    hide RawPool.Valid, CompBlock, CompLoopBody, ElementCode, TargetCode, StepCode, MoreCode, LoopTarget;
    var l1 := CompLoopBody(s.body, l.Next() + 1, l.Next() + 4, ForTarget(s, d, l));
    UnboundGrows(l, ForTarget(s, d, l), l1, 1);
    assert Unbound(l, ForTest(s, d, l), 3);
    assert Unbound(l, ForElse(s, d, l), 4);
    UnboundGrows(l, ForElse(s, d, l), CompBlock(s.orelse, ForElse(s, d, l)), 4);
  }

  /** Where the parts of a for loop are. */
  lemma ForLayout(s: Stmt, d: Driver, l: Low, p: Program)
    requires IsFor(s) && Within(CompFor(s, d, l), p)
    ensures
      var bodyL, cont, test, end := l.Next(), l.Next() + 1, l.Next() + 2, l.Next() + 4;
      && CodeAt(p, |l.code|, [Br(test)])
      && CodeAt(p, |ForBody(l).code|, ElementCode(l.env, d) + TargetCode(l.env, LoopTarget(s)))
      && CodeAt(p, |ForStep(s, d, l).code|, StepCode(l.env, d))
      && CodeAt(p, |ForTest(s, d, l).code|, MoreCode(l.env, d) + [BrIf(bodyL)])
      && Within(CompLoopBody(s.body, cont, end, ForTarget(s, d, l)), p)
      && Within(CompBlock(s.orelse, ForElse(s, d, l)), p)
      && p.Bound(bodyL) && p.labels[bodyL].value == |ForBody(l).code|
      && p.Bound(cont) && p.labels[cont].value == |ForStep(s, d, l).code|
      && p.Bound(test) && p.labels[test].value == |ForTest(s, d, l).code|
      && p.Bound(end) && p.labels[end].value == |CompFor(s, d, l).code|
  {
    hide RawPool.Valid, CodeAt, Within, CompBlock, CompLoopBody, ElementCode, TargetCode, StepCode, MoreCode,
         LoopTarget, ForElse;
    ForUnbound(s, d, l);
    var l4 := CompBlock(s.orelse, ForElse(s, d, l));
    WithinBind(l4, l.Next() + 4, p);
    WithinBefore(ForElse(s, d, l), l4, p);
    ForLayoutTest(s, d, l, p);
  }

  lemma ForLayoutTest(s: Stmt, d: Driver, l: Low, p: Program)
    requires IsFor(s) && Within(ForElse(s, d, l), p)
    ensures
      var bodyL, cont, test, end := l.Next(), l.Next() + 1, l.Next() + 2, l.Next() + 4;
      && CodeAt(p, |l.code|, [Br(test)])
      && CodeAt(p, |ForBody(l).code|, ElementCode(l.env, d) + TargetCode(l.env, LoopTarget(s)))
      && CodeAt(p, |ForStep(s, d, l).code|, StepCode(l.env, d))
      && CodeAt(p, |ForTest(s, d, l).code|, MoreCode(l.env, d) + [BrIf(bodyL)])
      && Within(CompLoopBody(s.body, cont, end, ForTarget(s, d, l)), p)
      && p.Bound(bodyL) && p.labels[bodyL].value == |ForBody(l).code|
      && p.Bound(cont) && p.labels[cont].value == |ForStep(s, d, l).code|
      && p.Bound(test) && p.labels[test].value == |ForTest(s, d, l).code|
  {
    hide RawPool.Valid, CodeAt, Within, CompBlock, CompLoopBody, ElementCode, TargetCode, StepCode, MoreCode,
         LoopTarget;
    hide ForBody, ForTarget, ForStep;
    ForUnbound(s, d, l);
    var more := MoreCode(l.env, d) + [BrIf(l.Next())];
    var step := Emit(ForStep(s, d, l), StepCode(l.env, d));
    assert Unbound(l, Emit(ForTest(s, d, l), more), 3);
    WithinBind(Emit(ForTest(s, d, l), more), l.Next() + 3, p);
    WithinEmit(ForTest(s, d, l), more, p);
    assert Unbound(l, step, 2);
    WithinBind(step, l.Next() + 2, p);
    WithinEmit(ForStep(s, d, l), StepCode(l.env, d), p);
    ForLayoutBody(s, d, l, p);
  }

  lemma ForLayoutBody(s: Stmt, d: Driver, l: Low, p: Program)
    requires IsFor(s) && Within(ForStep(s, d, l), p)
    ensures
      var bodyL, cont, test, end := l.Next(), l.Next() + 1, l.Next() + 2, l.Next() + 4;
      && CodeAt(p, |l.code|, [Br(test)])
      && CodeAt(p, |ForBody(l).code|, ElementCode(l.env, d) + TargetCode(l.env, LoopTarget(s)))
      && Within(CompLoopBody(s.body, cont, end, ForTarget(s, d, l)), p)
      && p.Bound(bodyL) && p.labels[bodyL].value == |ForBody(l).code|
      && p.Bound(cont) && p.labels[cont].value == |ForStep(s, d, l).code|
  {
    hide RawPool.Valid, CodeAt, Within, CompBlock, CompLoopBody, ElementCode, TargetCode, StepCode, MoreCode,
         LoopTarget;
    ForUnbound(s, d, l);
    var l0 := Labels(l, 5);
    var l1 := ForTarget(s, d, l);
    var l2 := CompLoopBody(s.body, l.Next() + 1, l.Next() + 4, l1);
    WithinBind(l2, l.Next() + 1, p);
    WithinBefore(l1, l2, p);
    WithinEmit(ForBody(l), ElementCode(l.env, d) + TargetCode(l.env, LoopTarget(s)), p);
    WithinBind(Emit(l0, [Br(l.Next() + 2)]), l.Next(), p);
    WithinEmit(l0, [Br(l.Next() + 2)], p);
  }

  /** Binding a label emits nothing. */
  lemma ForEnds(s: Stmt, d: Driver, l: Low)
    requires IsFor(s)
    ensures |ForTarget(s, d, l).code| ==
      |ForBody(l).code| + |ElementCode(l.env, d)| + |TargetCode(l.env, LoopTarget(s))|
    ensures |ForStep(s, d, l).code| == |CompLoopBody(s.body, l.Next() + 1, l.Next() + 4, ForTarget(s, d, l)).code|
    ensures |ForTest(s, d, l).code| == |ForStep(s, d, l).code| + 4
    ensures |ForElse(s, d, l).code| == |ForTest(s, d, l).code| + |MoreCode(l.env, d)| + 1
    ensures |CompFor(s, d, l).code| == |CompBlock(s.orelse, ForElse(s, d, l)).code|
  {
    hide RawPool.Valid, CompBlock, CompLoopBody;
  }

  /** The driver's slots say that the loop still has to run for `vs`: the index
      has reached `i`, and `a` is the limit or the list. */
  ghost predicate Drives(l: Low, mem: Memory, d: Driver, a: Value, i: int, vs: seq<Value>) {
    && Carries(l, mem, d.index, VInt(i))
    && Carries(l, mem, Bound(d), a)
    && SlotAt(l.env, d.index) != SlotAt(l.env, Bound(d))
    && if d.RangeDriver? then a.VInt? && d.step != 0 && vs == Ints(Range(i, a.i, d.step))
       else a.VList? && 0 <= i <= |a.elems| && vs == a.elems[i..]
  }

  function Bound(d: Driver): nat {
    if d.RangeDriver? then d.limit else d.list
  }

  lemma DrivesOn(l: Low, mem: Memory, mem': Memory, d: Driver, a: Value, i: int, vs: seq<Value>)
    requires Drives(l, mem, d, a, i, vs) && Steady(l, mem, mem')
    ensures Drives(l, mem', d, a, i, vs)
  {
    hide Steady, Carries, Range, Ints, SlotAt;
    CarriesOn(l, l, mem, mem', d.index, VInt(i));
    CarriesOn(l, l, mem, mem', Bound(d), a);
  }

  lemma SimMore(d: Driver, a: Value, i: int, vs: seq<Value>, l: Low, p: Program, m0: State, m: State, ins: seq<Instr>)
    returns (m': State)
    requires Drives(l, m.mem, d, a, i, vs)
    requires CodeAt(p, m.pc, ins) && MoreCode(l.env, d) <= ins && Reaches(p, m0, m)
    ensures Reaches(p, m0, m')
    ensures m' == m.(pc := m.pc + |MoreCode(l.env, d)|, stack := Push(I1(vs != []), m.stack))
  {
    hide RawPool.Valid, Step, Run, Reaches, CodeAt, LoadSlot, SlotAt, Overwritable;
    var at := m.pc;
    assert forall k :: 0 <= k < |MoreCode(l.env, d)| ==> ins[k] == MoreCode(l.env, d)[k];
    var m1 := LoadScratch(p, m0, m, at, ins, 0, l.env, d.index);
    var m2 := LoadScratch(p, m0, m1, at, ins, 1, l.env, Bound(d));
    if d.RangeDriver? {
      m' := Next(p, m0, m2, at, ins, 2);
    } else {
      var m3 := Next(p, m0, m2, at, ins, 2);
      var m4 := Next(p, m0, m3, at, ins, 3);
      m' := Next(p, m0, m4, at, ins, 4);
    }
  }

  lemma SimElement(d: Driver, a: Value, i: int, vs: seq<Value>, l: Low, p: Program, m0: State, m: State)
    returns (m': State)
    requires Drives(l, m.mem, d, a, i, vs) && vs != []
    requires CodeAt(p, m.pc, ElementCode(l.env, d)) && Reaches(p, m0, m)
    ensures Reaches(p, m0, m') && m'.pc == m.pc + |ElementCode(l.env, d)| && m'.mem == m.mem
    ensures m'.stack.Push? && m'.stack.below == m.stack && Rep(m.mem.heap, m'.stack.top, vs[0], {})
  {
    hide RawPool.Valid, Step, Run, Reaches, CodeAt, LoadSlot, SlotAt, Overwritable;
    var at, ins := m.pc, ElementCode(l.env, d);
    if d.RangeDriver? {
      m' := LoadScratch(p, m0, m, at, ins, 0, l.env, d.index);
    } else {
      var m1 := LoadScratch(p, m0, m, at, ins, 0, l.env, d.list);
      var m2 := LoadScratch(p, m0, m1, at, ins, 1, l.env, d.index);
      var m3 := Next(p, m0, m2, at, ins, 2);
      m' := Next(p, m0, m3, at, ins, 3);
    }
  }

  /** The step leaves the driver with the remaining elements. */
  lemma SimStep(d: Driver, a: Value, i: int, vs: seq<Value>, l: Low, p: Program, m0: State, m: State)
    returns (m': State, w: Word)
    requires Drives(l, m.mem, d, a, i, vs) && vs != []
    requires CodeAt(p, m.pc, StepCode(l.env, d)) && Reaches(p, m0, m)
    ensures Reaches(p, m0, m')
    ensures m'.pc == m.pc + 4 && m'.stack == m.stack
    ensures m'.mem == m.mem.(slots := m.mem.slots[SlotAt(l.env, d.index) := w])
    ensures Drives(l, m'.mem, d, a, i + StepOf(d), vs[1..])
  {
    hide RawPool.Valid, Step, Run, Reaches, CodeAt, LoadSlot, StoreSlot, SlotAt, Overwritable;
    var at, ins := m.pc, StepCode(l.env, d);
    var m1 := LoadScratch(p, m0, m, at, ins, 0, l.env, d.index);
    var m2 := Next(p, m0, m1, at, ins, 1);
    var m3 := Next(p, m0, m2, at, ins, 2);
    w := m3.stack.top;
    m' := StoreScratch(p, m0, m3, at, ins, 3, l.env, d.index);
  }

  function StepOf(d: Driver): int {
    if d.RangeDriver? then d.step else 1
  }

  /** The value may be assigned to the target. */
  ghost predicate TargetFor(g: Types, t: Target, v: Value) {
    match t
    case NameTarget(x) => DeclaredFor(g, x, v)
    case TupleTarget(xs) =>
      v.VTuple? && |v.elems| == |xs| && forall k :: 0 <= k < |xs| ==> DeclaredFor(g, xs[k], v.elems[k])
  }

  lemma SimTarget(t: Target, v: Value, l: Low, p: Program, m0: State, m: State, st: Store, at: nat) returns (m': State)
    requires ValidEnv(l.env) && CodeAt(p, at, TargetCode(l.env, t)) && m.pc == at && Reaches(p, m0, m)
    requires Agrees(l.env, st, m.mem, {}) && Steady(l, m0.mem, m.mem) && TargetFor(l.env.types, t, v)
    requires m.stack.Push? && Rep(m.mem.heap, m.stack.top, v, {})
    ensures Reaches(p, m0, m') && m'.pc == at + |TargetCode(l.env, t)| && m'.stack == m.stack.below
    ensures AssignTarget(st, t, v).Some? && Agrees(l.env, AssignTarget(st, t, v).value, m'.mem, {})
    ensures Steady(l, m0.mem, m'.mem)
  {
    hide RawPool.Valid, Step, Run, Reaches, CodeAt, Agrees, Steady, Rep, StoreName, DeclaredFor;
    match t
    case NameTarget(x) => m' := SimSet(x, v, l, p, m0, m, st, at);
    case TupleTarget(xs) =>
      CodeAtConcat(p, at, TargetElemsCode(l.env, xs, 0), [Drop]);
      var m1 := SimTargetElems(xs, 0, v, l, p, m0, m, st, at);
      m' := Next(p, m0, m1, m1.pc, [Drop], 0);
      assert v.elems[0..] == v.elems;
  }

  lemma {:induction false} SimTargetElems(xs: seq<string>, i: nat, v: Value, l: Low, p: Program, m0: State, m: State,
        st: Store, at: nat)
    returns (m': State)
    requires ValidEnv(l.env) && v.VTuple? && i + |xs| == |v.elems|
    requires CodeAt(p, at, TargetElemsCode(l.env, xs, i)) && m.pc == at && Reaches(p, m0, m)
    requires Agrees(l.env, st, m.mem, {}) && Steady(l, m0.mem, m.mem)
    requires m.stack.Push? && Rep(m.mem.heap, m.stack.top, v, {})
    requires forall k :: 0 <= k < |xs| ==> DeclaredFor(l.env.types, xs[k], v.elems[i + k])
    ensures Reaches(p, m0, m') && m'.pc == at + |TargetElemsCode(l.env, xs, i)| && m'.stack == m.stack
    ensures Agrees(l.env, AssignAll(st, xs, v.elems[i..]), m'.mem, {}) && Steady(l, m0.mem, m'.mem)
    decreases xs
  {
    hide RawPool.Valid, Step, Run, Reaches, CodeAt, Agrees, Steady, StoreName, DeclaredFor;
    if xs == [] {
      m' := m;
    } else {
      var get, set_, rest := [Dup, I32Const(i), StructGet], StoreName(l.env, xs[0]), TargetElemsCode(l.env, xs[1..],
            i + 1);
      CodeAtConcat(p, at, get + set_, rest);
      CodeAtConcat(p, at, get, set_);
      var m1 := Next(p, m0, m, at, get, 0);
      var m2 := Next(p, m0, m1, at, get, 1);
      var m3 := Next(p, m0, m2, at, get, 2);
      var m4 := SimSet(xs[0], v.elems[i], l, p, m0, m3, st, at + 3);
      m' := SimTargetElems(xs[1..], i + 1, v, l, p, m0, m4, st[xs[0] := v.elems[i]], at + 4);
      assert v.elems[i..][1..] == v.elems[i + 1..];
    }
  }

  /** One pass: the target takes the next element and the body runs. */
  lemma {:induction false} SimPass(fuel: nat, s: Stmt, d: Driver, a: Value, i: int, vs: seq<Value>, l: Low,
        p: Program, m: State, st: Store)
    returns (m': State)
    requires IsFor(s) && Within(CompFor(s, d, l), p) && m.pc == |ForBody(l).code|
    requires ValidEnv(l.env) && LoopsBound(l, p) && Agrees(l.env, st, m.mem, {})
    requires Drives(l, m.mem, d, a, i, vs) && vs != [] && TargetFor(l.env.types, LoopTarget(s), vs[0])
    requires BlockOk(l.env.types, true, s.body)
    requires AssignTarget(st, LoopTarget(s), vs[0]).Some? ==>
      ExecBlock(fuel, s.body, AssignTarget(st, LoopTarget(s), vs[0]).value).Done?
    ensures AssignTarget(st, LoopTarget(s), vs[0]).Some?
    ensures var r := ExecBlock(fuel, s.body, AssignTarget(st, LoopTarget(s), vs[0]).value);
            && Underway(l, p, m, m', r.st)
            && m'.pc == if r.out.Broke? then |CompFor(s, d, l).code| else |ForStep(s, d, l).code|
    decreases fuel, s, 3
  {
    hide RawPool.Valid, Step, Run, Reaches, CodeAt, Agrees, Within, Steady, Rep, Drives, TargetFor;
    hide CompFor, ForStep, ForBody, ForTarget, CompLoopBody, ElementCode, TargetCode, BlockOk, ExecBlock, AssignTarget;
    ForLayout(s, d, l, p);
    ForEnds(s, d, l);
    Start(l, p, m, st);
    CodeAtConcat(p, m.pc, ElementCode(l.env, d), TargetCode(l.env, LoopTarget(s)));
    var m1 := SimElement(d, a, i, vs, l, p, m, m);
    var m2 := SimTarget(LoopTarget(s), vs[0], l, p, m, m1, st, m1.pc);
    m' := SimLoopBody(fuel, s.body, l.Next() + 1, l.Next() + 4, l, ForTarget(s, d, l), p, m, m2, AssignTarget(st,
          LoopTarget(s), vs[0]).value);
  }

  /** From the test on, with `vs` still to come; `l` is where the whole
      statement starts and `h` where its loop does. */
  lemma {:induction false} SimForTest(fuel: nat, s: Stmt, d: Driver, a: Value, i: int, vs: seq<Value>, inLoop: bool,
        l: Low, h: Low, p: Program, m0: State, m: State, st: Store)
    returns (m': State)
    requires IsFor(s) && Within(CompFor(s, d, h), p) && Grows(l, h) && Underway(l, p, m0, m, st)
      && m.pc == |ForTest(s, d, h).code|
    requires Drives(h, m.mem, d, a, i, vs) && Overwritable(l, SlotAt(l.env, d.index))
    requires forall k :: 0 <= k < |vs| ==> TargetFor(l.env.types, LoopTarget(s), vs[k])
    requires BlockOk(l.env.types, true, s.body) && BlockOk(l.env.types, inLoop, s.orelse) && (inLoop ==> l.loops != [])
    requires ExecFor(fuel, s, vs, st).Done?
    ensures Lands(l, CompFor(s, d, h), p, m0, m', ExecFor(fuel, s, vs, st))
    decreases fuel, s, 4, |vs|
  {
    hide RawPool.Valid, Step, Run, Reaches, CodeAt, Agrees, Within, Steady, Rep, Drives, TargetFor;
    hide CompFor, ForStep, ForBody, ForTarget, ForTest, ForElse, CompBlock, CompLoopBody, MoreCode, ElementCode,
         StepCode, TargetCode, BlockOk, ExecBlock, AssignTarget;
    ForLayout(s, d, h, p);
    ForEnds(s, d, h);
    var more := MoreCode(l.env, d) + [BrIf(h.Next())];
    var m1 := SimMore(d, a, i, vs, h, p, m0, m, more);
    var m2 := Branch(p, m0, m1, m.pc, more, |more| - 1, vs != []);
    if vs == [] {
      m' := SimBlockThen(fuel, s.orelse, inLoop, l, ForElse(s, d, h), p, m0, m2, st);
    } else {
      var m3 := SimPass(fuel, s, d, a, i, vs, h, p, m2, st);
      var r := ExecBlock(fuel, s.body, AssignTarget(st, LoopTarget(s), vs[0]).value);
      UnderwayThen(l, h, p, m0, m2, m3, st, r.st);
      if r.out.Broke? {
        m' := m3;
      } else {
        DrivesOn(h, m2.mem, m3.mem, d, a, i, vs);
        var m4, w := SimStep(d, a, i, vs, h, p, m0, m3);
        UnderwayStep(l, p, m0, m3, m4, r.st, d, w);
        m' := SimForTest(fuel, s, d, a, i + StepOf(d), vs[1..], inLoop, l, h, p, m0, m4, r.st);
      }
    }
  }

  lemma UnderwayThen(l: Low, h: Low, p: Program, m0: State, m: State, m': State, st: Store, st': Store)
    requires Grows(l, h) && Underway(l, p, m0, m, st) && Underway(h, p, m, m', st')
    ensures Underway(l, p, m0, m', st')
  {
    hide RawPool.Valid, Reaches, Agrees, Steady;
    ReachesTrans(p, m0, m, m');
    SteadyTrans(l, h, m0.mem, m.mem, m'.mem);
  }

  lemma UnderwayStep(l: Low, p: Program, m0: State, m: State, m': State, st: Store, d: Driver, w: Word)
    requires Underway(l, p, m0, m, st) && Reaches(p, m0, m') && m'.stack == m.stack
    requires Overwritable(l, SlotAt(l.env, d.index))
    requires m'.mem == m.mem.(slots := m.mem.slots[SlotAt(l.env, d.index) := w])
    ensures Underway(l, p, m0, m', st)
  {
    hide RawPool.Valid, Reaches, Agrees, Steady, SlotAt;
    var s := SlotAt(l.env, d.index);
    SteadyStore(l, s, m0.mem, m.mem, w);
    ScratchAgrees(l.env, st, m.mem, s, w, {});
  }

  /** Two values are stored in two reserved slots. */
  lemma SimHeader(e1: Expr, k1: Kind, e2: Expr, k2: Kind, l: Low, p: Program, m: State, st: Store) returns (m': State)
    requires
      var l1, l2 := Reserve(l, k1), Reserve(Reserve(l, k1), k2);
      StmtReady(l, CompInto(e2, Reserved(l1, k2), CompInto(e1, Reserved(l, k1), l2)), p, m, st)
    requires TypeOf(l.env.types, e1).Some? && Eval(e1, st).Some? && TypeOf(l.env.types, e2).Some? && Eval(e2, st).Some?
    ensures
      var l1, l2 := Reserve(l, k1), Reserve(Reserve(l, k1), k2);
      var s1, s2 := Reserved(l, k1), Reserved(l1, k2);
      var h := CompInto(e2, s2, CompInto(e1, s1, l2));
      && Grows(l, h)
      && Underway(l, p, m, m', st) && m'.pc == |h.code|
      && Carries(h, m'.mem, s1, Eval(e1, st).value) && Carries(h, m'.mem, s2, Eval(e2, st).value)
      && SlotAt(l.env, s1) != SlotAt(l.env, s2)
      && Overwritable(l, SlotAt(l.env, s1)) && Overwritable(l, SlotAt(l.env, s2))
  {
    hide RawPool.Valid, Step, Run, Reaches, CodeAt, Agrees, Within, Steady, Quiet, Rep, CompExpr, Eval, TypeOf,
         StoreSlot, Overwritable, SlotAt;
    var l1, l2 := Reserve(l, k1), Reserve(Reserve(l, k1), k2);
    var s1, s2 := Reserved(l, k1), Reserved(l1, k2);
    var h1 := CompInto(e1, s1, l2);
    var h := CompInto(e2, s2, h1);
    WithinBefore(h1, h, p);
    ReservedSlot(l, k1, h);
    ReservedSlot(l, k1, h1);
    ReservedSlot(l, k1, l1);
    ReservedSlot(l1, k2, h);
    OverwritableBefore(l, l1, SlotAt(l.env, s2));
    ReachesSelf(p, m);
    QuietSelf(l, m.mem, {});
    var m1 := SimInto(e1, s1, l, l2, p, m, m, st, {});
    m' := SimInto(e2, s2, l, h1, p, m, m1, st, {});
    QuietButKeeps(h1, m1.mem, m'.mem, SlotAt(l.env, s2), SlotAt(l.env, s1), Eval(e1, st).value);
    QuietSteady(l, m.mem, m'.mem);
    QuietAgrees(l, m.mem, m'.mem, st, {}, {});
  }

  lemma QuietButKeeps(l: Low, mem: Memory, mem': Memory, s: Slot, x: Slot, v: Value)
    requires QuietBut(l, mem, mem', s) && x != s && !Overwritable(l, x) && x in mem.slots
    requires Rep(mem.heap, mem.slots[x], v, {})
    ensures x in mem'.slots && Rep(mem'.heap, mem'.slots[x], v, {})
  {
    RepKept(mem.heap, mem'.heap, mem.slots[x], v, {});
  }

  lemma {:induction false} SimForRange(fuel: nat, s: Stmt, inLoop: bool, l: Low, p: Program, m: State, st: Store)
    returns (m': State)
    requires s.ForRange? && StmtReady(l, CompRangeFor(s, l), p, m, st)
    requires StmtOk(l.env.types, inLoop, s) && (inLoop ==> l.loops != [])
    requires Exec(fuel, s, st).Done?
    ensures Lands(l, CompRangeFor(s, l), p, m, m', Exec(fuel, s, st))
    decreases fuel, s, 6
  {
    hide RawPool.Valid, Step, Run, Reaches, CodeAt, Agrees, Within, Steady, Rep, CompExpr, CompFor, Eval, TypeOf,
         SlotAt, Overwritable, ExecFor, BlockOk, Range, CompInto;
    var e1 := if s.start.Some? then s.start.value else IntLit(0);
    SimZero(l.env.types, st);
    var l1 := Reserve(l, KindI64);
    var d := RangeDriver(Reserved(l, KindI64), Reserved(l1, KindI64), s.step);
    var h := CompRangeBounds(s.start, s.stop, d.index, d.limit, Reserve(l1, KindI64));
    ForBefore(s, d, h, p);
    var m1 := SimHeader(e1, KindI64, s.stop, KindI64, l, p, m, st);
    var a, b := Eval(e1, st).value.i, Eval(s.stop, st).value;
    m' := SimForEntry(fuel, s, d, b, a, Ints(Range(a, b.i, s.step)), inLoop, l, h, p, m, m1, st);
  }

  lemma SimZero(g: Types, st: Store)
    ensures TypeOf(g, IntLit(0)) == Some(TInt) && Eval(IntLit(0), st) == Some(VInt(0))
  {
  }

  lemma ForBefore(s: Stmt, d: Driver, l: Low, p: Program)
    requires IsFor(s) && Within(CompFor(s, d, l), p)
    ensures Within(l, p)
  {
    hide CompFor;
    WithinBefore(l, CompFor(s, d, l), p);
  }

  lemma {:induction false} SimForEntry(fuel: nat, s: Stmt, d: Driver, a: Value, i: int, vs: seq<Value>, inLoop: bool,
        l: Low, h: Low, p: Program, m0: State, m: State, st: Store)
    returns (m': State)
    requires IsFor(s) && Within(CompFor(s, d, h), p) && Grows(l, h) && Underway(l, p, m0, m, st) && m.pc == |h.code|
    requires Drives(h, m.mem, d, a, i, vs) && Overwritable(l, SlotAt(l.env, d.index))
    requires forall k :: 0 <= k < |vs| ==> TargetFor(l.env.types, LoopTarget(s), vs[k])
    requires BlockOk(l.env.types, true, s.body) && BlockOk(l.env.types, inLoop, s.orelse) && (inLoop ==> l.loops != [])
    requires ExecFor(fuel, s, vs, st).Done?
    ensures Lands(l, CompFor(s, d, h), p, m0, m', ExecFor(fuel, s, vs, st))
    decreases fuel, s, 5
  {
    hide RawPool.Valid, Step, Run, Reaches, CodeAt, Agrees, Within, Steady, Drives, CompFor, ForTest, ForElse,
         ForStep, ForBody, ForTarget, ExecFor, BlockOk, Overwritable, TargetFor;
    ForLayout(s, d, h, p);
    var m1 := Jump(p, m0, m, |h.code|, [Br(h.Next() + 2)], 0);
    m' := SimForTest(fuel, s, d, a, i, vs, inLoop, l, h, p, m0, m1, st);
  }

  lemma {:induction false} SimForEach(fuel: nat, s: Stmt, inLoop: bool, l: Low, p: Program, m: State, st: Store)
    returns (m': State)
    requires s.ForEach? && StmtReady(l, CompForEach(s, l), p, m, st)
    requires StmtOk(l.env.types, inLoop, s) && (inLoop ==> l.loops != [])
    requires Exec(fuel, s, st).Done?
    ensures Lands(l, CompForEach(s, l), p, m, m', Exec(fuel, s, st))
    decreases fuel, s, 6
  {
    hide RawPool.Valid, Step, Run, Reaches, CodeAt, Agrees, Within, Steady, Rep, CompExpr, CompFor, Eval, TypeOf,
         SlotAt, Overwritable, ExecFor, BlockOk, CompInto, TargetFor;
    SimZero(l.env.types, st);
    var l1 := Reserve(l, KindRef);
    var d := ListDriver(Reserved(l, KindRef), Reserved(l1, KindI64));
    var h := CompIterStart(s.iter, d.list, d.index, Reserve(l1, KindI64));
    ForBefore(s, d, h, p);
    var m1 := SimHeader(s.iter, KindRef, IntLit(0), KindI64, l, p, m, st);
    var a := Eval(s.iter, st).value;
    EvalTypedHere(l.env, s.iter, st, m.mem, {});
    ElementsFit(l.env.types, s.target, TypeOf(l.env.types, s.iter).value, a);
    assert a.elems[0..] == a.elems;
    m' := SimForEntry(fuel, s, d, a, 0, a.elems, inLoop, l, h, p, m, m1, st);
  }

  lemma ElementsFit(g: Types, t: Target, ty: Type, a: Value)
    requires ty.TList? && TargetOk(g, t, ty.elem) && HasType(a, ty)
    ensures a.VList? && forall k :: 0 <= k < |a.elems| ==> TargetFor(g, t, a.elems[k])
  {
  }

  // Match statements.

  lemma {:induction false} SimMatch(fuel: nat, s: Stmt, inLoop: bool, l: Low, p: Program, m: State, st: Store)
    returns (m': State)
    requires s.Match? && StmtReady(l, CompMatch(s, l), p, m, st)
    requires StmtOk(l.env.types, inLoop, s) && (inLoop ==> l.loops != [])
    requires Exec(fuel, s, st).Done?
    ensures Lands(l, CompMatch(s, l), p, m, m', Exec(fuel, s, st))
    decreases fuel, s, 6
  {
    hide RawPool.Valid, Step, Run, Reaches, CodeAt, Agrees, Within, Steady, CompExpr, CompCases, Eval, TypeOf,
         ExecCases, CaseOk, Carries;
    var k := ExprKind(l.env, s.subject);
    var slot := Reserved(l, k);
    var l0 := CompInto(s.subject, slot, Reserve(l, k));
    var end := l0.Next();
    var h := Labels(l0, 1);
    var t := TypeOf(l.env.types, s.subject).value;
    var r := CompCases(s.cases, slot, t, end, h);
    assert h.labels[end].None?;
    WithinBind(r, end, p);
    WithinBefore(h, r, p);
    WithinLabels(l0, 1, p);
    var m1 := SimSubject(s.subject, k, l, h, p, m, st);
    EvalTypedHere(l.env, s.subject, st, m.mem, {});
    m' := SimCases(fuel, s.cases, slot, t, Eval(s.subject, st).value, end, inLoop, l, h, p, m, m1, st);
  }

  /** The subject is evaluated once, into a slot its cases keep. */
  lemma SimSubject(e: Expr, k: Kind, l: Low, h: Low, p: Program, m: State, st: Store) returns (m': State)
    requires StmtReady(l, CompInto(e, Reserved(l, k), Reserve(l, k)), p, m, st)
      && h == Labels(CompInto(e, Reserved(l, k), Reserve(l, k)), 1)
    requires TypeOf(l.env.types, e).Some? && Eval(e, st).Some?
    ensures Underway(l, p, m, m', st) && m'.pc == |h.code| && Carries(h, m'.mem, Reserved(l, k), Eval(e, st).value)
  {
    hide RawPool.Valid, Step, Run, Reaches, CodeAt, Agrees, Within, Steady, Quiet, Rep, CompExpr, Eval, TypeOf,
         StoreSlot, Overwritable, SlotAt;
    var slot := Reserved(l, k);
    ReachesSelf(p, m);
    QuietSelf(l, m.mem, {});
    LabelsGrow(CompInto(e, slot, Reserve(l, k)), 1);
    ReservedSlot(l, k, h);
    m' := SimInto(e, slot, l, Reserve(l, k), p, m, m, st, {});
    QuietSteady(l, m.mem, m'.mem);
    QuietAgrees(l, m.mem, m'.mem, st, {}, {});
  }

  /** The linear decision tree: the first case whose pattern matches and whose
      guard holds runs, and then or if there is none control is at `end`. */
  lemma {:induction false} SimCases(fuel: nat, cases: seq<Case>, slot: nat, t: Type, v: Value, end: Label,
        inLoop: bool, l: Low, h: Low, p: Program, m0: State, m: State, st: Store)
    returns (m': State)
    requires Underway(l, p, m0, m, st) && Grows(l, h) && Within(CompCases(cases, slot, t, end, h), p)
      && m.pc == |h.code|
    requires Carries(h, m.mem, slot, v) && HasType(v, t)
    requires p.Bound(end) && p.labels[end].value == |CompCases(cases, slot, t, end, h).code|
    requires (forall i :: 0 <= i < |cases| ==> CaseOk(l.env.types, inLoop, t, cases[i])) && (inLoop ==> l.loops != [])
    requires ExecCases(fuel, cases, v, st).Done?
    ensures Lands(l, CompCases(cases, slot, t, end, h), p, m0, m', ExecCases(fuel, cases, v, st))
    decreases fuel, cases, 5
  {
    hide RawPool.Valid, Step, Run, Reaches, CodeAt, Agrees, Within, Steady, CompBlock, CompPat, CompGuard, ExecBlock,
         Eval, Carries, CaseTest, HasType;
    if cases == [] {
      m' := m;
    } else {
      var c := cases[0];
      assert CaseOk(l.env.types, inLoop, t, c);
      var next := h.Next();
      var l2 := CompGuard(c.guard, next, CompPat(c.pat, slot, t, next, Labels(h, 1)));
      var l3 := Emit(CompBlock(c.body, l2), [Br(end)]);
      var l4 := Bind(l3, next);
      CaseLayout(cases, slot, t, end, h, p);
      var ok, st1, m1 := SimCaseTest(c, slot, t, v, next, l, h, p, m0, m, st);
      if ok {
        m' := SimBlockThen(fuel, c.body, inLoop, l, l2, p, m0, m1, st1);
        if ExecBlock(fuel, c.body, st1).out.Normal? {
          m' := Jump(p, m0, m', |CompBlock(c.body, l2).code|, [Br(end)], 0);
        }
      } else {
        CarriesOn(h, l4, m.mem, m1.mem, slot, v);
        m' := SimCases(fuel, cases[1..], slot, t, v, end, inLoop, l, l4, p, m0, m1, st1);
      }
    }
  }

  /** Where the parts of the first case are. */
  lemma CaseLayout(cases: seq<Case>, slot: nat, t: Type, end: Label, l: Low, p: Program)
    requires cases != [] && Within(CompCases(cases, slot, t, end, l), p)
    ensures
      var c, next := cases[0], l.Next();
      var guard := CompGuard(c.guard, next, CompPat(c.pat, slot, t, next, Labels(l, 1)));
      var body := CompBlock(c.body, guard);
      var rest := Bind(Emit(body, [Br(end)]), next);
      && Within(guard, p) && Within(body, p) && Within(CompCases(cases[1..], slot, t, end, rest), p)
      && Grows(l, rest) && Grows(l, guard)
      && CodeAt(p, |body.code|, [Br(end)])
      && p.Bound(next) && p.labels[next].value == |rest.code|
  {
    hide RawPool.Valid, CodeAt, Within, CompBlock, CompPat, CompGuard;
    var c, next := cases[0], l.Next();
    var l0 := Labels(l, 1);
    var guard := CompGuard(c.guard, next, CompPat(c.pat, slot, t, next, l0));
    var body := CompBlock(c.body, guard);
    var l1 := Emit(body, [Br(end)]);
    assert l0.labels[next].None?;
    WithinBefore(Bind(l1, next), CompCases(cases[1..], slot, t, end, Bind(l1, next)), p);
    WithinBind(l1, next, p);
    WithinEmit(body, [Br(end)], p);
    WithinBefore(guard, body, p);
  }

  lemma SimCaseTest(c: Case, slot: nat, t: Type, v: Value, next: Label, l: Low, h: Low, p: Program, m0: State,
        m: State, st: Store)
    returns (ok: bool, st1: Store, m': State)
    requires Underway(l, p, m0, m, st) && Grows(l, h) && m.pc == |h.code|
    requires Within(CompGuard(c.guard, next, CompPat(c.pat, slot, t, next, Labels(h, 1))), p)
    requires Carries(h, m.mem, slot, v) && HasType(v, t) && p.Bound(next)
    requires PatternOk(l.env.types, c.pat, t) && (c.guard.Some? ==> TypeOf(l.env.types, c.guard.value) == Some(TBool))
    requires CaseTest(c, v, st).Some?
    ensures CaseTest(c, v, st) == Some((ok, st1))
    ensures Underway(l, p, m0, m', st1) && Steady(h, m.mem, m'.mem)
    ensures m'.pc == if ok then |CompGuard(c.guard, next, CompPat(c.pat, slot, t, next, Labels(h, 1))).code|
      else p.labels[next].value
  {
    hide RawPool.Valid, Step, Run, Reaches, CodeAt, Agrees, Within, Steady, CompPat, Eval, TypeOf, Carries, MatchPat,
         HasType, PatternOk, CompExpr;
    var l0 := Labels(h, 1);
    var l1 := CompPat(c.pat, slot, t, next, l0);
    var l2 := CompGuard(c.guard, next, l1);
    assert Grows(l1, l2);
    WithinBefore(l1, l2, p);
    LabelsGrow(h, 1);
    SteadySelf(h, m.mem);
    CarriesOn(h, l0, m.mem, m.mem, slot, v);
    var m1 := SimPat(c.pat, slot, t, next, l0, p, m, st, v);
    SteadyLabels(h, 1, m.mem, m1.mem);
    ReachesTrans(p, m0, m, m1);
    SteadyTrans(l, h, m0.mem, m.mem, m1.mem);
    var res := MatchPat(c.pat, v, st);
    st1 := res.1;
    if !res.0 || c.guard.None? {
      ok, m' := res.0, m1;
    } else {
      var ins := [I32Eqz, BrIf(next)];
      var g := c.guard.value;
      WithinEmit(CompExpr(g, l1), ins, p);
      ok := Eval(g, st1).value.b;
      var m2 := SimCond(g, ok, l, l1, p, m0, m1, st1);
      var m3 := Next(p, m0, m2, |CompExpr(g, l1).code|, ins, 0);
      m' := Branch(p, m0, m3, |CompExpr(g, l1).code|, ins, 1, !ok);
      SteadyTrans(h, l1, m.mem, m1.mem, m2.mem);
    }
  }
}

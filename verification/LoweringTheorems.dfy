/** What the simulation says about whole frames. */
module LoweringTheorems {
  import opened Wrappers
  import opened Syntax
  import opened Typing
  import opened Semantics
  import opened Machine
  import opened ScratchPool
  import opened Lowering
  import opened Correspondence
  import opened StmtSimulation

  /** The machine is at the first instruction of the frame and its slots stand
      for `st`. */
  ghost predicate Loaded(env: Env, m: State, st: Store) {
    ValidEnv(env) && m.pc == 0 && Agrees(env, st, m.mem, {})
  }

  /** A checked frame that ends does so by falling off its end, and its code
      runs to the end with the same variables and the operand stack it started
      with. */
  lemma ModuleRuns(body: seq<Stmt>, env: Env, fuel: nat, st: Store, m: State) returns (m': State)
    requires Loaded(env, m, st) && BlockOk(env.types, false, body) && ExecBlock(fuel, body, st).Done?
    ensures ExecBlock(fuel, body, st).out.Normal?
    ensures Reaches(CompModule(body, env), m, m') && Step(CompModule(body, env), m').None?
    ensures m'.pc == |CompModule(body, env).code| && m'.stack == m.stack
    ensures Agrees(env, ExecBlock(fuel, body, st).st, m'.mem, {})
  {
    hide RawPool.Valid, Run, Reaches, CodeAt, Agrees, Steady, CompBlock, ExecBlock, BlockOk;
    var p := CompModule(body, env);
    var l := CompBlock(body, Lowering.Start(env));
    var m1 := SimBlock(fuel, body, false, Lowering.Start(env), p, m, st);
    assert Within(Emit(l, [Nop]), p);
    WithinEmit(l, [Nop], p);
    m' := Next(p, m, m1, |l.code|, [Nop], 0);
  }

  /** However far the machine is run, it can only stop in a state that stands
      for the store the frame ends with. */
  lemma ModuleStopsThere(body: seq<Stmt>, env: Env, fuel: nat, st: Store, m: State, stop: State)
    requires Loaded(env, m, st) && BlockOk(env.types, false, body) && ExecBlock(fuel, body, st).Done?
    requires Reaches(CompModule(body, env), m, stop) && Step(CompModule(body, env), stop).None?
    ensures stop.pc == |CompModule(body, env).code| && stop.stack == m.stack
    ensures Agrees(env, ExecBlock(fuel, body, st).st, stop.mem, {})
  {
    hide RawPool.Valid, Step, Run, Reaches, Agrees, CompModule, ExecBlock, BlockOk;
    var m' := ModuleRuns(body, env, fuel, st, m);
    HaltsInOneState(CompModule(body, env), m, m', stop);
  }

  // The fuel of the semantics bounds loop iterations and nothing else.

  lemma {:induction false} MoreFuelBlock(f: nat, g: nat, ss: seq<Stmt>, st: Store)
    requires f <= g && ExecBlock(f, ss, st).Done?
    ensures ExecBlock(g, ss, st) == ExecBlock(f, ss, st)
    decreases f, ss, 2
  {
    if ss != [] {
      MoreFuel(f, g, ss[0], st);
      var r := Exec(f, ss[0], st);
      if r.out.Normal? {
        MoreFuelBlock(f, g, ss[1..], r.st);
      }
    }
  }

  /** A statement that ends under some fuel ends the same way under any larger one. */
  lemma {:induction false} MoreFuel(f: nat, g: nat, s: Stmt, st: Store)
    requires f <= g && Exec(f, s, st).Done?
    ensures Exec(g, s, st) == Exec(f, s, st)
    decreases f, s, 1
  {
    match s
    case If(cond, body, orelse) =>
      MoreFuelBlock(f, g, if Eval(cond, st) == Some(VBool(true)) then body else orelse, st);
    case While(cond, body, orelse) => MoreFuelWhile(f, g, s, st);
    case ForRange(_, start, stop, step, _, _) =>
      var a := (if start.Some? then Eval(start.value, st) else Some(VInt(0))).value.i;
      MoreFuelFor(f, g, s, Ints(Range(a, Eval(stop, st).value.i, step)), st);
    case ForEach(_, iter, _, _) => MoreFuelFor(f, g, s, Eval(iter, st).value.elems, st);
    case Match(subject, cases) => MoreFuelCases(f, g, cases, Eval(subject, st).value, st);
    case _ =>
  }

  lemma {:induction false} MoreFuelWhile(f: nat, g: nat, s: Stmt, st: Store)
    requires s.While? && f <= g && ExecWhile(f, s.cond, s.body, s.orelse, st).Done?
    ensures ExecWhile(g, s.cond, s.body, s.orelse, st) == ExecWhile(f, s.cond, s.body, s.orelse, st)
    decreases f, s, 0
  {
    if Eval(s.cond, st) == Some(VBool(true)) {
      MoreFuelBlock(f, g, s.body, st);
      var r := ExecBlock(f, s.body, st);
      if !r.out.Broke? {
        MoreFuelWhile(f - 1, g - 1, s, r.st);
      }
    } else {
      MoreFuelBlock(f, g, s.orelse, st);
    }
  }

  lemma {:induction false} MoreFuelFor(f: nat, g: nat, s: Stmt, vs: seq<Value>, st: Store)
    requires IsFor(s) && f <= g && ExecFor(f, s, vs, st).Done?
    ensures ExecFor(g, s, vs, st) == ExecFor(f, s, vs, st)
    decreases f, s, 0, |vs|
  {
    if vs == [] {
      MoreFuelBlock(f, g, s.orelse, st);
    } else {
      var st1 := AssignTarget(st, LoopTarget(s), vs[0]).value;
      MoreFuelBlock(f, g, s.body, st1);
      var r := ExecBlock(f, s.body, st1);
      if !r.out.Broke? {
        MoreFuelFor(f, g, s, vs[1..], r.st);
      }
    }
  }

  lemma {:induction false} MoreFuelCases(f: nat, g: nat, cases: seq<Case>, v: Value, st: Store)
    requires f <= g && ExecCases(f, cases, v, st).Done?
    ensures ExecCases(g, cases, v, st) == ExecCases(f, cases, v, st)
    decreases f, cases, 0
  {
    if cases != [] {
      var (ok, st1) := CaseTest(cases[0], v, st).value;
      if ok { MoreFuelBlock(f, g, cases[0].body, st1); } else { MoreFuelCases(f, g, cases[1..], v, st1); }
    }
  }
}

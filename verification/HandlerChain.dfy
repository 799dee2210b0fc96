/** The chain of `except` clauses: each is tested by comparing the thrown
    object's class number with the interval of the clause's class
    (compiler/lower_stmt.go). */
module HandlerChain {
  import opened Wrappers
  import opened Syntax
  import opened Typing
  import opened Semantics
  import opened Machine
  import opened ScratchPool
  import opened Lowering
  import opened Correspondence
  import opened ExprSimulation
  import opened PatternSimulation
  import opened StmtSimulation
  import opened ClassIntervals

  /** A clause; a bare `except:` names no class. */
  datatype Clause = Clause(cls: Option<string>, body: seq<Stmt>)

  /** What Python does with a thrown object of class `d`: the first clause whose
      class is an ancestor runs, and without one the object is thrown on. */
  datatype Caught = Handled(res: Ending) | Rethrown

  ghost predicate Catches(t: Table, c: Clause, d: string) {
    c.cls.Some? ==> Descends(t, d, c.cls.value)
  }

  ghost function ExecHandlers(fuel: nat, t: Table, cs: seq<Clause>, d: string, st: Store): Caught
    decreases cs
  {
    if cs == [] then Rethrown
    else if Catches(t, cs[0], d) then Handled(ExecBlock(fuel, cs[0].body, st))
    else ExecHandlers(fuel, t, cs[1..], d, st)
  }

  // The code.

  function ClassIdCode(env: Env, inst: nat): seq<Instr> {
    [LoadSlot(env, inst), I32Const(0), StructGet]
  }

  function TestCode(env: Env, inst: nat, low: int, high: int, next: Label): seq<Instr> {
    ClassIdCode(env, inst) + [I64Const(low), I64Cmp(Ge)]
    + ClassIdCode(env, inst) + [I64Const(high), I64Cmp(Le)]
    + [I32And, I32Eqz, BrIf(next)]
  }

  function CompTest(c: Clause, n: Numbers, inst: nat, next: Label, l: Low): (r: Low)
    requires c.cls.Some? ==> n.Has(c.cls.value)
    ensures Grows(l, r)
  {
    if c.cls.Some? then Emit(l, TestCode(l.env, inst, n.low[c.cls.value], n.high[c.cls.value], next)) else l
  }

  ghost predicate Known(n: Numbers, cs: seq<Clause>) {
    forall i :: 0 <= i < |cs| && cs[i].cls.Some? ==> n.Has(cs[i].cls.value)
  }

  ghost function CompClauses(cs: seq<Clause>, n: Numbers, inst: nat, after: Label, l: Low): (r: Low)
    requires Known(n, cs)
    ensures Grows(l, r)
    decreases cs
  {
    if cs == [] then l else CompClauses(cs[1..], n, inst, after, CompClause(cs[0], n, inst, after, l))
  }

  function CompClause(c: Clause, n: Numbers, inst: nat, after: Label, l: Low): (r: Low)
    requires c.cls.Some? ==> n.Has(c.cls.value)
    ensures Grows(l, r)
  {
    var next := l.Next();
    Bind(Emit(CompBlock(c.body, CompTest(c, n, inst, next, Labels(l, 1))), [Br(after)]), next)
  }

  function ThrowCode(env: Env, err: nat): seq<Instr> {
    [LoadSlot(env, err), Throw]
  }

  /** The clauses, and the throw after them; the label after the statement is bound behind it. */
  ghost function CompHandlers(cs: seq<Clause>, n: Numbers, inst: nat, err: nat, after: Label, l: Low): (r: Low)
    requires Known(n, cs) && after < l.Next()
  {
    var l1 := Emit(CompClauses(cs, n, inst, after, l), ThrowCode(l.env, err));
    Bind(l1, after)
  }

  // Running a test.

  /** The slot holds an object whose first field is its class's number. */
  ghost predicate Thrown(l: Low, mem: Memory, inst: nat, id: int) {
    var s := SlotAt(l.env, inst);
    && s in mem.slots && mem.slots[s].Ref? && mem.slots[s].a < |mem.heap|
    && mem.heap[mem.slots[s].a] != [] && mem.heap[mem.slots[s].a][0] == I64(id)
  }

  lemma RunClassId(env: Env, l: Low, inst: nat, id: int, p: Program, m0: State, m: State, at: nat) returns (m': State)
    requires env == l.env && Reaches(p, m0, m) && CodeAt(p, at, ClassIdCode(env, inst)) && m.pc == at
      && Thrown(l, m.mem, inst, id)
    ensures Reaches(p, m0, m') && m' == m.(pc := at + 3, stack := Push(I64(id), m.stack))
  {
    hide RawPool.Valid, Step, Run, Reaches, CodeAt, LoadSlot, SlotAt;
    var ins := ClassIdCode(env, inst);
    var m1 := LoadScratch(p, m0, m, at, ins, 0, env, inst);
    var m2 := Next(p, m0, m1, at, ins, 1);
    m' := Next(p, m0, m2, at, ins, 2);
  }

  lemma RunBound(cmp: CmpOp, bound: int, id: int, p: Program, m0: State, m: State, at: nat, below: Stack)
    returns (m': State)
    requires Reaches(p, m0, m) && CodeAt(p, at, [I64Const(bound), I64Cmp(cmp)]) && m.pc == at
      && m.stack == Push(I64(id), below)
    ensures Reaches(p, m0, m') && m' == m.(pc := at + 2, stack := Push(I1(CmpInts(cmp, id, bound)), below))
  {
    hide Step, Run, Reaches, CodeAt;
    var ins := [I64Const(bound), I64Cmp(cmp)];
    var m1 := Next(p, m0, m, at, ins, 0);
    m' := Next(p, m0, m1, at, ins, 1);
  }

  lemma TestPlaced(env: Env, inst: nat, low: int, high: int, next: Label, p: Program, at: nat)
    requires CodeAt(p, at, TestCode(env, inst, low, high, next))
    ensures CodeAt(p, at, ClassIdCode(env, inst)) && CodeAt(p, at + 3, [I64Const(low), I64Cmp(Ge)])
    ensures CodeAt(p, at + 5, ClassIdCode(env, inst)) && CodeAt(p, at + 8, [I64Const(high), I64Cmp(Le)])
    ensures CodeAt(p, at + 10, [I32And, I32Eqz, BrIf(next)]) && |TestCode(env, inst, low, high, next)| == 13
  {
    hide CodeAt, LoadSlot;
    var a, b, c, d := ClassIdCode(env, inst), [I64Const(low), I64Cmp(Ge)], [I64Const(high), I64Cmp(Le)], [I32And,
          I32Eqz, BrIf(next)];
    CodeAtConcat(p, at, a + b + a + c, d);
    CodeAtConcat(p, at, a + b + a, c);
    CodeAtConcat(p, at, a + b, a);
    CodeAtConcat(p, at, a, b);
  }

  /** The test falls through when the number is in the interval, and else branches. */
  lemma RunTest(l: Low, inst: nat, id: int, low: int, high: int, next: Label, p: Program, m0: State, m: State)
    returns (m': State)
    requires Reaches(p, m0, m) && CodeAt(p, m.pc, TestCode(l.env, inst, low, high, next)) && p.Bound(next)
      && Thrown(l, m.mem, inst, id)
    ensures Reaches(p, m0, m')
    ensures m' == m.(pc := if low <= id <= high then m.pc + 13 else p.labels[next].value)
  {
    hide RawPool.Valid, Step, Run, Reaches, CodeAt, LoadSlot, SlotAt, TestCode, ClassIdCode, Thrown;
    TestPlaced(l.env, inst, low, high, next, p, m.pc);
    var m1 := RunClassId(l.env, l, inst, id, p, m0, m, m.pc);
    var m2 := RunBound(Ge, low, id, p, m0, m1, m.pc + 3, m.stack);
    var m3 := RunClassId(l.env, l, inst, id, p, m0, m2, m.pc + 5);
    var m4 := RunBound(Le, high, id, p, m0, m3, m.pc + 8, m2.stack);
    var ins := [I32And, I32Eqz, BrIf(next)];
    var m5 := Next(p, m0, m4, m.pc + 10, ins, 0);
    var m6 := Next(p, m0, m5, m.pc + 10, ins, 1);
    m' := Branch(p, m0, m6, m.pc + 10, ins, 2, !(low <= id <= high));
  }

  // Running the chain.

  ghost predicate ClausesOk(g: Types, inLoop: bool, cs: seq<Clause>, t: Table) {
    forall i :: 0 <= i < |cs| ==> BlockOk(g, inLoop, cs[i].body) && (cs[i].cls.Some? ==> cs[i].cls.value in t.order)
  }

  lemma ClauseLayout(cs: seq<Clause>, n: Numbers, inst: nat, after: Label, l: Low, p: Program)
    requires cs != [] && Known(n, cs) && Within(CompClauses(cs, n, inst, after, l), p)
    ensures
      var next := l.Next();
      var test := CompTest(cs[0], n, inst, next, Labels(l, 1));
      var body := CompBlock(cs[0].body, test);
      var rest := Bind(Emit(body, [Br(after)]), next);
      && Known(n, cs[1..]) && Grows(l, test) && Grows(l, rest)
      && Within(test, p) && Within(body, p) && Within(CompClauses(cs[1..], n, inst, after, rest), p)
      && CodeAt(p, |body.code|, [Br(after)])
      && p.Bound(next) && p.labels[next].value == |rest.code|
  {
    hide RawPool.Valid, CodeAt, Within, CompBlock, CompTest;
    var next := l.Next();
    var l0 := Labels(l, 1);
    var test := CompTest(cs[0], n, inst, next, l0);
    var body := CompBlock(cs[0].body, test);
    var l1 := Emit(body, [Br(after)]);
    assert l0.labels[next].None?;
    WithinBefore(Bind(l1, next), CompClauses(cs[1..], n, inst, after, Bind(l1, next)), p);
    WithinBind(l1, next, p);
    WithinEmit(body, [Br(after)], p);
    WithinBefore(test, body, p);
  }

  lemma ThrownOn(l: Low, l1: Low, mem: Memory, inst: nat, id: int)
    requires Thrown(l, mem, inst, id) && l1.env == l.env
    ensures Thrown(l1, mem, inst, id)
  {
  }

  /** The emitted chain runs the body of the first clause whose class is an
      ancestor of the thrown object's, and then leaves for `after` or for the exit
      the body takes; without such a clause control is behind the last clause,
      with nothing changed. */
  lemma {:induction false} SimClauses(fuel: nat, t: Table, n: Numbers, cs: seq<Clause>, d: string, inst: nat,
        after: Label, inLoop: bool, l: Low, h: Low, p: Program, m0: State, m: State, st: Store)
    returns (m': State)
    requires Numbered(t, n) && Reachable(t, d) && Known(n, cs) && ClausesOk(l.env.types, inLoop, cs, t)
      && (inLoop ==> l.loops != [])
    requires Underway(l, p, m0, m, st) && Grows(l, h) && Within(CompClauses(cs, n, inst, after, h), p)
      && m.pc == |h.code|
    requires Thrown(h, m.mem, inst, n.id[d]) && p.Bound(after)
    requires var r := ExecHandlers(fuel, t, cs, d, st); r.Handled? ==> r.res.Done?
    ensures
      var r := ExecHandlers(fuel, t, cs, d, st);
      if r.Handled? then
        && (r.res.out.Normal? || l.loops != [])
        && Underway(l, p, m0, m', r.res.st)
        && m'.pc == if r.res.out.Normal? then p.labels[after].value else Exit(l, h, p, r.res.out)
      else
        && Reaches(p, m0, m') && m' == m.(pc := |CompClauses(cs, n, inst, after, h).code|)
    decreases cs
  {
    hide RawPool.Valid, RawTable.Valid, Step, Run, Reaches, CodeAt, Agrees, Within, Steady, CompBlock, CompTest,
         ExecBlock, BlockOk, Descends, Numbered, Reachable, Thrown, TestCode;
    if cs == [] {
      m' := m;
    } else {
      var c := cs[0];
      var next := h.Next();
      var test := CompTest(c, n, inst, next, Labels(h, 1));
      var body := CompBlock(c.body, test);
      var rest := Bind(Emit(body, [Br(after)]), next);
      ClauseLayout(cs, n, inst, after, h, p);
      HasNumber(t, n, d);
      var m1 := SimTest(t, n, c, d, inst, next, l, h, p, m0, m);
      if Catches(t, c, d) {
        m' := SimBlockThen(fuel, c.body, inLoop, l, test, p, m0, m1, st);
        if ExecBlock(fuel, c.body, st).out.Normal? {
          m' := Jump(p, m0, m', |body.code|, [Br(after)], 0);
        }
      } else {
        ThrownOn(h, rest, m.mem, inst, n.id[d]);
        m' := SimClauses(fuel, t, n, cs[1..], d, inst, after, inLoop, l, rest, p, m0, m1, st);
      }
    }
  }

  lemma HasNumber(t: Table, n: Numbers, d: string)
    requires Numbered(t, n) && Reachable(t, d)
    ensures n.Has(d)
  {
  }

  lemma SimTest(t: Table, n: Numbers, c: Clause, d: string, inst: nat, next: Label, l: Low, h: Low, p: Program,
        m0: State, m: State) returns (m': State)
    requires Numbered(t, n) && Reachable(t, d) && n.Has(d)
      && (c.cls.Some? ==> n.Has(c.cls.value) && c.cls.value in t.order)
    requires Reaches(p, m0, m) && Within(CompTest(c, n, inst, next, Labels(h, 1)), p) && m.pc == |h.code|
      && p.Bound(next)
    requires Thrown(h, m.mem, inst, n.id[d])
    ensures Reaches(p, m0, m')
    ensures m' == m.(pc := if Catches(t, c, d) then |CompTest(c, n, inst, next, Labels(h, 1)).code|
      else p.labels[next].value)
  {
    hide RawPool.Valid, RawTable.Valid, Step, Run, Reaches, CodeAt, Within, Descends, Numbered, Reachable, Thrown,
         TestCode;
    if c.cls.Some? {
      var low, high := n.low[c.cls.value], n.high[c.cls.value];
      WithinEmit(Labels(h, 1), TestCode(h.env, inst, low, high, next), p);
      IntervalsDecide(t, n, d, c.cls.value);
      m' := RunTest(h, inst, n.id[d], low, high, next, p, m0, m);
      TestPlaced(h.env, inst, low, high, next, p, m.pc);
    } else {
      m' := m;
    }
  }

  /** The whole chain: a thrown object that no clause catches is thrown again,
      and one that a clause catches is handled by the first that does. */
  lemma SimHandlers(fuel: nat, t: Table, n: Numbers, cs: seq<Clause>, d: string, inst: nat, err: nat, after: Label,
        inLoop: bool, l: Low, p: Program, m: State, st: Store)
    returns (m': State)
    requires Numbered(t, n) && Reachable(t, d) && Known(n, cs) && ClausesOk(l.env.types, inLoop, cs, t)
      && (inLoop ==> l.loops != [])
    requires after < l.Next() && l.labels[after].None?
    requires StmtReady(l, CompHandlers(cs, n, inst, err, after, l), p, m, st)
    requires Thrown(l, m.mem, inst, n.id[d]) && SlotAt(l.env, err) in m.mem.slots
    requires var r := ExecHandlers(fuel, t, cs, d, st); r.Handled? ==> r.res.Done?
    ensures
      var r := ExecHandlers(fuel, t, cs, d, st);
      if r.Handled? then Lands(l, CompHandlers(cs, n, inst, err, after, l), p, m, m', r.res)
      else
        && Reaches(p, m, m') && m'.pc < |p.code| && p.code[m'.pc] == Throw
        && m'.stack == Push(m.mem.slots[SlotAt(l.env, err)], m.stack) && m'.mem == m.mem
  {
    hide RawPool.Valid, RawTable.Valid, Step, Run, Reaches, Agrees, Within, Steady, CompClauses, ExecBlock,
         ExecHandlers, BlockOk, Descends, Numbered, Reachable, Thrown, SlotAt, LoadSlot;
    var l1 := CompClauses(cs, n, inst, after, l);
    var code := ThrowCode(l.env, err);
    assert l1.labels[after].None?;
    WithinBind(Emit(l1, code), after, p);
    WithinEmit(l1, code, p);
    StmtSimulation.Start(l, p, m, st);
    m' := SimClauses(fuel, t, n, cs, d, inst, after, inLoop, l, l, p, m, m, st);
    if ExecHandlers(fuel, t, cs, d, st).Rethrown? {
      m' := LoadScratch(p, m, m', |l1.code|, code, 0, l.env, err);
    }
  }
}

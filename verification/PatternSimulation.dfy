/** The emitted pattern tests decide the pattern and bind its captures. */
module PatternSimulation {
  import opened Wrappers
  import opened Syntax
  import opened Typing
  import opened Semantics
  import opened Machine
  import opened ScratchPool
  import opened Lowering
  import opened Correspondence
  import opened ExprSimulation

  /** A scratch slot that what is lowered from `l` keeps holds value `v`. */
  ghost predicate Carries(l: Low, mem: Memory, id: nat, v: Value) {
    var s := SlotAt(l.env, id);
    && id >= l.env.names + l.env.base
    && !Overwritable(l, s)
    && s in mem.slots
    && Rep(mem.heap, mem.slots[s], v, {})
  }

  lemma CarriesOn(l: Low, l1: Low, mem: Memory, mem': Memory, id: nat, v: Value)
    requires Carries(l, mem, id, v) && Grows(l, l1) && Steady(l, mem, mem')
    ensures Carries(l1, mem', id, v)
  {
    RepKept(mem.heap, mem'.heap, mem.slots[SlotAt(l.env, id)], v, {});
  }

  ghost predicate PatReady(l: Low, r: Low, p: Program, m: State, st: Store, slot: nat, v: Value, t: Type, next: Label) {
    && ValidEnv(l.env)
    && Within(r, p)
    && m.pc == |l.code|
    && Agrees(l.env, st, m.mem, {})
    && Carries(l, m.mem, slot, v)
    && HasType(v, t)
    && p.Bound(next)
  }

  /** The test ran to the end of `r` if it succeeded and to `next` if it failed,
      with the store as the semantics leaves it. */
  ghost predicate Decides(l: Low, r: Low, p: Program, m: State, m': State, res: (bool, Store), next: Label)
    requires p.Bound(next)
  {
    && Reaches(p, m, m')
    && m'.pc == (if res.0 then |r.code| else p.labels[next].value)
    && m'.stack == m.stack
    && Agrees(l.env, res.1, m'.mem, {})
    && Steady(l, m.mem, m'.mem)
  }

  lemma {:induction false} SimPat(pt: Pattern, slot: nat, t: Type, next: Label, l: Low, p: Program, m: State,
        st: Store, v: Value)
    returns (m': State)
    requires PatReady(l, CompPat(pt, slot, t, next, l), p, m, st, slot, v, t, next)
    requires PatternOk(l.env.types, pt, t)
    ensures Decides(l, CompPat(pt, slot, t, next, l), p, m, m', MatchPat(pt, v, st), next)
    decreases pt, 5
  {
    hide RawPool.Valid, Step, Run, Reaches, CodeAt, Agrees, Within, Steady, Rep, Overwritable;
    match pt
    case Wildcard =>
      m' := m;
      ReachesSelf(p, m);
      SteadySelf(l, m.mem);
    case Capture(x) =>
      m' := SimBindSlot(x, slot, t, l, p, m, st, v);
    case As(pat, x) => m' := SimAs(pat, x, slot, t, next, l, p, m, st, v);
    case Or(alts) => m' := SimOrPat(alts, slot, t, next, l, p, m, st, v);
    case ValuePat(lit) => m' := SimValuePat(lit, slot, t, next, l, p, m, st, v);
    case SeqPat(before, star, after) =>
      if t.TTuple? {
        m' := SimTuplePat(pt, slot, t, next, l, p, m, st, v);
      } else {
        m' := SimListPat(pt, slot, t, next, l, p, m, st, v);
      }
  }

  /** `x` is bound to the slot's value unless it is a placeholder. */
  lemma SimBindSlot(x: string, slot: nat, t: Type, l: Low, p: Program, m: State, st: Store, v: Value)
    returns (m': State)
    requires ValidEnv(l.env) && Within(CompBindSlot(x, slot, l), p) && m.pc == |l.code|
    requires Agrees(l.env, st, m.mem, {}) && Carries(l, m.mem, slot, v) && HasType(v, t) && CaptureOk(l.env.types, x, t)
    ensures Reaches(p, m, m') && m'.pc == |CompBindSlot(x, slot, l).code| && m'.stack == m.stack
    ensures Agrees(l.env, BindCapture(st, x, v), m'.mem, {}) && Steady(l, m.mem, m'.mem)
  {
    hide RawPool.Valid, Step, Run, Reaches, CodeAt, Agrees, Within, Steady, Rep, Overwritable, LoadSlot, SlotAt;
    ReachesSelf(p, m);
    SteadySelf(l, m.mem);
    if Binds(x) {
      var ins := [LoadSlot(l.env, slot)] + StoreName(l.env, x);
      WithinEmit(l, ins, p);
      assert HasSlot(l.env, x);
      assert ins[0] == LoadSlot(l.env, slot) && [ins[1]] == StoreName(l.env, x) && |ins| == 2;
      var m1 := LoadScratch(p, m, m, |l.code|, ins, 0, l.env, slot);
      m' := SetName(p, m, m1, |l.code|, ins, 1, l.env, x, st, v);
      NamedIsNamed(l.env, x);
      SteadyStore(l, NamedSlot(l.env, x), m.mem, m.mem, m1.stack.top);
    } else {
      m' := m;
    }
  }

  lemma NamedIsNamed(env: Env, x: string)
    requires ValidEnv(env) && HasSlot(env, x)
    ensures IsNamed(env, NamedSlot(env, x))
  {
  }

  lemma {:induction false} SimAs(pat: Pattern, x: string, slot: nat, t: Type, next: Label, l: Low, p: Program,
        m: State, st: Store, v: Value)
    returns (m': State)
    requires PatReady(l, CompPat(As(pat, x), slot, t, next, l), p, m, st, slot, v, t, next)
    requires PatternOk(l.env.types, pat, t) && CaptureOk(l.env.types, x, t)
    ensures Decides(l, CompPat(As(pat, x), slot, t, next, l), p, m, m', MatchPat(As(pat, x), v, st), next)
    decreases As(pat, x), 4
  {
    hide RawPool.Valid, Step, Run, Reaches, CodeAt, Agrees, Within, Steady, Rep, Overwritable, Carries, PatternOk;
    var l1 := CompPat(pat, slot, t, next, l);
    BindGrows(x, slot, l1);
    WithinBefore(l1, CompBindSlot(x, slot, l1), p);
    var m1 := SimPat(pat, slot, t, next, l, p, m, st, v);
    var (ok, st1) := MatchPat(pat, v, st);
    if ok {
      CarriesOn(l, l1, m.mem, m1.mem, slot, v);
      m' := SimBindSlot(x, slot, t, l1, p, m1, st1, v);
      ReachesTrans(p, m, m1, m');
      SteadyTrans(l, l1, m.mem, m1.mem, m'.mem);
    } else {
      m' := m1;
    }
  }

  lemma BindGrows(x: string, slot: nat, l: Low)
    ensures Grows(l, CompBindSlot(x, slot, l))
  {
  }

  lemma {:induction false} SimOrPat(alts: seq<Pattern>, slot: nat, t: Type, next: Label, l: Low, p: Program,
        m: State, st: Store, v: Value)
    returns (m': State)
    requires PatReady(l, CompPat(Or(alts), slot, t, next, l), p, m, st, slot, v, t, next)
    requires forall i :: 0 <= i < |alts| ==> PatternOk(l.env.types, alts[i], t)
    ensures Decides(l, CompPat(Or(alts), slot, t, next, l), p, m, m', MatchPat(Or(alts), v, st), next)
    decreases Or(alts), 4
  {
    hide RawPool.Valid, Step, Run, Reaches, CodeAt, Agrees, Within, Steady, Rep, Overwritable, Carries, PatternOk,
         CompAlts, MatchAny;
    var succ := l.Next();
    var l1 := Labels(l, 1);
    var l2 := CompAlts(alts, slot, t, succ, l1);
    var l3 := Emit(l2, [Br(next)]);
    assert l1.labels[succ] == None;
    WithinBind(l3, succ, p);
    WithinEmit(l2, [Br(next)], p);
    LabelsGrow(l, 1);
    SteadySelf(l, m.mem);
    CarriesOn(l, l1, m.mem, m.mem, slot, v);
    var m1 := SimAlts(alts, slot, t, succ, l1, p, m, st, v);
    SteadyLabels(l, 1, m.mem, m1.mem);
    if MatchAny(alts, v, st).0 {
      m' := m1;
    } else {
      m' := Jump(p, m, m1, |l2.code|, [Br(next)], 0);
    }
  }

  lemma LabelsGrow(l: Low, n: nat)
    ensures Grows(l, Labels(l, n))
  {
  }

  lemma SteadyLabels(l: Low, n: nat, mem: Memory, mem': Memory)
    ensures Steady(Labels(l, n), mem, mem') == Steady(l, mem, mem')
  {
  }

  lemma {:induction false} SimAlts(alts: seq<Pattern>, slot: nat, t: Type, succ: Label, l: Low, p: Program, m: State,
        st: Store, v: Value)
    returns (m': State)
    requires PatReady(l, CompAlts(alts, slot, t, succ, l), p, m, st, slot, v, t, succ)
    requires forall i :: 0 <= i < |alts| ==> PatternOk(l.env.types, alts[i], t)
    ensures Reaches(p, m, m') && m'.stack == m.stack
    ensures m'.pc == if MatchAny(alts, v, st).0 then p.labels[succ].value else |CompAlts(alts, slot, t, succ, l).code|
    ensures Agrees(l.env, MatchAny(alts, v, st).1, m'.mem, {}) && Steady(l, m.mem, m'.mem)
    decreases alts, 3
  {
    hide RawPool.Valid, Step, Run, Reaches, CodeAt, Agrees, Within, Steady, Rep, Overwritable, Carries, PatternOk,
         CompPat, MatchPat;
    if alts == [] {
      m' := m;
      ReachesSelf(p, m);
      SteadySelf(l, m.mem);
    } else {
      var altNext := l.Next();
      var l0 := Labels(l, 1);
      var l1 := CompPat(alts[0], slot, t, altNext, l0);
      var l2 := Emit(l1, [Br(succ)]);
      var l3 := Bind(l2, altNext);
      var r := CompAlts(alts[1..], slot, t, succ, l3);
      assert l0.labels[altNext] == None;
      WithinBefore(l3, r, p);
      WithinBind(l2, altNext, p);
      WithinEmit(l1, [Br(succ)], p);
      LabelsGrow(l, 1);
      SteadySelf(l, m.mem);
      CarriesOn(l, l0, m.mem, m.mem, slot, v);
      var m1 := SimPat(alts[0], slot, t, altNext, l0, p, m, st, v);
      SteadyLabels(l, 1, m.mem, m1.mem);
      var (ok, st1) := MatchPat(alts[0], v, st);
      if ok {
        m' := Jump(p, m, m1, |l1.code|, [Br(succ)], 0);
      } else {
        assert Grows(l, l3);
        CarriesOn(l, l3, m.mem, m1.mem, slot, v);
        m' := SimAlts(alts[1..], slot, t, succ, l3, p, m1, st1, v);
        ReachesTrans(p, m, m1, m');
        SteadyTrans(l, l3, m.mem, m1.mem, m'.mem);
      }
    }
  }

  lemma LiteralEval(lit: Expr, st: Store)
    requires IsLiteral(lit)
    ensures Eval(lit, st) == Some(LiteralValue(lit))
  {
  }

  lemma SimValuePat(lit: Expr, slot: nat, t: Type, next: Label, l: Low, p: Program, m: State, st: Store, v: Value)
    returns (m': State)
    requires PatReady(l, CompPat(ValuePat(lit), slot, t, next, l), p, m, st, slot, v, t, next)
    requires IsLiteral(lit) && TypeOf(l.env.types, lit) == Some(t)
    ensures Decides(l, CompPat(ValuePat(lit), slot, t, next, l), p, m, m', (LiteralValue(lit) == v, st), next)
  {
    hide RawPool.Valid, Step, Run, Reaches, CodeAt, Agrees, Within, Steady, Quiet, Rep, Overwritable, CompExpr,
         LoadSlot, SlotAt, Eval;
    var w := LiteralValue(lit);
    var l1 := Emit(l, [LoadSlot(l.env, slot)]);
    var l2 := CompExpr(lit, l1);
    var ins := [CmpInstr(Eq, Some(t)), I32Eqz, BrIf(next)];
    WithinEmit(l2, ins, p);
    WithinBefore(l1, l2, p);
    WithinEmit(l, [LoadSlot(l.env, slot)], p);
    ReachesSelf(p, m);
    QuietSelf(l, m.mem, {});
    LiteralEval(lit, st);
    var m1 := LoadScratch(p, m, m, |l.code|, [LoadSlot(l.env, slot)], 0, l.env, slot);
    ScalarWord(m.mem.heap, m1.stack.top, v, {}, t);
    var m2 := SimThen(lit, l, l1, p, m, m1, st, {});
    ScalarWord(m2.mem.heap, m2.stack.top, w, {}, t);
    var m3 := SimCmp(Eq, t, v, w, p, m, m2, |l2.code|, ins, 0, m.stack);
    var m4 := Next(p, m, m3, |l2.code|, ins, 1);
    m' := Branch(p, m, m4, |l2.code|, ins, 2, v != w);
    QuietSteady(l, m.mem, m'.mem);
    QuietAgrees(l, m.mem, m'.mem, st, {}, {});
  }

  // Sequences.

  /** The element a fetch reads from a sequence of length `n`. */
  function FetchIndex(f: Fetch, n: nat): int {
    match f
    case Front(i) => i
    case Back(k) => n - k
  }

  ghost predicate Fetches(f: Fetch, parent: Value, v: Value) {
    && (parent.VTuple? || parent.VList?)
    && 0 <= FetchIndex(f, |parent.elems|) < |parent.elems|
    && parent.elems[FetchIndex(f, |parent.elems|)] == v
  }

  lemma SimFetch(f: Fetch, slot: nat, isTuple: bool, parent: Value, v: Value, l: Low, p: Program, m: State, at: nat,
        ins: seq<Instr>)
    returns (m': State)
    requires CodeAt(p, at, ins) && FetchCode(l.env, slot, isTuple, f) <= ins && m.pc == at
    requires Carries(l, m.mem, slot, parent) && Fetches(f, parent, v)
    ensures Reaches(p, m, m') && m'.pc == at + |FetchCode(l.env, slot, isTuple, f)| && m'.mem == m.mem
    ensures m'.stack.Push? && m'.stack.below == m.stack && Rep(m.mem.heap, m'.stack.top, v, {})
  {
    hide RawPool.Valid, Step, Run, Reaches, CodeAt, LoadSlot, SlotAt, Overwritable;
    match f
    case Front(i) => m' := SimFront(i, slot, isTuple, parent, v, l, p, m, at, ins);
    case Back(k) => m' := SimBack(k, slot, isTuple, parent, v, l, p, m, at, ins);
  }

  lemma SimFront(i: nat, slot: nat, isTuple: bool, parent: Value, v: Value, l: Low, p: Program, m: State, at: nat,
        ins: seq<Instr>)
    returns (m': State)
    requires CodeAt(p, at, ins) && FetchCode(l.env, slot, isTuple, Front(i)) <= ins && m.pc == at
    requires Carries(l, m.mem, slot, parent) && Fetches(Front(i), parent, v)
    ensures Reaches(p, m, m') && m'.pc == at + 3 && m'.mem == m.mem
    ensures m'.stack.Push? && m'.stack.below == m.stack && Rep(m.mem.heap, m'.stack.top, v, {})
  {
    hide RawPool.Valid, Step, Run, Reaches, CodeAt, LoadSlot, SlotAt, Overwritable;
    var code := FetchCode(l.env, slot, isTuple, Front(i));
    assert ins[0] == code[0] && ins[1] == code[1] && ins[2] == code[2];
    ReachesSelf(p, m);
    var m1 := LoadScratch(p, m, m, at, ins, 0, l.env, slot);
    var m2 := Next(p, m, m1, at, ins, 1);
    m' := Next(p, m, m2, at, ins, 2);
  }

  lemma SimBack(k: nat, slot: nat, isTuple: bool, parent: Value, v: Value, l: Low, p: Program, m: State, at: nat,
        ins: seq<Instr>)
    returns (m': State)
    requires CodeAt(p, at, ins) && FetchCode(l.env, slot, isTuple, Back(k)) <= ins && m.pc == at
    requires Carries(l, m.mem, slot, parent) && Fetches(Back(k), parent, v)
    ensures Reaches(p, m, m') && m'.pc == at + 6 && m'.mem == m.mem
    ensures m'.stack.Push? && m'.stack.below == m.stack && Rep(m.mem.heap, m'.stack.top, v, {})
  {
    hide RawPool.Valid, Step, Run, Reaches, CodeAt, LoadSlot, SlotAt, Overwritable;
    var code := FetchCode(l.env, slot, isTuple, Back(k));
    assert ins[0] == code[0] && ins[1] == code[1] && ins[2] == code[2] && ins[3] == code[3] && ins[4] == code[4]
        && ins[5] == code[5];
    ReachesSelf(p, m);
    var m1 := LoadScratch(p, m, m, at, ins, 0, l.env, slot);
    var m2 := LoadScratch(p, m, m1, at, ins, 1, l.env, slot);
    var m3 := SimLengthMinus(k, m2.stack.top.a, p, m, m2, at, ins, 2, m1.stack);
    m' := Next(p, m, m3, at, ins, 5);
  }

  /** Pushes the length of a sequence less `n`. */
  lemma SimLengthMinus(n: nat, a: nat, p: Program, m0: State, m: State, at: nat, ins: seq<Instr>, k: nat,
        below: Stack) returns (m': State)
    requires AtInstr(p, m0, m, at, ins, k) && k + 2 < |ins| && ins[k] == ArrayLen && ins[k + 1] == I32Const(n)
      && ins[k + 2] == I32Sub
    requires m.stack == Push(Ref(a), below) && a < |m.mem.heap|
    ensures Reaches(p, m0, m') && m' == m.(pc := m.pc + 3, stack := Push(I32(|m.mem.heap[a]| - n), below))
  {
    hide Step, Run, Reaches, CodeAt;
    var m1 := Next(p, m0, m, at, ins, k);
    var m2 := Next(p, m0, m1, at, ins, k + 1);
    m' := Next(p, m0, m2, at, ins, k + 2);
  }

  ghost predicate ChildrenOk(g: Types, ps: seq<Pattern>, fs: seq<Fetch>, ts: seq<Type>, vs: seq<Value>, parent: Value) {
    && |ps| == |fs| == |ts| == |vs|
    && forall j :: 0 <= j < |ps| ==>
        PatternOk(g, ps[j], ts[j]) && HasType(vs[j], ts[j]) && Fetches(fs[j], parent, vs[j])
  }

  ghost predicate SeqReady(l: Low, r: Low, p: Program, m: State, st: Store, slot: nat, parent: Value, next: Label) {
    && ValidEnv(l.env)
    && Within(r, p)
    && m.pc == |l.code|
    && Agrees(l.env, st, m.mem, {})
    && Carries(l, m.mem, slot, parent)
    && p.Bound(next)
  }

  lemma {:induction false} SimChildren(ps: seq<Pattern>, fs: seq<Fetch>, ts: seq<Type>, vs: seq<Value>, slot: nat,
        isTuple: bool, parent: Value,
                                       next: Label, l: Low, p: Program, m: State, st: Store)
    returns (m': State)
    requires ChildrenOk(l.env.types, ps, fs, ts, vs, parent)
    requires SeqReady(l, CompChildren(ps, fs, ts, slot, isTuple, next, l), p, m, st, slot, parent, next)
    ensures Decides(l, CompChildren(ps, fs, ts, slot, isTuple, next, l), p, m, m', MatchAll(ps, vs, st), next)
    decreases ps, 3
  {
    hide RawPool.Valid, Step, Run, Reaches, CodeAt, Agrees, Within, Steady, Rep, Overwritable, Carries, PatternOk,
         CompPat, MatchPat, FetchCode;
    if ps == [] {
      m' := m;
      ReachesSelf(p, m);
      SteadySelf(l, m.mem);
    } else {
      var k := KindOf(Some(ts[0]));
      var child := Reserved(l, k);
      var l1 := Emit(Reserve(l, k), FetchCode(l.env, slot, isTuple, fs[0]) + [StoreSlot(l.env, child)]);
      var l2 := CompPat(ps[0], child, ts[0], next, l1);
      WithinBefore(l2, CompChildren(ps[1..], fs[1..], ts[1..], slot, isTuple, next, l2), p);
      WithinBefore(l1, l2, p);
      var m1 := SimChild(fs[0], slot, isTuple, parent, vs[0], k, l, l1, p, m, st);
      var m2 := SimPat(ps[0], child, ts[0], next, l1, p, m1, st, vs[0]);
      ReachesTrans(p, m, m1, m2);
      SteadyTrans(l, l1, m.mem, m1.mem, m2.mem);
      var (ok, st1) := MatchPat(ps[0], vs[0], st);
      if ok {
        assert Grows(l, l2);
        CarriesOn(l, l2, m.mem, m2.mem, slot, parent);
        m' := SimChildren(ps[1..], fs[1..], ts[1..], vs[1..], slot, isTuple, parent, next, l2, p, m2, st1);
        ReachesTrans(p, m, m2, m');
        SteadyTrans(l, l2, m.mem, m2.mem, m'.mem);
      } else {
        m' := m2;
      }
    }
  }

  /** One element is extracted into a fresh slot of its own. */
  lemma SimChild(f: Fetch, slot: nat, isTuple: bool, parent: Value, v: Value, k: Kind, l: Low, l1: Low, p: Program,
        m: State, st: Store)
    returns (m': State)
    requires l1 == Emit(Reserve(l, k), FetchCode(l.env, slot, isTuple, f) + [StoreSlot(l.env, Reserved(l, k))])
    requires ValidEnv(l.env) && Within(l1, p) && m.pc == |l.code| && Agrees(l.env, st, m.mem, {})
      && Carries(l, m.mem, slot, parent)
    requires Fetches(f, parent, v)
    ensures Reaches(p, m, m') && m'.pc == |l1.code| && m'.stack == m.stack
    ensures Agrees(l.env, st, m'.mem, {}) && Steady(l, m.mem, m'.mem)
    ensures Carries(l1, m'.mem, Reserved(l, k), v) && Grows(l, l1)
  {
    hide RawPool.Valid, Step, Run, Reaches, CodeAt, Agrees, Within, Rep, FetchCode, LoadSlot, StoreSlot;
    var child := Reserved(l, k);
    var ins := FetchCode(l.env, slot, isTuple, f) + [StoreSlot(l.env, child)];
    WithinEmit(Reserve(l, k), ins, p);
    ReservedSlot(l, k, l1);
    var m1 := SimFetch(f, slot, isTuple, parent, v, l, p, m, |l.code|, ins);
    m' := StoreScratch(p, m, m1, |l.code|, ins, |ins| - 1, l.env, child);
    ScratchAgrees(l.env, st, m.mem, SlotAt(l.env, child), m1.stack.top, {});
  }

  // The starred rest.

  /** Copies tuple fields into the fresh list at `a`, from element `i` on. */
  lemma {:induction false} SimCopy(env: Env, slot: nat, from: nat, i: nat, n: nat, b: nat, a: nat, p: Program,
        m0: State, m: State, at: nat)
    returns (m': State)
    requires i <= n && CodeAt(p, at, CopyCode(env, slot, from, i, n)) && m.pc == at && Reaches(p, m0, m)
    requires SlotAt(env, slot) in m.mem.slots && m.mem.slots[SlotAt(env, slot)] == Ref(b)
    requires b < |m.mem.heap| && from + n <= |m.mem.heap[b]| && a != b
    requires m.stack.Push? && m.stack.top == Ref(a) && a < |m.mem.heap| && |m.mem.heap[a]| == n
    ensures Reaches(p, m0, m') && m'.pc == at + |CopyCode(env, slot, from, i, n)|
    ensures m'.stack == m.stack && m'.mem.slots == m.mem.slots
    ensures m'.mem.heap == m.mem.heap[a := m.mem.heap[a][..i] + m.mem.heap[b][from + i..from + n]]
    decreases n - i
  {
    hide Step, Run, Reaches, CodeAt, LoadSlot, SlotAt;
    if i == n {
      m' := m;
      assert m.mem.heap[a][..i] + m.mem.heap[b][from + i..from + n] == m.mem.heap[a];
    } else {
      CodeAtConcat(p, at, CopyOneCode(env, slot, from, i), CopyCode(env, slot, from, i + 1, n));
      var m1 := CopyOne(env, slot, from, i, b, a, p, m0, m, at);
      m' := SimCopy(env, slot, from, i + 1, n, b, a, p, m0, m1, at + 6);
      assert m1.mem.heap[a][..i + 1] + m.mem.heap[b][from + i + 1..from + n]
          == m.mem.heap[a][..i] + m.mem.heap[b][from + i..from + n];
    }
  }

  lemma CopyOne(env: Env, slot: nat, from: nat, i: nat, b: nat, a: nat, p: Program, m0: State, m: State, at: nat)
    returns (m': State)
    requires CodeAt(p, at, CopyOneCode(env, slot, from, i)) && m.pc == at && Reaches(p, m0, m)
    requires SlotAt(env, slot) in m.mem.slots && m.mem.slots[SlotAt(env, slot)] == Ref(b)
    requires b < |m.mem.heap| && from + i < |m.mem.heap[b]|
    requires m.stack.Push? && m.stack.top == Ref(a) && a < |m.mem.heap| && i < |m.mem.heap[a]|
    ensures Reaches(p, m0, m')
    ensures m' == State(at + 6, m.stack, m.mem.(heap := m.mem.heap[a := m.mem.heap[a][i := m.mem.heap[b][from + i]]]))
  {
    hide Step, Run, Reaches, CodeAt, LoadSlot, SlotAt;
    var target := [Dup, I32Const(i)];
    var copy := [LoadSlot(env, slot), I32Const(from + i), StructGet, ArraySet];
    CodeAtConcat(p, at, target, copy);
    var m1 := Next(p, m0, m, at, target, 0);
    var m2 := Next(p, m0, m1, at, target, 1);
    var m3 := LoadScratch(p, m0, m2, at + 2, copy, 0, env, slot);
    var m4 := Next(p, m0, m3, at + 2, copy, 1);
    var m5 := Next(p, m0, m4, at + 2, copy, 2);
    m' := Next(p, m0, m5, at + 2, copy, 3);
  }

  /** The elements of a sequence value between two positions, as a list cell. */
  lemma RepPart(h: Heap, h': Heap, w: Word, v: Value, lo: nat, hi: nat, a: nat)
    requires (v.VTuple? || v.VList?) && Rep(h, w, v, {}) && lo <= hi <= |v.elems|
    requires HeapKept(h, h', {}) && a < |h'| && h'[a] == h[w.a][lo..hi]
    ensures Rep(h', Ref(a), VList(v.elems[lo..hi]), {})
  {
    forall k | 0 <= k < hi - lo ensures Rep(h', h'[a][k], v.elems[lo..hi][k], {}) {
      RepKept(h, h', h[w.a][lo + k], v.elems[lo + k], {});
    }
  }

  /** The code of a starred rest pushes the list of the elements between. */
  lemma SimTupleRest(slot: nat, lo: nat, ts: seq<Type>, parent: Value, l: Low, p: Program, m: State, at: nat)
    returns (m': State)
    requires CodeAt(p, at, RestCode(l.env, slot, lo, ts)) && m.pc == at
    requires Carries(l, m.mem, slot, parent) && parent.VTuple? && lo + |ts| <= |parent.elems|
    ensures Reaches(p, m, m') && m'.pc == at + |RestCode(l.env, slot, lo, ts)|
    ensures m'.stack.Push? && m'.stack.below == m.stack
    ensures Rep(m'.mem.heap, m'.stack.top, VList(parent.elems[lo..lo + |ts|]), {})
    ensures m'.mem.slots == m.mem.slots && HeapKept(m.mem.heap, m'.mem.heap, {})
  {
    hide RawPool.Valid, Step, Run, Reaches, CodeAt, LoadSlot, SlotAt, Overwritable, CopyCode;
    var n, a := |ts|, |m.mem.heap|;
    var ins := [I32Const(n), ArrayNewDefault(if ts == [] then KindRef else KindOf(Some(ts[0])))];
    CodeAtConcat(p, at, ins, CopyCode(l.env, slot, lo, 0, n));
    ReachesSelf(p, m);
    var m1 := Next(p, m, m, at, ins, 0);
    var m2 := Next(p, m, m1, at, ins, 1);
    var b := m.mem.slots[SlotAt(l.env, slot)].a;
    assert m2.mem.heap[b] == m.mem.heap[b];
    m' := SimCopy(l.env, slot, lo, 0, n, b, a, p, m, m2, at + 2);
    assert m'.mem.heap[a] == m.mem.heap[b][lo..lo + n];
    RepPart(m.mem.heap, m'.mem.heap, m.mem.slots[SlotAt(l.env, slot)], parent, lo, lo + n, a);
  }

  lemma SimListRest(slot: nat, before: nat, after: nat, parent: Value, l: Low, p: Program, m: State, at: nat)
    returns (m': State)
    requires CodeAt(p, at, SliceCode(l.env, slot, before, after)) && m.pc == at
    requires Carries(l, m.mem, slot, parent) && parent.VList? && before + after <= |parent.elems|
    ensures |SliceCode(l.env, slot, before, after)| == 7
    ensures Reaches(p, m, m') && m'.pc == at + 7
    ensures m'.stack.Push? && m'.stack.below == m.stack
    ensures Rep(m'.mem.heap, m'.stack.top, VList(parent.elems[before..|parent.elems| - after]), {})
    ensures m'.mem.slots == m.mem.slots && HeapKept(m.mem.heap, m'.mem.heap, {})
  {
    hide RawPool.Valid, Step, Run, Reaches, CodeAt, LoadSlot, SlotAt, Overwritable;
    var s, n := SlotAt(l.env, slot), |parent.elems|;
    var a := m.mem.slots[s].a;
    assert |m.mem.heap[a]| == n;
    m' := RunSlice(slot, before, after, a, n, l, p, m, at);
    RepPart(m.mem.heap, m'.mem.heap, m.mem.slots[s], parent, before, n - after, |m.mem.heap|);
  }

  lemma RunSlice(slot: nat, before: nat, after: nat, a: nat, n: nat, l: Low, p: Program, m: State, at: nat)
    returns (m': State)
    requires CodeAt(p, at, SliceCode(l.env, slot, before, after)) && m.pc == at
    requires SlotAt(l.env, slot) in m.mem.slots && m.mem.slots[SlotAt(l.env, slot)] == Ref(a)
    requires a < |m.mem.heap| && |m.mem.heap[a]| == n && before + after <= n
    ensures Reaches(p, m, m')
    ensures m' == State(at + 7, Push(Ref(|m.mem.heap|), m.stack),
                        m.mem.(heap := m.mem.heap + [m.mem.heap[a][before..n - after]]))
  {
    hide RawPool.Valid, Step, Run, Reaches, CodeAt, LoadSlot, SlotAt;
    var lo := [LoadSlot(l.env, slot), I32Const(before)];
    var hi := [LoadSlot(l.env, slot), ArrayLen, I32Const(after), I32Sub];
    CodeAtConcat(p, at, lo + hi, [ArraySlice]);
    CodeAtConcat(p, at, lo, hi);
    ReachesSelf(p, m);
    var m1 := LoadScratch(p, m, m, at, lo, 0, l.env, slot);
    var m2 := Next(p, m, m1, at, lo, 1);
    var m3 := LoadScratch(p, m, m2, at + 2, hi, 0, l.env, slot);
    var m4 := Next(p, m, m3, at + 2, hi, 1);
    var m5 := Next(p, m, m4, at + 2, hi, 2);
    var m6 := Next(p, m, m5, at + 2, hi, 3);
    m' := Next(p, m, m6, at + 6, [ArraySlice], 0);
  }

  lemma HeapAgrees(env: Env, st: Store, mem: Memory, mem': Memory)
    requires Agrees(env, st, mem, {}) && mem'.slots == mem.slots && HeapKept(mem.heap, mem'.heap, {})
    ensures Agrees(env, st, mem', {})
  {
    forall x | x in st ensures Holds(env, mem', x, st[x], {}) {
      assert Holds(env, mem, x, st[x], {});
      RepKept(mem.heap, mem'.heap, mem.slots[NamedSlot(env, x)], st[x], {});
    }
  }

  /** The rest list on the stack is bound to the star's name. */
  lemma SimBindRest(x: string, v: Value, l: Low, p: Program, m0: State, m: State, m1: State, st: Store, at: nat)
    returns (m': State)
    requires ValidEnv(l.env) && CodeAt(p, at, StoreName(l.env, x)) && m1.pc == at && Reaches(p, m0, m1)
    requires Steady(l, m0.mem, m.mem) && Agrees(l.env, st, m.mem, {})
    requires m1.mem.slots == m.mem.slots && HeapKept(m.mem.heap, m1.mem.heap, {})
    requires x in l.env.types && HasType(v, l.env.types[x])
    requires m1.stack.Push? && Rep(m1.mem.heap, m1.stack.top, v, {})
    ensures |StoreName(l.env, x)| == 1 && Reaches(p, m0, m') && m'.pc == at + 1 && m'.stack == m1.stack.below
    ensures Agrees(l.env, st[x := v], m'.mem, {}) && Steady(l, m0.mem, m'.mem)
  {
    hide RawPool.Valid, Step, Run, Reaches, CodeAt, Agrees, Rep, Overwritable;
    HeapAgrees(l.env, st, m.mem, m1.mem);
    assert HasSlot(l.env, x);
    assert Steady(l, m0.mem, m1.mem);
    m' := SetName(p, m0, m1, at, StoreName(l.env, x), 0, l.env, x, st, v);
    NamedIsNamed(l.env, x);
    SteadyStore(l, NamedSlot(l.env, x), m0.mem, m1.mem, m1.stack.top);
  }

  /** The leading and the trailing elements of a sequence pattern. */
  lemma {:induction false} SimEnds(pt: Pattern, fb: seq<Fetch>, fa: seq<Fetch>, tb: seq<Type>, ta: seq<Type>,
                                   slot: nat, isTuple: bool, parent: Value, next: Label, l: Low, p: Program, m: State,
                                       st: Store)
    returns (m': State)
    requires pt.SeqPat? && (parent.VTuple? || parent.VList?) && |pt.before| + |pt.after| <= |parent.elems|
    requires ChildrenOk(l.env.types, pt.before, fb, tb, parent.elems[..|pt.before|], parent)
    requires ChildrenOk(l.env.types, pt.after, fa, ta, parent.elems[|parent.elems| - |pt.after|..], parent)
    requires SeqReady(l, CompEnds(pt, fb, fa, tb, ta, slot, isTuple, next, l), p, m, st, slot, parent, next)
    ensures Decides(l, CompEnds(pt, fb, fa, tb, ta, slot, isTuple, next, l), p, m, m',
      MatchEnds(pt, parent.elems, st), next)
    decreases pt, 3
  {
    hide RawPool.Valid, Step, Run, Reaches, CodeAt, Agrees, Within, Steady, Rep, Overwritable, Carries, Fetches,
         PatternOk, CompChildren, MatchAll;
    var n := |parent.elems| - |pt.after|;
    var l1 := CompChildren(pt.before, fb, tb, slot, isTuple, next, l);
    WithinBefore(l1, CompChildren(pt.after, fa, ta, slot, isTuple, next, l1), p);
    var m1 := SimChildren(pt.before, fb, tb, parent.elems[..|pt.before|], slot, isTuple, parent, next, l, p, m, st);
    var (ok, st1) := MatchAll(pt.before, parent.elems[..|pt.before|], st);
    if ok {
      CarriesOn(l, l1, m.mem, m1.mem, slot, parent);
      m' := SimChildren(pt.after, fa, ta, parent.elems[n..], slot, isTuple, parent, next, l1, p, m1, st1);
      ReachesTrans(p, m, m1, m');
      SteadyTrans(l, l1, m.mem, m1.mem, m'.mem);
    } else {
      m' := m1;
    }
  }

  lemma {:induction false} SimTuplePat(pt: Pattern, slot: nat, t: Type, next: Label, l: Low, p: Program, m: State,
        st: Store, v: Value)
    returns (m': State)
    requires pt.SeqPat? && t.TTuple?
    requires PatReady(l, CompPat(pt, slot, t, next, l), p, m, st, slot, v, t, next)
    requires PatternOk(l.env.types, pt, t)
    ensures Decides(l, CompPat(pt, slot, t, next, l), p, m, m', MatchPat(pt, v, st), next)
    decreases pt, 4
  {
    hide RawPool.Valid, Step, Run, Reaches, CodeAt, Agrees, Within, Steady, Rep, Overwritable, Carries, CompEnds,
         MatchEnds, RestCode, HasType, ChildrenOk, PatternOk;
    TupleChildren(l.env.types, pt, t, v);
    var b, a, ts := |pt.before|, |pt.after|, t.elems;
    var n := |ts| - a;
    var fb, fa := Fronts(0, b), Fronts(n, a);
    var l1 := CompEnds(pt, fb, fa, ts[..b], ts[n..], slot, true, next, l);
    var binds := pt.star.Some? && Binds(pt.star.value);
    var ins := RestCode(l.env, slot, b, ts[b..n]);
    if binds {
      WithinEmit(l1, ins + StoreName(l.env, pt.star.value), p);
      CodeAtConcat(p, |l1.code|, ins, StoreName(l.env, pt.star.value));
    }
    var m1 := SimEnds(pt, fb, fa, ts[..b], ts[n..], slot, true, v, next, l, p, m, st);
    var (ok, st1) := MatchEnds(pt, v.elems, st);
    if ok && binds {
      CarriesOn(l, l1, m.mem, m1.mem, slot, v);
      var m2 := SimTupleRest(slot, b, ts[b..n], v, l1, p, m1, |l1.code|);
      ReachesTrans(p, m, m1, m2);
      m' := SimBindRest(pt.star.value, VList(v.elems[b..n]), l, p, m, m1, m2, st1, |l1.code| + |ins|);
    } else {
      m' := m1;
    }
  }

  lemma {:induction false} SimListPat(pt: Pattern, slot: nat, t: Type, next: Label, l: Low, p: Program, m: State,
        st: Store, v: Value)
    returns (m': State)
    requires pt.SeqPat? && t.TList?
    requires PatReady(l, CompPat(pt, slot, t, next, l), p, m, st, slot, v, t, next)
    requires PatternOk(l.env.types, pt, t)
    ensures Decides(l, CompPat(pt, slot, t, next, l), p, m, m', MatchPat(pt, v, st), next)
    decreases pt, 4
  {
    hide RawPool.Valid, Step, Run, Reaches, CodeAt, Agrees, Within, Steady, Rep, Overwritable, Carries, CompEnds,
         MatchEnds, SliceCode, LengthGuardCode, ChildrenOk;
    var b, a := |pt.before|, |pt.after|;
    var guard := LengthGuardCode(l.env, slot, pt.star.None?, b + a, next);
    var fb, fa := Fronts(0, b), Backs(a);
    var tb, ta := Copies(t.elem, b), Copies(t.elem, a);
    var l1 := Emit(l, guard);
    var l2 := CompEnds(pt, fb, fa, tb, ta, slot, false, next, l1);
    var binds := pt.star.Some? && Binds(pt.star.value);
    var ins := SliceCode(l.env, slot, b, a);
    if binds {
      WithinEmit(l2, ins + StoreName(l.env, pt.star.value), p);
      CodeAtConcat(p, |l2.code|, ins, StoreName(l.env, pt.star.value));
    }
    WithinBefore(l1, l2, p);
    WithinEmit(l, guard, p);
    var m1 := SimLengthGuard(slot, pt, v, next, l, p, m);
    if Fits(pt.before, pt.star, pt.after, |v.elems|) {
      SteadySelf(l, m.mem);
      CarriesOn(l, l1, m.mem, m1.mem, slot, v);
      ListChildren(l.env.types, pt, t, v);
      var m2 := SimEnds(pt, fb, fa, tb, ta, slot, false, v, next, l1, p, m1, st);
      ReachesTrans(p, m, m1, m2);
      SteadyTrans(l, l1, m.mem, m1.mem, m2.mem);
      var (ok, st1) := MatchEnds(pt, v.elems, st);
      m' := m2;
      if ok && binds {
        assert Grows(l1, l2);
        CarriesOn(l1, l2, m1.mem, m2.mem, slot, v);
        var m3 := SimListRest(slot, b, a, v, l2, p, m2, |l2.code|);
        ReachesTrans(p, m, m2, m3);
        m' := SimBindRest(pt.star.value, VList(v.elems[b..|v.elems| - a]), l, p, m, m2, m3, st1, |l2.code| + |ins|);
      }
    } else {
      m' := m1;
      SteadySelf(l, m.mem);
    }
  }

  lemma TupleChildren(g: Types, pt: Pattern, t: Type, v: Value)
    requires pt.SeqPat? && t.TTuple? && PatternOk(g, pt, t) && HasType(v, t)
    ensures v.VTuple? && |v.elems| == |t.elems| && Fits(pt.before, pt.star, pt.after, |v.elems|)
    ensures
      var b, n := |pt.before|, |t.elems| - |pt.after|;
      && ChildrenOk(g, pt.before, Fronts(0, b), t.elems[..b], v.elems[..b], v)
      && ChildrenOk(g, pt.after, Fronts(n, |pt.after|), t.elems[n..], v.elems[n..], v)
      && (pt.star.Some? && Binds(pt.star.value) ==> DeclaredFor(g, pt.star.value, VList(v.elems[b..n])))
  {
    hide DeclaredFor;
    if pt.star.Some? && Binds(pt.star.value) {
      TupleRest(g, pt, t, v);
    }
  }

  lemma TupleRest(g: Types, pt: Pattern, t: Type, v: Value)
    requires pt.SeqPat? && t.TTuple? && PatternOk(g, pt, t) && HasType(v, t) && pt.star.Some? && Binds(pt.star.value)
    ensures DeclaredFor(g, pt.star.value, VList(v.elems[|pt.before|..|t.elems| - |pt.after|]))
  {
    var b, n := |pt.before|, |t.elems| - |pt.after|;
    var elem := g[pt.star.value].elem;
    forall k | 0 <= k < n - b ensures HasType(v.elems[b..n][k], elem) {
      assert t.elems[b..n][k] == elem && HasType(v.elems[b + k], t.elems[b + k]);
    }
  }

  /** `x` is declared with a type that `v` has. */
  ghost predicate DeclaredFor(g: Types, x: string, v: Value) {
    x in g && HasType(v, g[x])
  }

  lemma ListChildren(g: Types, pt: Pattern, t: Type, v: Value)
    requires pt.SeqPat? && t.TList? && PatternOk(g, pt, t) && HasType(v, t) && v.VList?
      && |pt.before| + |pt.after| <= |v.elems|
    ensures ChildrenOk(g, pt.before, Fronts(0, |pt.before|), Copies(t.elem, |pt.before|), v.elems[..|pt.before|], v)
    ensures ChildrenOk(g, pt.after, Backs(|pt.after|), Copies(t.elem, |pt.after|), v.elems[|v.elems| - |pt.after|..], v)
    ensures pt.star.Some? && Binds(pt.star.value) ==>
              DeclaredFor(g, pt.star.value, VList(v.elems[|pt.before|..|v.elems| - |pt.after|]))
  {
    assert HasType(VList(v.elems[|pt.before|..|v.elems| - |pt.after|]), t);
    var a, n := |pt.after|, |v.elems|;
    forall j | 0 <= j < a
      ensures Fetches(Backs(a)[j], v, v.elems[n - a..][j]) && HasType(v.elems[n - a..][j], Copies(t.elem, a)[j])
    {
      assert v.elems[n - a..][j] == v.elems[n - a + j];
    }
  }

  /** The length test of a list pattern passes exactly when the pattern fits. */
  lemma SimLengthGuard(slot: nat, pt: Pattern, v: Value, next: Label, l: Low, p: Program, m: State) returns (m': State)
    requires pt.SeqPat? && v.VList? && p.Bound(next) && m.pc == |l.code| && (pt.star.None? ==> pt.after == [])
    requires Carries(l, m.mem, slot, v)
    requires CodeAt(p, |l.code|, LengthGuardCode(l.env, slot, pt.star.None?, |pt.before| + |pt.after|, next))
    ensures Reaches(p, m, m') && m'.stack == m.stack && m'.mem == m.mem
    ensures m'.pc == if Fits(pt.before, pt.star, pt.after, |v.elems|)
                     then |l.code| + |LengthGuardCode(l.env, slot, pt.star.None?, |pt.before| + |pt.after|, next)|
                     else p.labels[next].value
  {
    hide RawPool.Valid, Step, Run, Reaches, CodeAt, LoadSlot, SlotAt, Overwritable;
    var n := |pt.before| + |pt.after|;
    var ins, at := LengthGuardCode(l.env, slot, pt.star.None?, n, next), |l.code|;
    ReachesSelf(p, m);
    var m1 := LoadScratch(p, m, m, at, ins, 0, l.env, slot);
    var m2 := Next(p, m, m1, at, ins, 1);
    var m3 := Next(p, m, m2, at, ins, 2);
    var m4 := Next(p, m, m3, at, ins, 3);
    if pt.star.None? {
      var m5 := Next(p, m, m4, at, ins, 4);
      m' := Branch(p, m, m5, at, ins, 5, |v.elems| != n);
    } else {
      m' := Branch(p, m, m4, at, ins, 4, |v.elems| < n);
    }
  }
}

/** How machine states stand for source stores, and the steps a run is built
    from. */
module Correspondence {
  import opened Wrappers
  import opened Syntax
  import opened Typing
  import opened Machine
  import opened ScratchPool
  import opened Lowering
  import opened Semantics

  // Slots.

  /** The frame's names have distinct slots in their own regions, and every
      declared name has one. */
  ghost predicate ValidEnv(env: Env) {
    && (forall x :: x in env.locals ==> env.locals[x] < env.base)
    && (forall x :: x in env.globals ==> env.globals[x] < env.names)
    && (forall x, y :: x in env.locals && y in env.locals && x != y ==> env.locals[x] != env.locals[y])
    && (forall x, y :: x in env.globals && y in env.globals && x != y ==> env.globals[x] != env.globals[y])
    && (forall x :: x in env.types ==> HasSlot(env, x))
  }

  predicate HasSlot(env: Env, x: string) {
    x in env.locals || x in env.globals
  }

  function SlotAt(env: Env, id: nat): Slot {
    if id >= env.names then Local(id - env.names) else Global(id)
  }

  function NamedSlot(env: Env, x: string): Slot
    requires HasSlot(env, x)
  {
    if x in env.locals then Local(env.locals[x]) else SlotAt(env, env.globals[x])
  }

  /** Distinct names have distinct slots, and none of them is a scratch slot. */
  lemma NamedSlotsApart(env: Env, x: string, y: string, idx: nat)
    requires ValidEnv(env) && HasSlot(env, x) && HasSlot(env, y)
    ensures x != y ==> NamedSlot(env, x) != NamedSlot(env, y)
    ensures NamedSlot(env, x) != SlotAt(env, ScratchId(env, idx))
  {
  }

  /** A slot a construct lowered from state `l` may overwrite: scratch that is
      not live. */
  predicate Overwritable(l: Low, s: Slot) {
    s.Local? && s.i >= l.env.base && (s.i - l.env.base) !in l.pool.live
  }

  predicate IsNamed(env: Env, s: Slot) {
    s.Global? || s.i < env.base
  }

  // Values.

  /** Word `w` stands for `v` in heap `h`, through cells outside `bad`. */
  ghost predicate Rep(h: Heap, w: Word, v: Value, bad: set<nat>)
    decreases v
  {
    match v
    case VInt(i) => w == I64(i)
    case VBool(b) => w == I1(b)
    case VTuple(es) => RepCell(h, w, |es|, bad) && forall k :: 0 <= k < |es| ==> Rep(h, h[w.a][k], es[k], bad)
    case VList(es) => RepCell(h, w, |es|, bad) && forall k :: 0 <= k < |es| ==> Rep(h, h[w.a][k], es[k], bad)
  }

  predicate RepCell(h: Heap, w: Word, n: nat, bad: set<nat>) {
    w.Ref? && w.a < |h| && w.a !in bad && |h[w.a]| == n
  }

  /** `h'` only adds cells to `h`, or changes cells in `touched`. */
  ghost predicate HeapKept(h: Heap, h': Heap, touched: set<nat>) {
    |h| <= |h'| && forall a: nat :: a < |h| && a !in touched ==> h'[a] == h[a]
  }

  lemma {:induction false} RepKept(h: Heap, h': Heap, w: Word, v: Value, bad: set<nat>)
    requires Rep(h, w, v, bad) && HeapKept(h, h', bad)
    ensures Rep(h', w, v, bad)
    decreases v
  {
    if v.VTuple? || v.VList? {
      forall k | 0 <= k < |v.elems| ensures Rep(h', h'[w.a][k], v.elems[k], bad) {
        RepKept(h, h', h[w.a][k], v.elems[k], bad);
      }
    }
  }

  /** A value does not reach a cell that is not allocated yet. */
  lemma {:induction false} RepFresh(h: Heap, w: Word, v: Value, bad: set<nat>, a: nat)
    requires Rep(h, w, v, bad) && a >= |h|
    ensures Rep(h, w, v, bad + {a})
    decreases v
  {
    if v.VTuple? || v.VList? {
      forall k | 0 <= k < |v.elems| ensures Rep(h, h[w.a][k], v.elems[k], bad + {a}) {
        RepFresh(h, h[w.a][k], v.elems[k], bad, a);
      }
    }
  }

  lemma {:induction false} RepWeaken(h: Heap, w: Word, v: Value, bad: set<nat>, less: set<nat>)
    requires Rep(h, w, v, bad) && less <= bad
    ensures Rep(h, w, v, less)
    decreases v
  {
    if v.VTuple? || v.VList? {
      forall k | 0 <= k < |v.elems| ensures Rep(h, h[w.a][k], v.elems[k], less) {
        RepWeaken(h, h[w.a][k], v.elems[k], bad, less);
      }
    }
  }

  // Stores.

  ghost predicate Holds(env: Env, mem: Memory, x: string, v: Value, bad: set<nat>) {
    && HasSlot(env, x)
    && x in env.types && HasType(v, env.types[x])
    && NamedSlot(env, x) in mem.slots
    && Rep(mem.heap, mem.slots[NamedSlot(env, x)], v, bad)
  }

  /** Every variable's slot holds its well-typed value. */
  ghost predicate Agrees(env: Env, st: Store, mem: Memory, bad: set<nat>) {
    && (forall a :: a in bad ==> a < |mem.heap|)
    && forall x :: x in st ==> Holds(env, mem, x, st[x], bad)
  }

  /** From `mem` to `mem'` only overwritable scratch and `touched` cells changed. */
  ghost predicate Quiet(l: Low, mem: Memory, mem': Memory, touched: set<nat>) {
    && HeapKept(mem.heap, mem'.heap, touched)
    && forall s :: s in mem.slots && !Overwritable(l, s) ==> s in mem'.slots && mem'.slots[s] == mem.slots[s]
  }

  lemma QuietSelf(l: Low, mem: Memory, touched: set<nat>)
    ensures Quiet(l, mem, mem, touched)
  {
  }

  lemma QuietTrans(l: Low, l1: Low, mem: Memory, mem1: Memory, mem2: Memory, touched: set<nat>)
    requires Grows(l, l1)
    requires Quiet(l, mem, mem1, touched) && Quiet(l1, mem1, mem2, touched)
    ensures Quiet(l, mem, mem2, touched)
  {
    forall s | s in mem.slots && !Overwritable(l, s) ensures s in mem2.slots && mem2.slots[s] == mem.slots[s] {
      assert !Overwritable(l1, s);
    }
  }

  lemma QuietAgrees(l: Low, mem: Memory, mem': Memory, st: Store, bad: set<nat>, touched: set<nat>)
    requires ValidEnv(l.env) && Agrees(l.env, st, mem, bad) && Quiet(l, mem, mem', touched) && touched <= bad
    ensures Agrees(l.env, st, mem', bad)
  {
    forall x | x in st ensures Holds(l.env, mem', x, st[x], bad) {
      assert Holds(l.env, mem, x, st[x], bad);
      assert !Overwritable(l, NamedSlot(l.env, x));
      RepKept(mem.heap, mem'.heap, mem.slots[NamedSlot(l.env, x)], st[x], bad);
    }
  }

  /** A slot the construct may overwrite was overwritten. */
  lemma QuietStore(l: Low, s: Slot, mem: Memory, mem': Memory, w: Word, touched: set<nat>)
    requires Quiet(l, mem, mem', touched) && Overwritable(l, s)
    ensures Quiet(l, mem, mem'.(slots := mem'.slots[s := w]), touched)
  {
  }

  /** The slot `Reserve` hands out may be overwritten, and may not be any more
      by what is lowered after it. */
  lemma ReservedSlot(l: Low, k: Kind, r: Low)
    requires Grows(Reserve(l, k), r)
    ensures Overwritable(l, SlotAt(l.env, Reserved(l, k)))
    ensures !Overwritable(r, SlotAt(l.env, Reserved(l, k)))
  {
    assert Reserve(l, k).pool.live[|l.pool.live|] == TmpIndex(l.pool, k);
    assert r.pool.live[|l.pool.live|] == TmpIndex(l.pool, k);
  }

  lemma OverwritableBefore(l: Low, r: Low, s: Slot)
    requires Grows(l, r) && Overwritable(r, s)
    ensures Overwritable(l, s)
  {
  }

  /** From `mem` to `mem'` cells were only added, and of the slots only named
      ones and overwritable scratch changed: every live scratch slot is kept. */
  ghost predicate Steady(l: Low, mem: Memory, mem': Memory) {
    && HeapKept(mem.heap, mem'.heap, {})
    && forall s :: s in mem.slots && !Overwritable(l, s) && !IsNamed(l.env, s) ==>
        s in mem'.slots && mem'.slots[s] == mem.slots[s]
  }

  lemma SteadySelf(l: Low, mem: Memory)
    ensures Steady(l, mem, mem)
  {
  }

  lemma QuietSteady(l: Low, mem: Memory, mem': Memory)
    requires Quiet(l, mem, mem', {})
    ensures Steady(l, mem, mem')
  {
  }

  lemma SteadyTrans(l: Low, l1: Low, mem: Memory, mem1: Memory, mem2: Memory)
    requires Grows(l, l1) && Steady(l, mem, mem1) && Steady(l1, mem1, mem2)
    ensures Steady(l, mem, mem2)
  {
    hide Overwritable, IsNamed;
    KeptTrans(mem.heap, mem1.heap, mem2.heap);
    forall s | s in mem.slots && !Overwritable(l, s) && !IsNamed(l.env, s)
      ensures s in mem2.slots && mem2.slots[s] == mem.slots[s]
    {
      SameEnv(l, l1);
      if Overwritable(l1, s) {
        OverwritableBefore(l, l1, s);
      }
    }
  }

  lemma SameEnv(l: Low, l1: Low)
    requires Grows(l, l1)
    ensures l1.env == l.env
  {
  }

  lemma KeptTrans(heap: Heap, heap1: Heap, heap2: Heap)
    requires HeapKept(heap, heap1, {}) && HeapKept(heap1, heap2, {})
    ensures HeapKept(heap, heap2, {})
  {
  }

  lemma SteadyStore(l: Low, s: Slot, mem: Memory, mem': Memory, w: Word)
    requires Steady(l, mem, mem') && (Overwritable(l, s) || IsNamed(l.env, s))
    ensures Steady(l, mem, mem'.(slots := mem'.slots[s := w]))
  {
  }

  /** Writing a scratch slot changes no variable. */
  lemma ScratchAgrees(env: Env, st: Store, mem: Memory, s: Slot, w: Word, bad: set<nat>)
    requires ValidEnv(env) && Agrees(env, st, mem, bad) && !IsNamed(env, s)
    ensures Agrees(env, st, mem.(slots := mem.slots[s := w]), bad)
  {
    var mem' := mem.(slots := mem.slots[s := w]);
    forall x | x in st ensures Holds(env, mem', x, st[x], bad) {
      assert Holds(env, mem, x, st[x], bad);
    }
  }

  /** Writing a variable's slot assigns the variable. */
  lemma SetAgrees(env: Env, st: Store, mem: Memory, x: string, v: Value, w: Word)
    requires ValidEnv(env) && Agrees(env, st, mem, {})
    requires x in env.types && HasType(v, env.types[x]) && Rep(mem.heap, w, v, {})
    ensures HasSlot(env, x) && Agrees(env, st[x := v], mem.(slots := mem.slots[NamedSlot(env, x) := w]), {})
  {
    var mem' := mem.(slots := mem.slots[NamedSlot(env, x) := w]);
    var st' := st[x := v];
    forall y | y in st' ensures Holds(env, mem', y, st'[y], {}) {
      if y != x {
        assert Holds(env, mem, y, st[y], {});
        NamedSlotsApart(env, x, y, 0);
      }
    }
  }

  // Programs.

  /** The finished program contains the code emitted up to `l` and gives its
      bound labels their positions. */
  ghost predicate Within(l: Low, p: Program) {
    && l.code <= p.code
    && forall x :: 0 <= x < |l.labels| && l.labels[x].Some? ==> x < |p.labels| && p.labels[x] == l.labels[x]
  }

  lemma WithinBefore(l: Low, r: Low, p: Program)
    requires Grows(l, r) && Within(r, p)
    ensures Within(l, p)
  {
  }

  lemma WithinBind(l: Low, x: Label, p: Program)
    requires x < l.Next() && l.labels[x].None? && Within(Bind(l, x), p)
    ensures Within(l, p)
    ensures p.Bound(x) && p.labels[x].value == |l.code|
  {
    var r := Bind(l, x);
    assert r.labels[x].Some?;
    forall y | 0 <= y < |l.labels| && l.labels[y].Some? ensures y < |p.labels| && p.labels[y] == l.labels[y] {
      assert r.labels[y].Some?;
    }
  }

  /** The instructions `ins` sit in the program from position `at` on. */
  ghost predicate CodeAt(p: Program, at: nat, ins: seq<Instr>) {
    at + |ins| <= |p.code| && forall k :: 0 <= k < |ins| ==> p.code[at + k] == ins[k]
  }

  lemma CodeAtConcat(p: Program, at: nat, a: seq<Instr>, b: seq<Instr>)
    requires CodeAt(p, at, a + b)
    ensures CodeAt(p, at, a) && CodeAt(p, at + |a|, b)
  {
    forall k | 0 <= k < |a| ensures p.code[at + k] == a[k] {
      assert (a + b)[k] == a[k];
    }
    forall k | 0 <= k < |b| ensures p.code[at + |a| + k] == b[k] {
      assert (a + b)[|a| + k] == b[k];
    }
  }

  lemma WithinEmit(l: Low, ins: seq<Instr>, p: Program)
    requires Within(Emit(l, ins), p)
    ensures Within(l, p) && CodeAt(p, |l.code|, ins)
  {
    var r := Emit(l, ins);
    forall k | 0 <= k < |ins| ensures p.code[|l.code| + k] == ins[k] {
      assert r.code[|l.code| + k] == ins[k];
    }
  }

  lemma WithinReserve(l: Low, k: Kind, p: Program)
    requires Within(Reserve(l, k), p)
    ensures Within(l, p)
  {
  }

  lemma WithinLabels(l: Low, n: nat, p: Program)
    requires Within(Labels(l, n), p)
    ensures Within(l, p)
  {
    assert Labels(l, n).labels[..|l.labels|] == l.labels;
  }

  // Steps of a run from `m0`: the next one is instruction `k` of `ins`, which
  // sit at `at`.

  ghost predicate AtInstr(p: Program, m0: State, m: State, at: nat, ins: seq<Instr>, k: nat) {
    && Reaches(p, m0, m)
    && CodeAt(p, at, ins)
    && k < |ins|
    && m.pc == at + k
  }

  /** One straight-line instruction more. */
  lemma Next(p: Program, m0: State, m: State, at: nat, ins: seq<Instr>, k: nat) returns (m1: State)
    requires AtInstr(p, m0, m, at, ins, k)
    requires !ins[k].Br? && !ins[k].BrIf? && Compute(ins[k], m).Some?
    ensures m1 == Compute(ins[k], m).value.(pc := m.pc + 1)
    ensures Reaches(p, m0, m1)
  {
    m1 := Compute(ins[k], m).value.(pc := m.pc + 1);
    Extend(p, m0, m, m1);
  }

  lemma Extend(p: Program, m0: State, m: State, m1: State)
    requires Reaches(p, m0, m) && Step(p, m) == Some(m1)
    ensures Reaches(p, m0, m1)
  {
    assert Run(p, m1, 0) == Some(m1);
    assert Run(p, m, 1) == Some(m1);
    ReachesTrans(p, m0, m, m1);
  }

  lemma Jump(p: Program, m0: State, m: State, at: nat, ins: seq<Instr>, k: nat) returns (m1: State)
    requires AtInstr(p, m0, m, at, ins, k)
    requires ins[k].Br? && p.Bound(ins[k].l)
    ensures m1 == m.(pc := p.labels[ins[k].l].value)
    ensures Reaches(p, m0, m1)
  {
    m1 := m.(pc := p.labels[ins[k].l].value);
    Extend(p, m0, m, m1);
  }

  lemma Branch(p: Program, m0: State, m: State, at: nat, ins: seq<Instr>, k: nat, taken: bool) returns (m1: State)
    requires AtInstr(p, m0, m, at, ins, k)
    requires ins[k].BrIf? && (taken ==> p.Bound(ins[k].l))
    requires m.stack.Push? && m.stack.top == I1(taken)
    ensures m1 == m.(pc := if taken then p.labels[ins[k].l].value else m.pc + 1, stack := m.stack.below)
    ensures Reaches(p, m0, m1)
  {
    m1 := m.(pc := if taken then p.labels[ins[k].l].value else m.pc + 1, stack := m.stack.below);
    Extend(p, m0, m, m1);
  }

  lemma LoadScratch(p: Program, m0: State, m: State, at: nat, ins: seq<Instr>, k: nat, env: Env, id: nat)
    returns (m1: State)
    requires AtInstr(p, m0, m, at, ins, k)
    requires ins[k] == LoadSlot(env, id) && SlotAt(env, id) in m.mem.slots
    ensures m1 == m.(pc := m.pc + 1, stack := Push(m.mem.slots[SlotAt(env, id)], m.stack))
    ensures Reaches(p, m0, m1)
  {
    m1 := Next(p, m0, m, at, ins, k);
  }

  lemma StoreScratch(p: Program, m0: State, m: State, at: nat, ins: seq<Instr>, k: nat, env: Env, id: nat)
    returns (m1: State)
    requires AtInstr(p, m0, m, at, ins, k)
    requires ins[k] == StoreSlot(env, id) && m.stack.Push?
    ensures m1 == m.(pc := m.pc + 1, stack := m.stack.below,
                     mem := m.mem.(slots := m.mem.slots[SlotAt(env, id) := m.stack.top]))
    ensures Reaches(p, m0, m1)
  {
    m1 := Next(p, m0, m, at, ins, k);
  }

  /** Storing the top of the stack in a variable. */
  lemma SetName(p: Program, m0: State, m: State, at: nat, ins: seq<Instr>, k: nat, env: Env, x: string, st: Store,
        v: Value) returns (m': State)
    requires Reaches(p, m0, m) && CodeAt(p, at, ins) && m.pc == at + k
    requires k < |ins| && [ins[k]] == StoreName(env, x)
    requires ValidEnv(env) && Agrees(env, st, m.mem, {})
    requires x in env.types && HasType(v, env.types[x])
    requires m.stack.Push? && Rep(m.mem.heap, m.stack.top, v, {})
    ensures Reaches(p, m0, m') && m'.pc == m.pc + 1 && m'.stack == m.stack.below
    ensures Agrees(env, st[x := v], m'.mem, {})
    ensures HasSlot(env, x) && m'.mem == m.mem.(slots := m.mem.slots[NamedSlot(env, x) := m.stack.top])
  {
    hide Step, Run, Reaches, CodeAt, Agrees, Rep;
    SetAgrees(env, st, m.mem, x, v, m.stack.top);
    assert StoreName(env, x)[0] == ins[k];
    m' := Next(p, m0, m, at, ins, k);
  }
}

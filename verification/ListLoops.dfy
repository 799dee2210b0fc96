/** The index-updating loops emitted for list.insert, list.extend and
    list.reverse (compiler/lower_expr.go), and what running them does to the
    array in place. */
module ListLoops {
  import opened Syntax
  import opened Machine
  import Semantics
  import opened ScratchPool
  import opened Lowering
  import opened Correspondence

  // The emitted code.

  datatype InsertFrame = InsertFrame(value: nat, idx: nat, list: nat, len: nat, i: nat,
                                     neg: Label, clampLow: Label, clampHigh: Label, grow: Label, top: Label,
                                         done: Label)

  function InsertEntry(e: Env, f: InsertFrame): seq<Instr> {
    [StoreSlot(e, f.value), StoreSlot(e, f.idx), StoreSlot(e, f.list),
     LoadSlot(e, f.list), ArrayLen, I32ToI64, StoreSlot(e, f.len)]
  }

  function InsertSign(e: Env, f: InsertFrame): seq<Instr> {
    [LoadSlot(e, f.idx), I64Const(0), I64Cmp(Lt), BrIf(f.neg), Br(f.clampLow)]
  }

  function InsertNegative(e: Env, f: InsertFrame): seq<Instr> {
    [LoadSlot(e, f.idx), LoadSlot(e, f.len), I64Bin(I64Add), StoreSlot(e, f.idx)]
  }

  function InsertLow(e: Env, f: InsertFrame): seq<Instr> {
    [LoadSlot(e, f.idx), I64Const(0), I64Cmp(Lt), I32Eqz, BrIf(f.clampHigh), I64Const(0), StoreSlot(e, f.idx)]
  }

  function InsertHigh(e: Env, f: InsertFrame): seq<Instr> {
    [LoadSlot(e, f.idx), LoadSlot(e, f.len), I64Cmp(Gt), I32Eqz, BrIf(f.grow), LoadSlot(e, f.len), StoreSlot(e, f.idx)]
  }

  function InsertGrow(e: Env, f: InsertFrame): seq<Instr> {
    [LoadSlot(e, f.list), LoadSlot(e, f.value), I32Const(1), ArrayAppend, Drop, LoadSlot(e, f.len), StoreSlot(e, f.i)]
  }

  function InsertTop(e: Env, f: InsertFrame): seq<Instr> {
    [LoadSlot(e, f.i), LoadSlot(e, f.idx), I64Cmp(Gt), I32Eqz, BrIf(f.done)]
  }

  function InsertShift(e: Env, f: InsertFrame): seq<Instr> {
    InsertTo(e, f) + InsertFrom(e, f) + [ArraySet]
  }

  function InsertTo(e: Env, f: InsertFrame): seq<Instr> {
    [LoadSlot(e, f.list), LoadSlot(e, f.i), I64ToI32]
  }

  function InsertFrom(e: Env, f: InsertFrame): (r: seq<Instr>)
    ensures |r| == 6
  {
    [LoadSlot(e, f.list), LoadSlot(e, f.i), I64Const(1), I64Bin(I64Sub), I64ToI32, ArrayGet]
  }

  function InsertNext(e: Env, f: InsertFrame): seq<Instr> {
    [LoadSlot(e, f.i), I64Const(1), I64Bin(I64Sub), StoreSlot(e, f.i), Br(f.top)]
  }

  function InsertDone(e: Env, f: InsertFrame): seq<Instr> {
    [LoadSlot(e, f.list), LoadSlot(e, f.idx), I64ToI32, LoadSlot(e, f.value), ArraySet]
  }

  /** The slots are reserved in the order value, index, list, length, counter. */
  function InsertSlots(l: Low): Low {
    Reserve(Reserve(Reserve(Reserve(Reserve(l, KindRef), KindI64), KindRef), KindI64), KindI64)
  }

  function InsertFrameAt(l: Low): InsertFrame {
    var l1 := Reserve(l, KindRef);
    var l2 := Reserve(l1, KindI64);
    var l3 := Reserve(l2, KindRef);
    var l4 := Reserve(l3, KindI64);
    var n := l.Next();
    InsertFrame(Reserved(l, KindRef), Reserved(l1, KindI64), Reserved(l2, KindRef), Reserved(l3, KindI64),
        Reserved(l4, KindI64),
                n, n + 1, n + 2, n + 3, n + 4, n + 5)
  }

  function CompListInsert(l: Low): Low {
    var e, f := l.env, InsertFrameAt(l);
    var l1 := Emit(InsertSlots(l), InsertEntry(e, f));
    var l2 := Bind(Emit(Labels(l1, 4), InsertSign(e, f)), f.neg);
    var l3 := Bind(Emit(l2, InsertNegative(e, f)), f.clampLow);
    var l4 := Bind(Emit(l3, InsertLow(e, f)), f.clampHigh);
    var l5 := Bind(Emit(l4, InsertHigh(e, f)), f.grow);
    var l6 := Bind(Labels(Emit(l5, InsertGrow(e, f)), 2), f.top);
    var l7 := Emit(Emit(Emit(l6, InsertTop(e, f)), InsertShift(e, f)), InsertNext(e, f));
    Emit(Bind(l7, f.done), InsertDone(e, f))
  }

  // What it computes.

  /** Python's insertion point: negative counts from the end, then clamped. */
  function InsertionPoint(k: int, n: nat): (j: nat)
    ensures j <= n
  {
    var j := if k < 0 then k + n else k;
    if j < 0 then 0 else if j > n then n else j
  }

  function Inserted(xs: seq<Word>, k: int, v: Word): seq<Word> {
    var j := InsertionPoint(k, |xs|);
    xs[..j] + [v] + xs[j..]
  }

  predicate At(p: Program, x: Label, pos: nat) {
    p.Bound(x) && p.labels[x].value == pos
  }

  ghost predicate InsertLayout(p: Program, e: Env, f: InsertFrame, at: nat) {
    && CodeAt(p, at, InsertEntry(e, f)) && CodeAt(p, at + 7, InsertSign(e, f))
    && At(p, f.neg, at + 12) && CodeAt(p, at + 12, InsertNegative(e, f))
    && At(p, f.clampLow, at + 16) && CodeAt(p, at + 16, InsertLow(e, f))
    && At(p, f.clampHigh, at + 23) && CodeAt(p, at + 23, InsertHigh(e, f))
    && At(p, f.grow, at + 30) && CodeAt(p, at + 30, InsertGrow(e, f))
    && At(p, f.top, at + 37) && CodeAt(p, at + 37, InsertTop(e, f))
    && CodeAt(p, at + 42, InsertShift(e, f)) && CodeAt(p, at + 52, InsertNext(e, f))
    && At(p, f.done, at + 57) && CodeAt(p, at + 57, InsertDone(e, f))
  }

  lemma InsertPlaced(l: Low, p: Program)
    requires Within(CompListInsert(l), p)
    ensures InsertLayout(p, l.env, InsertFrameAt(l), |l.code|) && |CompListInsert(l).code| == |l.code| + 62
  {
    hide RawPool.Valid, CodeAt, Within, Reserve, Reserved, LoadSlot, StoreSlot;
    var e, f := l.env, InsertFrameAt(l);
    var l0 := InsertSlots(l);
    ReservesOnly(l);
    var l1 := Emit(l0, InsertEntry(e, f));
    var l2 := Emit(Labels(l1, 4), InsertSign(e, f));
    var l3 := Emit(Bind(l2, f.neg), InsertNegative(e, f));
    var l4 := Emit(Bind(l3, f.clampLow), InsertLow(e, f));
    var l5 := Emit(Bind(l4, f.clampHigh), InsertHigh(e, f));
    var l6 := Labels(Emit(Bind(l5, f.grow), InsertGrow(e, f)), 2);
    var l7 := Emit(Bind(l6, f.top), InsertTop(e, f));
    var l8 := Emit(l7, InsertShift(e, f));
    var l9 := Emit(l8, InsertNext(e, f));
    WithinEmit(Bind(l9, f.done), InsertDone(e, f), p);
    WithinBind(l9, f.done, p);
    WithinEmit(l8, InsertNext(e, f), p);
    WithinEmit(l7, InsertShift(e, f), p);
    WithinEmit(Bind(l6, f.top), InsertTop(e, f), p);
    WithinBind(l6, f.top, p);
    WithinLabels(Emit(Bind(l5, f.grow), InsertGrow(e, f)), 2, p);
    WithinEmit(Bind(l5, f.grow), InsertGrow(e, f), p);
    WithinBind(l5, f.grow, p);
    WithinEmit(Bind(l4, f.clampHigh), InsertHigh(e, f), p);
    WithinBind(l4, f.clampHigh, p);
    WithinEmit(Bind(l3, f.clampLow), InsertLow(e, f), p);
    WithinBind(l3, f.clampLow, p);
    WithinEmit(Bind(l2, f.neg), InsertNegative(e, f), p);
    WithinBind(l2, f.neg, p);
    WithinEmit(Labels(l1, 4), InsertSign(e, f), p);
    WithinLabels(l1, 4, p);
    WithinEmit(l0, InsertEntry(e, f), p);
  }

  lemma ReservesOnly(l: Low)
    ensures var r := InsertSlots(l); r.code == l.code && r.labels == l.labels && r.env == l.env
  {
  }

  // Running it.

  predicate SlotIs(e: Env, mem: Memory, id: nat, w: Word) {
    SlotAt(e, id) in mem.slots && mem.slots[SlotAt(e, id)] == w
  }

  /** The memory with one slot written. */
  function Put(e: Env, mem: Memory, id: nat, w: Word): Memory {
    mem.(slots := mem.slots[SlotAt(e, id) := w])
  }

  predicate Apart(e: Env, ids: seq<nat>) {
    forall i, j :: 0 <= i < j < |ids| ==> SlotAt(e, ids[i]) != SlotAt(e, ids[j])
  }

  predicate InsertApart(e: Env, f: InsertFrame) {
    Apart(e, [f.value, f.idx, f.list, f.len, f.i])
  }

  predicate InsertHolds(e: Env, f: InsertFrame, mem: Memory, a: nat, k: int, n: nat, v: Word) {
    SlotIs(e, mem, f.value, v) && SlotIs(e, mem, f.idx, I64(k)) && SlotIs(e, mem, f.list, Ref(a))
        && SlotIs(e, mem, f.len, I64(n))
  }

  /** Only the frame's own slots and array `a` changed. */
  ghost predicate Touches(e: Env, ids: seq<nat>, a: nat, mem: Memory, mem': Memory) {
    && HeapKept(mem.heap, mem'.heap, {a})
    && |mem'.heap| == |mem.heap|
    && forall s :: s in mem.slots && (forall i :: 0 <= i < |ids| ==> s != SlotAt(e, ids[i])) ==>
        s in mem'.slots && mem'.slots[s] == mem.slots[s]
  }

  lemma TouchesTrans(e: Env, ids: seq<nat>, a: nat, mem: Memory, mem1: Memory, mem2: Memory)
    requires Touches(e, ids, a, mem, mem1) && Touches(e, ids, a, mem1, mem2)
    ensures Touches(e, ids, a, mem, mem2)
  {
  }

  // Steps on 64-bit operands and on arrays.

  lemma DoConst(p: Program, m0: State, m: State, at: nat, ins: seq<Instr>, k: nat, c: int) returns (m': State)
    requires AtInstr(p, m0, m, at, ins, k) && ins[k] == I64Const(c)
    ensures Reaches(p, m0, m') && m' == m.(pc := m.pc + 1, stack := Push(I64(c), m.stack))
  {
    m' := Next(p, m0, m, at, ins, k);
  }

  /** A counter moves by one. */
  lemma DoBin(p: Program, m0: State, m: State, at: nat, ins: seq<Instr>, k: nat, op: I64Op, a: int, b: int,
        below: Stack) returns (m': State)
    requires AtInstr(p, m0, m, at, ins, k) && ins[k] == I64Bin(op) && (op.I64Add? || op.I64Sub?)
    requires m.stack == Push(I64(b), Push(I64(a), below))
    ensures Reaches(p, m0, m')
      && m' == m.(pc := m.pc + 1, stack := Push(I64(if op.I64Add? then a + b else a - b), below))
  {
    m' := Next(p, m0, m, at, ins, k);
  }

  lemma DoToI32(p: Program, m0: State, m: State, at: nat, ins: seq<Instr>, k: nat, a: int, below: Stack)
    returns (m': State)
    requires AtInstr(p, m0, m, at, ins, k) && ins[k] == I64ToI32 && m.stack == Push(I64(a), below)
    ensures Reaches(p, m0, m') && m' == m.(pc := m.pc + 1, stack := Push(I32(a), below))
  {
    m' := Next(p, m0, m, at, ins, k);
  }

  /** Pushes the length of array `a` as a 64-bit integer, in two instructions. */
  lemma DoLen(p: Program, m0: State, m: State, at: nat, ins: seq<Instr>, k: nat, a: nat, below: Stack)
    returns (m': State)
    requires AtInstr(p, m0, m, at, ins, k) && k + 1 < |ins| && ins[k] == ArrayLen && ins[k + 1] == I32ToI64
    requires m.stack == Push(Ref(a), below) && a < |m.mem.heap|
    ensures Reaches(p, m0, m') && m' == m.(pc := m.pc + 2, stack := Push(I64(|m.mem.heap[a]|), below))
  {
    var m1 := Next(p, m0, m, at, ins, k);
    m' := Next(p, m0, m1, at, ins, k + 1);
  }

  lemma DoGet(p: Program, m0: State, m: State, at: nat, ins: seq<Instr>, k: nat, a: nat, i: int, below: Stack)
    returns (m': State)
    requires AtInstr(p, m0, m, at, ins, k) && ins[k] == ArrayGet && m.stack == Push(I32(i), Push(Ref(a), below))
    requires a < |m.mem.heap| && 0 <= i < |m.mem.heap[a]|
    ensures Reaches(p, m0, m') && m' == m.(pc := m.pc + 1, stack := Push(m.mem.heap[a][i], below))
  {
    m' := Next(p, m0, m, at, ins, k);
  }

  lemma DoSet(p: Program, m0: State, m: State, at: nat, ins: seq<Instr>, k: nat, a: nat, i: int, w: Word,
        below: Stack) returns (m': State)
    requires AtInstr(p, m0, m, at, ins, k) && ins[k] == ArraySet
      && m.stack == Push(w, Push(I32(i), Push(Ref(a), below)))
    requires a < |m.mem.heap| && 0 <= i < |m.mem.heap[a]|
    ensures Reaches(p, m0, m')
      && m' == m.(pc := m.pc + 1, stack := below, mem := m.mem.(heap := m.mem.heap[a := m.mem.heap[a][i := w]]))
  {
    m' := Next(p, m0, m, at, ins, k);
  }

  /** Appends one element, in three instructions. */
  lemma DoAppend(p: Program, m0: State, m: State, at: nat, ins: seq<Instr>, k: nat, a: nat, w: Word, below: Stack)
    returns (m': State)
    requires AtInstr(p, m0, m, at, ins, k) && k + 2 < |ins| && ins[k] == I32Const(1) && ins[k + 1] == ArrayAppend
      && ins[k + 2] == Drop
    requires m.stack == Push(w, Push(Ref(a), below)) && a < |m.mem.heap|
    ensures Reaches(p, m0, m')
    ensures m' == m.(pc := m.pc + 3, stack := below, mem := m.mem.(heap := m.mem.heap[a := m.mem.heap[a] + [w]]))
  {
    var m1 := Next(p, m0, m, at, ins, k);
    var m2 := Next(p, m0, m1, at, ins, k + 1);
    m' := Next(p, m0, m2, at, ins, k + 2);
  }

  /** Leaves a loop unless `taken`: compare, invert and branch. */
  lemma DoTest(p: Program, m0: State, m: State, at: nat, ins: seq<Instr>, k: nat, op: CmpOp, a: int, b: int,
        below: Stack) returns (m': State)
    requires AtInstr(p, m0, m, at, ins, k) && k + 2 < |ins| && ins[k] == I64Cmp(op) && ins[k + 1] == I32Eqz
      && ins[k + 2].BrIf? && p.Bound(ins[k + 2].l)
    requires m.stack == Push(I64(b), Push(I64(a), below))
    ensures Reaches(p, m0, m')
    ensures m' == m.(pc := if Semantics.CmpInts(op, a, b) then m.pc + 3
      else p.labels[ins[k + 2].l].value, stack := below)
  {
    hide Run, Reaches, CodeAt;
    var m1 := Next(p, m0, m, at, ins, k);
    var m2 := Next(p, m0, m1, at, ins, k + 1);
    m' := Branch(p, m0, m2, at, ins, k + 2, !Semantics.CmpInts(op, a, b));
  }

  lemma RunInsertEntry(p: Program, e: Env, f: InsertFrame, m0: State, m: State, at: nat, v: Word, k: int, a: nat,
        below: Stack) returns (m': State)
    requires Reaches(p, m0, m) && CodeAt(p, at, InsertEntry(e, f)) && m.pc == at
    requires m.stack == Push(v, Push(I64(k), Push(Ref(a), below))) && a < |m.mem.heap|
    ensures Reaches(p, m0, m')
    ensures m' == State(at + 7, below, InsertStored(e, f, m.mem, v, k, a, |m.mem.heap[a]|))
  {
    hide Step, Run, Reaches, CodeAt, LoadSlot, StoreSlot, SlotAt, Compute;
    var ins := InsertEntry(e, f);
    var m1 := StoreScratch(p, m0, m, at, ins, 0, e, f.value);
    var m2 := StoreScratch(p, m0, m1, at, ins, 1, e, f.idx);
    var m3 := StoreScratch(p, m0, m2, at, ins, 2, e, f.list);
    var m4 := LoadScratch(p, m0, m3, at, ins, 3, e, f.list);
    var m5 := DoLen(p, m0, m4, at, ins, 4, a, below);
    m' := StoreScratch(p, m0, m5, at, ins, 6, e, f.len);
  }

  /** The operands are stored. */
  function InsertStored(e: Env, f: InsertFrame, mem: Memory, v: Word, k: int, a: nat, n: nat): Memory {
    Put(e, Put(e, Put(e, Put(e, mem, f.value, v), f.idx, I64(k)), f.list, Ref(a)), f.len, I64(n))
  }

  lemma InsertStoredHolds(e: Env, f: InsertFrame, mem: Memory, v: Word, k: int, a: nat, n: nat)
    requires InsertApart(e, f)
    ensures InsertHolds(e, f, InsertStored(e, f, mem, v, k, a, n), a, k, n, v)
    ensures Touches(e, [f.value, f.idx, f.list, f.len, f.i], a, mem, InsertStored(e, f, mem, v, k, a, n))
  {
    hide SlotAt;
    var ids := [f.value, f.idx, f.list, f.len, f.i];
    assert ids[0] == f.value && ids[1] == f.idx && ids[2] == f.list && ids[3] == f.len && ids[4] == f.i;
  }

  /** A negative index counts from the end. */
  lemma RunInsertSign(p: Program, e: Env, f: InsertFrame, m0: State, m: State, at: nat, a: nat, k: int, n: nat,
        v: Word) returns (m': State)
    requires Reaches(p, m0, m) && InsertLayout(p, e, f, at) && m.pc == at + 7 && InsertHolds(e, f, m.mem, a, k, n, v)
    ensures Reaches(p, m0, m') && m'.pc == at + 16 && m'.stack == m.stack
    ensures m'.mem == Put(e, m.mem, f.idx, I64(if k < 0 then k + n else k))
  {
    hide Step, Run, Reaches, CodeAt, LoadSlot, StoreSlot, SlotAt;
    var ins := InsertSign(e, f);
    var m1 := LoadScratch(p, m0, m, at + 7, ins, 0, e, f.idx);
    var m2 := Next(p, m0, m1, at + 7, ins, 1);
    var m3 := Next(p, m0, m2, at + 7, ins, 2);
    var m4 := Branch(p, m0, m3, at + 7, ins, 3, k < 0);
    if k < 0 {
      var neg := InsertNegative(e, f);
      var m5 := LoadScratch(p, m0, m4, at + 12, neg, 0, e, f.idx);
      var m6 := LoadScratch(p, m0, m5, at + 12, neg, 1, e, f.len);
      var m7 := Next(p, m0, m6, at + 12, neg, 2);
      m' := StoreScratch(p, m0, m7, at + 12, neg, 3, e, f.idx);
    } else {
      m' := Jump(p, m0, m4, at + 7, ins, 4);
      assert m.mem.slots == m.mem.slots[SlotAt(e, f.idx) := I64(k)];
    }
  }

  lemma RunInsertLow(p: Program, e: Env, f: InsertFrame, m0: State, m: State, at: nat, a: nat, k: int, n: nat,
        v: Word) returns (m': State)
    requires Reaches(p, m0, m) && InsertLayout(p, e, f, at) && m.pc == at + 16 && InsertHolds(e, f, m.mem, a, k, n, v)
    ensures Reaches(p, m0, m') && m'.pc == at + 23 && m'.stack == m.stack
    ensures m'.mem == Put(e, m.mem, f.idx, I64(if k < 0 then 0 else k))
  {
    hide Step, Run, Reaches, CodeAt, LoadSlot, StoreSlot, SlotAt;
    var ins := InsertLow(e, f);
    var m1 := LoadScratch(p, m0, m, at + 16, ins, 0, e, f.idx);
    var m2 := Next(p, m0, m1, at + 16, ins, 1);
    var m3 := Next(p, m0, m2, at + 16, ins, 2);
    var m4 := Next(p, m0, m3, at + 16, ins, 3);
    m' := Branch(p, m0, m4, at + 16, ins, 4, !(k < 0));
    if k < 0 {
      var m6 := Next(p, m0, m', at + 16, ins, 5);
      m' := StoreScratch(p, m0, m6, at + 16, ins, 6, e, f.idx);
    } else {
      assert m.mem.slots == m.mem.slots[SlotAt(e, f.idx) := I64(k)];
    }
  }

  lemma RunInsertHigh(p: Program, e: Env, f: InsertFrame, m0: State, m: State, at: nat, a: nat, k: int, n: nat,
        v: Word) returns (m': State)
    requires Reaches(p, m0, m) && InsertLayout(p, e, f, at) && m.pc == at + 23 && InsertHolds(e, f, m.mem, a, k, n, v)
    ensures Reaches(p, m0, m') && m'.pc == at + 30 && m'.stack == m.stack
    ensures m'.mem == Put(e, m.mem, f.idx, I64(if k > n then n else k))
  {
    hide Step, Run, Reaches, CodeAt, LoadSlot, StoreSlot, SlotAt;
    var ins := InsertHigh(e, f);
    var m1 := LoadScratch(p, m0, m, at + 23, ins, 0, e, f.idx);
    var m2 := LoadScratch(p, m0, m1, at + 23, ins, 1, e, f.len);
    var m3 := Next(p, m0, m2, at + 23, ins, 2);
    var m4 := Next(p, m0, m3, at + 23, ins, 3);
    m' := Branch(p, m0, m4, at + 23, ins, 4, !(k > n));
    if k > n {
      var m6 := LoadScratch(p, m0, m', at + 23, ins, 5, e, f.len);
      m' := StoreScratch(p, m0, m6, at + 23, ins, 6, e, f.idx);
    } else {
      assert m.mem.slots == m.mem.slots[SlotAt(e, f.idx) := I64(k)];
    }
  }

  /** The index is normalised and clamped before anything is moved. */
  lemma RunInsertClamp(p: Program, e: Env, f: InsertFrame, m0: State, m: State, at: nat, a: nat, k: int, n: nat,
        v: Word) returns (m': State)
    requires InsertApart(e, f) && Reaches(p, m0, m) && InsertLayout(p, e, f, at) && m.pc == at + 7
      && InsertHolds(e, f, m.mem, a, k, n, v)
    ensures Reaches(p, m0, m') && m'.pc == at + 30 && m'.stack == m.stack
    ensures m'.mem == Put(e, m.mem, f.idx, I64(InsertionPoint(k, n)))
    ensures InsertHolds(e, f, m'.mem, a, InsertionPoint(k, n), n, v)
  {
    hide Step, Run, Reaches, CodeAt, LoadSlot, StoreSlot, SlotAt, InsertLayout;
    var ids := [f.value, f.idx, f.list, f.len, f.i];
    assert ids[0] == f.value && ids[1] == f.idx && ids[2] == f.list && ids[3] == f.len && ids[4] == f.i;
    var k1 := if k < 0 then k + n else k;
    var k2 := if k1 < 0 then 0 else k1;
    var m1 := RunInsertSign(p, e, f, m0, m, at, a, k, n, v);
    var m2 := RunInsertLow(p, e, f, m0, m1, at, a, k1, n, v);
    m' := RunInsertHigh(p, e, f, m0, m2, at, a, k2, n, v);
  }

  lemma RunInsertGrow(p: Program, e: Env, f: InsertFrame, m0: State, m: State, at: nat, a: nat, j: int, n: nat,
        v: Word) returns (m': State)
    requires Reaches(p, m0, m) && CodeAt(p, at, InsertGrow(e, f)) && m.pc == at
      && InsertHolds(e, f, m.mem, a, j, n, v) && a < |m.mem.heap|
    ensures Reaches(p, m0, m') && m'.pc == at + 7 && m'.stack == m.stack
    ensures m'.mem == Put(e, m.mem.(heap := m.mem.heap[a := m.mem.heap[a] + [v]]), f.i, I64(n))
  {
    hide Step, Run, Reaches, CodeAt, LoadSlot, StoreSlot, SlotAt, Compute;
    var ins := InsertGrow(e, f);
    var m1 := LoadScratch(p, m0, m, at, ins, 0, e, f.list);
    var m2 := LoadScratch(p, m0, m1, at, ins, 1, e, f.value);
    var m3 := DoAppend(p, m0, m2, at, ins, 2, a, v, m.stack);
    var m4 := LoadScratch(p, m0, m3, at, ins, 5, e, f.len);
    m' := StoreScratch(p, m0, m4, at, ins, 6, e, f.i);
  }

  lemma RunInsertTest(p: Program, e: Env, f: InsertFrame, m0: State, m: State, at: nat, i: int, j: int)
    returns (m': State)
    requires Reaches(p, m0, m) && InsertLayout(p, e, f, at) && m.pc == at + 37 && SlotIs(e, m.mem, f.i, I64(i))
      && SlotIs(e, m.mem, f.idx, I64(j))
    ensures Reaches(p, m0, m') && m' == m.(pc := if i > j then at + 42 else at + 57)
  {
    hide Step, Run, Reaches, CodeAt, LoadSlot, StoreSlot, SlotAt, Compute;
    var ins := InsertTop(e, f);
    var m1 := LoadScratch(p, m0, m, at + 37, ins, 0, e, f.i);
    var m2 := LoadScratch(p, m0, m1, at + 37, ins, 1, e, f.idx);
    m' := DoTest(p, m0, m2, at + 37, ins, 2, Gt, i, j, m.stack);
  }

  /** Copies the element before the counter over the element at it. */
  lemma RunInsertShift(p: Program, e: Env, f: InsertFrame, m0: State, m: State, at: nat, a: nat, i: int)
    returns (m': State)
    requires Reaches(p, m0, m) && CodeAt(p, at, InsertShift(e, f)) && m.pc == at && SlotIs(e, m.mem, f.list, Ref(a))
      && SlotIs(e, m.mem, f.i, I64(i))
    requires a < |m.mem.heap| && 0 < i < |m.mem.heap[a]|
    ensures Reaches(p, m0, m') && m'.pc == at + 10 && m'.stack == m.stack
    ensures m'.mem == m.mem.(heap := m.mem.heap[a := m.mem.heap[a][i := m.mem.heap[a][i - 1]]])
  {
    hide Step, Run, Reaches, CodeAt, LoadSlot, StoreSlot, SlotAt, InsertFrom;
    var to, from := InsertTo(e, f), InsertFrom(e, f);
    CodeAtConcat(p, at, to + from, [ArraySet]);
    CodeAtConcat(p, at, to, from);
    var m1 := LoadScratch(p, m0, m, at, to, 0, e, f.list);
    var m2 := LoadScratch(p, m0, m1, at, to, 1, e, f.i);
    var m3 := Next(p, m0, m2, at, to, 2);
    var m4 := RunInsertFrom(p, e, f, m0, m3, at + 3, a, i);
    m' := Next(p, m0, m4, at + 9, [ArraySet], 0);
  }

  lemma RunInsertFrom(p: Program, e: Env, f: InsertFrame, m0: State, m: State, at: nat, a: nat, i: int)
    returns (m': State)
    requires Reaches(p, m0, m) && CodeAt(p, at, InsertFrom(e, f)) && m.pc == at && SlotIs(e, m.mem, f.list, Ref(a))
      && SlotIs(e, m.mem, f.i, I64(i))
    requires a < |m.mem.heap| && 0 < i <= |m.mem.heap[a]|
    ensures Reaches(p, m0, m') && m' == m.(pc := at + 6, stack := Push(m.mem.heap[a][i - 1], m.stack))
  {
    hide Step, Run, Reaches, CodeAt, LoadSlot, StoreSlot, SlotAt, Compute;
    var ins := InsertFrom(e, f);
    var m1 := LoadScratch(p, m0, m, at, ins, 0, e, f.list);
    var m2 := LoadScratch(p, m0, m1, at, ins, 1, e, f.i);
    var m3 := DoConst(p, m0, m2, at, ins, 2, 1);
    var m4 := DoBin(p, m0, m3, at, ins, 3, I64Sub, i, 1, m1.stack);
    var m5 := DoToI32(p, m0, m4, at, ins, 4, i - 1, m1.stack);
    m' := DoGet(p, m0, m5, at, ins, 5, a, i - 1, m.stack);
  }

  lemma RunInsertNext(p: Program, e: Env, f: InsertFrame, m0: State, m: State, at: nat, top: nat, i: int)
    returns (m': State)
    requires Reaches(p, m0, m) && CodeAt(p, at, InsertNext(e, f)) && m.pc == at && At(p, f.top, top)
      && SlotIs(e, m.mem, f.i, I64(i))
    ensures Reaches(p, m0, m') && m' == m.(pc := top, mem := Put(e, m.mem, f.i, I64(i - 1)))
  {
    hide Step, Run, Reaches, CodeAt, LoadSlot, StoreSlot, SlotAt, Compute;
    var ins := InsertNext(e, f);
    var m1 := LoadScratch(p, m0, m, at, ins, 0, e, f.i);
    var m2 := DoConst(p, m0, m1, at, ins, 1, 1);
    var m3 := DoBin(p, m0, m2, at, ins, 2, I64Sub, i, 1, m.stack);
    var m4 := StoreScratch(p, m0, m3, at, ins, 3, e, f.i);
    m' := Jump(p, m0, m4, at, ins, 4);
  }

  /** Everything from `i` on has moved up by one. */
  predicate Shifted(xs: seq<Word>, cs: seq<Word>, i: int) {
    && |cs| == |xs| + 1 && 0 <= i <= |xs|
    && (forall t :: 0 <= t < i ==> cs[t] == xs[t])
    && (forall t :: i < t < |cs| ==> cs[t] == xs[t - 1])
  }

  lemma {:induction false} RunInsertLoop(p: Program, e: Env, f: InsertFrame, m0: State, m: State, at: nat, a: nat,
        j: nat, i: int, n: nat, v: Word, xs: seq<Word>)
    returns (m': State)
    requires InsertApart(e, f) && Reaches(p, m0, m) && InsertLayout(p, e, f, at) && m.pc == at + 37
    requires InsertHolds(e, f, m.mem, a, j, n, v) && SlotIs(e, m.mem, f.i, I64(i)) && j <= i <= n
    requires a < |m.mem.heap| && Shifted(xs, m.mem.heap[a], i)
    ensures Reaches(p, m0, m') && m'.pc == at + 57 && m'.stack == m.stack
    ensures InsertHolds(e, f, m'.mem, a, j, n, v) && |m'.mem.heap| == |m.mem.heap| && Shifted(xs, m'.mem.heap[a], j)
    ensures Touches(e, [f.value, f.idx, f.list, f.len, f.i], a, m.mem, m'.mem)
    decreases i - j
  {
    hide Step, Run, Reaches, CodeAt, LoadSlot, StoreSlot, SlotAt, InsertTop, InsertShift, InsertNext;
    var ids := [f.value, f.idx, f.list, f.len, f.i];
    assert ids[0] == f.value && ids[1] == f.idx && ids[2] == f.list && ids[3] == f.len && ids[4] == f.i;
    var m1 := RunInsertTest(p, e, f, m0, m, at, i, j);
    if i > j {
      var m2 := RunInsertShift(p, e, f, m0, m1, at + 42, a, i);
      var m3 := RunInsertNext(p, e, f, m0, m2, at + 52, at + 37, i);
      m' := RunInsertLoop(p, e, f, m0, m3, at, a, j, i - 1, n, v, xs);
      TouchesTrans(e, ids, a, m.mem, m3.mem, m'.mem);
    } else {
      m' := m1;
    }
  }

  lemma RunInsertDone(p: Program, e: Env, f: InsertFrame, m0: State, m: State, at: nat, a: nat, j: nat, n: nat,
        v: Word) returns (m': State)
    requires Reaches(p, m0, m) && CodeAt(p, at, InsertDone(e, f)) && m.pc == at && InsertHolds(e, f, m.mem, a, j, n, v)
    requires a < |m.mem.heap| && j < |m.mem.heap[a]|
    ensures Reaches(p, m0, m') && m' == m.(pc := at + 5, mem := m.mem.(heap := m.mem.heap[a := m.mem.heap[a][j := v]]))
  {
    hide Step, Run, Reaches, CodeAt, LoadSlot, StoreSlot, SlotAt, Compute;
    var ins := InsertDone(e, f);
    var m1 := LoadScratch(p, m0, m, at, ins, 0, e, f.list);
    var m2 := LoadScratch(p, m0, m1, at, ins, 1, e, f.idx);
    var m3 := DoToI32(p, m0, m2, at, ins, 2, j, m1.stack);
    var m4 := LoadScratch(p, m0, m3, at, ins, 3, e, f.value);
    m' := DoSet(p, m0, m4, at, ins, 4, a, j, v, m.stack);
  }

  lemma InsertFrameApart(l: Low)
    ensures var f := InsertFrameAt(l);
            && InsertApart(l.env, f)
            && Overwritable(l, SlotAt(l.env, f.value)) && Overwritable(l, SlotAt(l.env, f.idx))
                && Overwritable(l, SlotAt(l.env, f.list))
            && Overwritable(l, SlotAt(l.env, f.len)) && Overwritable(l, SlotAt(l.env, f.i))
  {
    hide RawPool.Valid, Overwritable, Tmp, TmpIndex;
    var l1 := Reserve(l, KindRef);
    var l2 := Reserve(l1, KindI64);
    var l3 := Reserve(l2, KindRef);
    var l4 := Reserve(l3, KindI64);
    var l5 := Reserve(l4, KindI64);
    ReservedSlot(l, KindRef, l1);
    ReservedSlot(l1, KindI64, l2);
    ReservedSlot(l2, KindRef, l3);
    ReservedSlot(l3, KindI64, l4);
    ReservedSlot(l4, KindI64, l5);
    var f := InsertFrameAt(l);
    OnceReserved(l, l1, l2, f.idx);
    OnceReserved(l, l2, l3, f.list);
    OnceReserved(l, l3, l4, f.len);
    OnceReserved(l, l4, l5, f.i);
    OnceReserved(l1, l2, l3, f.list);
    OnceReserved(l1, l3, l4, f.len);
    OnceReserved(l1, l4, l5, f.i);
    OnceReserved(l2, l3, l4, f.len);
    OnceReserved(l2, l4, l5, f.i);
    OnceReserved(l3, l4, l5, f.i);
  }

  /** A slot reserved later differs from every slot that was live before. */
  lemma OnceReserved(l: Low, l1: Low, l2: Low, id: nat)
    requires Grows(l, l1) && Overwritable(l1, SlotAt(l.env, id))
    ensures Overwritable(l, SlotAt(l.env, id))
  {
  }

  lemma TouchesQuiet(l: Low, ids: seq<nat>, a: nat, mem: Memory, mem': Memory)
    requires Touches(l.env, ids, a, mem, mem') && forall i :: 0 <= i < |ids| ==> Overwritable(l, SlotAt(l.env, ids[i]))
    ensures Quiet(l, mem, mem', {a})
  {
  }

  lemma ShiftedInserted(xs: seq<Word>, cs: seq<Word>, k: int, v: Word)
    requires Shifted(xs, cs, InsertionPoint(k, |xs|))
    ensures cs[InsertionPoint(k, |xs|) := v] == Inserted(xs, k, v)
  {
  }

  /** `xs.insert(k, v)`: the emitted loop leaves `xs[:k] + [v] + xs[k:]` in the
      array, for the clamped and normalised `k`, and touches nothing else. */
  lemma ListInsertWorks(l: Low, p: Program, m: State, v: Word, k: int, a: nat, below: Stack) returns (m': State)
    requires Within(CompListInsert(l), p) && m.pc == |l.code|
    requires m.stack == Push(v, Push(I64(k), Push(Ref(a), below))) && a < |m.mem.heap|
    ensures Reaches(p, m, m') && m'.pc == |CompListInsert(l).code| && m'.stack == below
    ensures m'.mem.heap == m.mem.heap[a := Inserted(m.mem.heap[a], k, v)]
    ensures Quiet(l, m.mem, m'.mem, {a})
  {
    hide RawPool.Valid, Step, Run, Reaches, CodeAt, Within, LoadSlot, StoreSlot, SlotAt, Overwritable, CompListInsert,
         InsertFrameAt, Inserted, InsertionPoint;
    hide InsertApart, InsertHolds, Shifted, InsertStored, InsertLayout, Touches, InsertEntry, InsertGrow, InsertDone;
    var e, f, at := l.env, InsertFrameAt(l), |l.code|;
    var xs := m.mem.heap[a];
    var n, j := |xs|, InsertionPoint(k, |xs|);
    InsertPlaced(l, p);
    InsertParts(p, e, f, at);
    InsertFrameApart(l);
    ReachesSelf(p, m);
    var m1 := RunInsertEntry(p, e, f, m, m, at, v, k, a, below);
    InsertStoredHolds(e, f, m.mem, v, k, a, n);
    TouchesLen(e, [f.value, f.idx, f.list, f.len, f.i], a, m.mem, m1.mem);
    var m2 := RunInsertClamp(p, e, f, m, m1, at, a, k, n, v);
    InsertStoredHeap(e, f, m.mem, v, k, a, n);
    var m3 := RunInsertGrow(p, e, f, m, m2, at + 30, a, j, n, v);
    GrownShifted(e, f, m2.mem, m3.mem, a, j, n, v, xs);
    var m4 := RunInsertLoop(p, e, f, m, m3, at, a, j, n, n, v, xs);
    ShiftedBounds(xs, m4.mem.heap[a], j);
    m' := RunInsertDone(p, e, f, m, m4, at + 57, a, j, n, v);
    ShiftedInserted(xs, m4.mem.heap[a], k, v);
    InsertFinish(l, a, m.mem, m1.mem, m2.mem, m3.mem, m4.mem, m'.mem, j, n, f, m2.mem.heap[a := xs + [v]]);
  }

  lemma InsertStoredHeap(e: Env, f: InsertFrame, mem: Memory, v: Word, k: int, a: nat, n: nat)
    ensures InsertStored(e, f, mem, v, k, a, n).heap == mem.heap
  {
  }

  lemma InsertParts(p: Program, e: Env, f: InsertFrame, at: nat)
    requires InsertLayout(p, e, f, at)
    ensures CodeAt(p, at, InsertEntry(e, f)) && CodeAt(p, at + 30, InsertGrow(e, f))
      && CodeAt(p, at + 57, InsertDone(e, f))
  {
  }

  lemma TouchesLen(e: Env, ids: seq<nat>, a: nat, mem: Memory, mem': Memory)
    requires Touches(e, ids, a, mem, mem')
    ensures |mem'.heap| == |mem.heap|
  {
  }

  lemma InsertFinish(l: Low, a: nat, mem: Memory, mem1: Memory, mem2: Memory, mem3: Memory, mem4: Memory,
        mem5: Memory, j: int, n: int, f: InsertFrame, h: Heap)
    requires f == InsertFrameAt(l) && a < |mem.heap|
    requires Touches(l.env, [f.value, f.idx, f.list, f.len, f.i], a, mem, mem1)
      && mem2 == Put(l.env, mem1, f.idx, I64(j))
    requires mem3 == Put(l.env, mem2.(heap := h), f.i, I64(n)) && |h| == |mem2.heap|
      && forall b: nat :: b < |h| && b != a ==> h[b] == mem2.heap[b]
    requires Touches(l.env, [f.value, f.idx, f.list, f.len, f.i], a, mem3, mem4)
    requires mem5.slots == mem4.slots && |mem5.heap| == |mem4.heap|
      && forall b: nat :: b < |mem4.heap| && b != a ==> mem5.heap[b] == mem4.heap[b]
    ensures Quiet(l, mem, mem5, {a}) && mem5.heap == mem.heap[a := mem5.heap[a]]
  {
    hide RawPool.Valid, Overwritable, SlotAt, Put, InsertFrameAt;
    var ids := [f.value, f.idx, f.list, f.len, f.i];
    InsertTouches(l.env, ids, a, mem, mem1, mem2, mem3, mem4, mem5, j, n, f, h);
    InsertFrameApart(l);
    TouchesQuiet(l, ids, a, mem, mem5);
  }

  lemma ShiftedBounds(xs: seq<Word>, cs: seq<Word>, j: nat)
    requires Shifted(xs, cs, j)
    ensures j < |cs|
  {
  }

  lemma GrownShifted(e: Env, f: InsertFrame, mem: Memory, mem': Memory, a: nat, j: int, n: nat, v: Word, xs: seq<Word>)
    requires InsertApart(e, f) && InsertHolds(e, f, mem, a, j, n, v) && a < |mem.heap| && mem.heap[a] == xs && |xs| == n
    requires mem' == Put(e, mem.(heap := mem.heap[a := xs + [v]]), f.i, I64(n))
    ensures InsertHolds(e, f, mem', a, j, n, v) && SlotIs(e, mem', f.i, I64(n)) && Shifted(xs, mem'.heap[a], n)
  {
    hide SlotAt;
    var ids := [f.value, f.idx, f.list, f.len, f.i];
    assert ids[0] == f.value && ids[1] == f.idx && ids[2] == f.list && ids[3] == f.len && ids[4] == f.i;
  }

  lemma InsertTouches(e: Env, ids: seq<nat>, a: nat, mem: Memory, mem1: Memory, mem2: Memory, mem3: Memory,
        mem4: Memory, mem5: Memory, j: int, n: int, f: InsertFrame, h: Heap)
    requires ids == [f.value, f.idx, f.list, f.len, f.i] && a < |mem.heap|
    requires Touches(e, ids, a, mem, mem1) && mem2 == Put(e, mem1, f.idx, I64(j))
    requires mem3 == Put(e, mem2.(heap := h), f.i, I64(n)) && |h| == |mem2.heap|
      && forall b: nat :: b < |h| && b != a ==> h[b] == mem2.heap[b]
    requires Touches(e, ids, a, mem3, mem4)
    requires mem5.slots == mem4.slots && |mem5.heap| == |mem4.heap|
      && forall b: nat :: b < |mem4.heap| && b != a ==> mem5.heap[b] == mem4.heap[b]
    ensures Touches(e, ids, a, mem, mem5)
  {
    hide SlotAt;
    assert ids[0] == f.value && ids[1] == f.idx && ids[2] == f.list && ids[3] == f.len && ids[4] == f.i;
    TouchesTrans(e, ids, a, mem, mem1, mem2);
    TouchesTrans(e, ids, a, mem, mem2, mem3);
    TouchesTrans(e, ids, a, mem, mem3, mem4);
    TouchesTrans(e, ids, a, mem, mem4, mem5);
  }

  // The two loops with four slots.

  datatype Frame4 = Frame4(s0: nat, s1: nat, s2: nat, s3: nat, top: Label, done: Label)

  function Slots4(l: Low, k0: Kind, k1: Kind, k2: Kind, k3: Kind): Low {
    Reserve(Reserve(Reserve(Reserve(l, k0), k1), k2), k3)
  }

  function Frame4At(l: Low, k0: Kind, k1: Kind, k2: Kind, k3: Kind): Frame4 {
    var l1 := Reserve(l, k0);
    var l2 := Reserve(l1, k1);
    var l3 := Reserve(l2, k2);
    Frame4(Reserved(l, k0), Reserved(l1, k1), Reserved(l2, k2), Reserved(l3, k3), l.Next(), l.Next() + 1)
  }

  function Ids(f: Frame4): seq<nat> {
    [f.s0, f.s1, f.s2, f.s3]
  }

  predicate Apart4(e: Env, f: Frame4) {
    && SlotAt(e, f.s0) != SlotAt(e, f.s1) && SlotAt(e, f.s0) != SlotAt(e, f.s2) && SlotAt(e, f.s0) != SlotAt(e, f.s3)
    && SlotAt(e, f.s1) != SlotAt(e, f.s2) && SlotAt(e, f.s1) != SlotAt(e, f.s3) && SlotAt(e, f.s2) != SlotAt(e, f.s3)
  }

  lemma Frame4Apart(l: Low, k0: Kind, k1: Kind, k2: Kind, k3: Kind)
    ensures var f := Frame4At(l, k0, k1, k2, k3);
            && Apart4(l.env, f)
            && forall i :: 0 <= i < 4 ==> Overwritable(l, SlotAt(l.env, Ids(f)[i]))
    ensures var r := Slots4(l, k0, k1, k2, k3); r.code == l.code && r.labels == l.labels && r.env == l.env
  {
    hide RawPool.Valid, Overwritable, Tmp, TmpIndex;
    var l1 := Reserve(l, k0);
    var l2 := Reserve(l1, k1);
    var l3 := Reserve(l2, k2);
    var l4 := Reserve(l3, k3);
    ReservedSlot(l, k0, l1);
    ReservedSlot(l1, k1, l2);
    ReservedSlot(l2, k2, l3);
    ReservedSlot(l3, k3, l4);
    var f := Frame4At(l, k0, k1, k2, k3);
    OnceReserved(l, l1, l2, f.s1);
    OnceReserved(l, l2, l3, f.s2);
    OnceReserved(l, l3, l4, f.s3);
    OnceReserved(l1, l2, l3, f.s2);
    OnceReserved(l1, l3, l4, f.s3);
    OnceReserved(l2, l3, l4, f.s3);
  }

  // list.extend: slots source, list, length, counter.

  function ExtendEntry(e: Env, f: Frame4): seq<Instr> {
    [StoreSlot(e, f.s0), StoreSlot(e, f.s1), LoadSlot(e, f.s0), ArrayLen, I32ToI64, StoreSlot(e, f.s2), I64Const(0),
        StoreSlot(e, f.s3)]
  }

  function ExtendTop(e: Env, f: Frame4): seq<Instr> {
    [LoadSlot(e, f.s3), LoadSlot(e, f.s2), I64Cmp(Lt), I32Eqz, BrIf(f.done)]
  }

  function ExtendCopy(e: Env, f: Frame4): seq<Instr> {
    [LoadSlot(e, f.s1), LoadSlot(e, f.s0), LoadSlot(e, f.s3), I64ToI32, ArrayGet, I32Const(1), ArrayAppend, Drop]
  }

  function ExtendNext(e: Env, f: Frame4): seq<Instr> {
    [LoadSlot(e, f.s3), I64Const(1), I64Bin(I64Add), StoreSlot(e, f.s3), Br(f.top)]
  }

  function ExtendFrameAt(l: Low): Frame4 {
    Frame4At(l, KindRef, KindRef, KindI64, KindI64)
  }

  function CompListExtend(l: Low): Low {
    var e, f := l.env, ExtendFrameAt(l);
    var l1 := Emit(Slots4(l, KindRef, KindRef, KindI64, KindI64), ExtendEntry(e, f));
    var l2 := Bind(Labels(l1, 2), f.top);
    Bind(Emit(Emit(Emit(l2, ExtendTop(e, f)), ExtendCopy(e, f)), ExtendNext(e, f)), f.done)
  }

  ghost predicate ExtendLayout(p: Program, e: Env, f: Frame4, at: nat) {
    && CodeAt(p, at, ExtendEntry(e, f))
    && At(p, f.top, at + 8) && CodeAt(p, at + 8, ExtendTop(e, f))
    && CodeAt(p, at + 13, ExtendCopy(e, f)) && CodeAt(p, at + 21, ExtendNext(e, f))
    && At(p, f.done, at + 26)
  }

  lemma ExtendPlaced(l: Low, p: Program)
    requires Within(CompListExtend(l), p)
    ensures ExtendLayout(p, l.env, ExtendFrameAt(l), |l.code|) && |CompListExtend(l).code| == |l.code| + 26
  {
    hide RawPool.Valid, CodeAt, Within, Reserve, Reserved, LoadSlot, StoreSlot, Slots4;
    var e, f := l.env, ExtendFrameAt(l);
    var l0 := Slots4(l, KindRef, KindRef, KindI64, KindI64);
    Frame4Apart(l, KindRef, KindRef, KindI64, KindI64);
    var l1 := Emit(l0, ExtendEntry(e, f));
    var l2 := Labels(l1, 2);
    var l3 := Bind(l2, f.top);
    var l4 := Emit(l3, ExtendTop(e, f));
    var l5 := Emit(l4, ExtendCopy(e, f));
    var l6 := Emit(l5, ExtendNext(e, f));
    WithinBind(l6, f.done, p);
    WithinEmit(l5, ExtendNext(e, f), p);
    WithinEmit(l4, ExtendCopy(e, f), p);
    WithinEmit(l3, ExtendTop(e, f), p);
    WithinBind(l2, f.top, p);
    WithinLabels(l1, 2, p);
    WithinEmit(l0, ExtendEntry(e, f), p);
  }

  predicate ExtendHolds(e: Env, f: Frame4, mem: Memory, a: nat, b: nat, n: nat, i: int) {
    SlotIs(e, mem, f.s0, Ref(b)) && SlotIs(e, mem, f.s1, Ref(a)) && SlotIs(e, mem, f.s2, I64(n))
        && SlotIs(e, mem, f.s3, I64(i))
  }

  function Put4(e: Env, f: Frame4, mem: Memory, w0: Word, w1: Word, w2: Word, w3: Word): Memory {
    Put(e, Put(e, Put(e, Put(e, mem, f.s0, w0), f.s1, w1), f.s2, w2), f.s3, w3)
  }

  lemma Put4Touches(e: Env, f: Frame4, mem: Memory, w0: Word, w1: Word, w2: Word, w3: Word, a: nat)
    requires Apart4(e, f)
    ensures var r := Put4(e, f, mem, w0, w1, w2, w3);
            && SlotIs(e, r, f.s0, w0) && SlotIs(e, r, f.s1, w1) && SlotIs(e, r, f.s2, w2) && SlotIs(e, r, f.s3, w3)
            && r.heap == mem.heap && Touches(e, Ids(f), a, mem, r)
  {
    hide SlotAt;
    var ids := Ids(f);
    assert ids[0] == f.s0 && ids[1] == f.s1 && ids[2] == f.s2 && ids[3] == f.s3;
  }

  /** Writing one of the frame's slots, or array `a`. */
  lemma PutTouches(e: Env, f: Frame4, mem: Memory, id: nat, w: Word, h: Heap, a: nat)
    requires id in Ids(f) && |h| == |mem.heap| && forall b: nat :: b < |h| && b != a ==> h[b] == mem.heap[b]
    ensures Touches(e, Ids(f), a, mem, Put(e, mem.(heap := h), id, w))
  {
    hide SlotAt;
  }

  lemma RunExtendEntry(p: Program, e: Env, f: Frame4, m0: State, m: State, at: nat, a: nat, b: nat, below: Stack)
    returns (m': State)
    requires Apart4(e, f) && Reaches(p, m0, m) && CodeAt(p, at, ExtendEntry(e, f)) && m.pc == at
    requires m.stack == Push(Ref(b), Push(Ref(a), below)) && b < |m.mem.heap|
    ensures Reaches(p, m0, m')
    ensures m' == State(at + 8, below, Put4(e, f, m.mem, Ref(b), Ref(a), I64(|m.mem.heap[b]|), I64(0)))
  {
    hide Step, Run, Reaches, CodeAt, LoadSlot, StoreSlot, SlotAt, Compute;
    var ins := ExtendEntry(e, f);
    var m1 := StoreScratch(p, m0, m, at, ins, 0, e, f.s0);
    var m2 := StoreScratch(p, m0, m1, at, ins, 1, e, f.s1);
    var m3 := LoadScratch(p, m0, m2, at, ins, 2, e, f.s0);
    var m4 := DoLen(p, m0, m3, at, ins, 3, b, below);
    var m5 := StoreScratch(p, m0, m4, at, ins, 5, e, f.s2);
    var m6 := DoConst(p, m0, m5, at, ins, 6, 0);
    m' := StoreScratch(p, m0, m6, at, ins, 7, e, f.s3);
  }

  lemma RunExtendTop(p: Program, e: Env, f: Frame4, m0: State, m: State, at: nat, a: nat, b: nat, n: nat, i: int)
    returns (m': State)
    requires Reaches(p, m0, m) && ExtendLayout(p, e, f, at) && m.pc == at + 8 && ExtendHolds(e, f, m.mem, a, b, n, i)
    ensures Reaches(p, m0, m') && m' == m.(pc := if i < n then at + 13 else at + 26)
  {
    hide Step, Run, Reaches, CodeAt, LoadSlot, StoreSlot, SlotAt, Compute;
    var ins := ExtendTop(e, f);
    var m1 := LoadScratch(p, m0, m, at + 8, ins, 0, e, f.s3);
    var m2 := LoadScratch(p, m0, m1, at + 8, ins, 1, e, f.s2);
    m' := DoTest(p, m0, m2, at + 8, ins, 2, Lt, i, n, m.stack);
  }

  lemma RunExtendCopy(p: Program, e: Env, f: Frame4, m0: State, m: State, at: nat, a: nat, b: nat, n: nat, i: int)
    returns (m': State)
    requires Reaches(p, m0, m) && CodeAt(p, at, ExtendCopy(e, f)) && m.pc == at && ExtendHolds(e, f, m.mem, a, b, n, i)
    requires a < |m.mem.heap| && b < |m.mem.heap| && 0 <= i < |m.mem.heap[b]|
    ensures Reaches(p, m0, m')
    ensures m' == m.(pc := at + 8, mem := m.mem.(heap := m.mem.heap[a := m.mem.heap[a] + [m.mem.heap[b][i]]]))
  {
    hide Step, Run, Reaches, CodeAt, LoadSlot, StoreSlot, SlotAt, Compute;
    var ins := ExtendCopy(e, f);
    var m1 := LoadScratch(p, m0, m, at, ins, 0, e, f.s1);
    var m2 := LoadScratch(p, m0, m1, at, ins, 1, e, f.s0);
    var m3 := LoadScratch(p, m0, m2, at, ins, 2, e, f.s3);
    var m4 := DoToI32(p, m0, m3, at, ins, 3, i, m2.stack);
    var m5 := DoGet(p, m0, m4, at, ins, 4, b, i, m1.stack);
    m' := DoAppend(p, m0, m5, at, ins, 5, a, m.mem.heap[b][i], m.stack);
  }

  lemma RunExtendNext(p: Program, e: Env, f: Frame4, m0: State, m: State, at: nat, top: nat, i: int) returns (m': State)
    requires Reaches(p, m0, m) && CodeAt(p, at, ExtendNext(e, f)) && m.pc == at && At(p, f.top, top)
      && SlotIs(e, m.mem, f.s3, I64(i))
    ensures Reaches(p, m0, m') && m' == m.(pc := top, mem := Put(e, m.mem, f.s3, I64(i + 1)))
  {
    hide Step, Run, Reaches, CodeAt, LoadSlot, StoreSlot, SlotAt, Compute;
    var ins := ExtendNext(e, f);
    var m1 := LoadScratch(p, m0, m, at, ins, 0, e, f.s3);
    var m2 := DoConst(p, m0, m1, at, ins, 1, 1);
    var m3 := DoBin(p, m0, m2, at, ins, 2, I64Add, i, 1, m.stack);
    var m4 := StoreScratch(p, m0, m3, at, ins, 3, e, f.s3);
    m' := Jump(p, m0, m4, at, ins, 4);
  }

  /** After `i` passes the list ends in the first `i` elements of the source; the
      source, even when it is the list itself, still starts with `ys`. */
  predicate Extending(xs: seq<Word>, ys: seq<Word>, h: Heap, a: nat, b: nat, i: int) {
    && a < |h| && b < |h| && 0 <= i <= |ys|
    && h[a] == xs + ys[..i]
    && (if a == b then xs == ys else h[b] == ys)
  }

  lemma {:induction false} RunExtendLoop(p: Program, e: Env, f: Frame4, m0: State, m: State, at: nat, a: nat, b: nat,
        i: int, xs: seq<Word>, ys: seq<Word>)
    returns (m': State)
    requires Apart4(e, f) && Reaches(p, m0, m) && ExtendLayout(p, e, f, at) && m.pc == at + 8
    requires ExtendHolds(e, f, m.mem, a, b, |ys|, i) && Extending(xs, ys, m.mem.heap, a, b, i)
    ensures Reaches(p, m0, m') && m'.pc == at + 26 && m'.stack == m.stack
    ensures m'.mem.heap == m.mem.heap[a := xs + ys]
    ensures Touches(e, Ids(f), a, m.mem, m'.mem)
    decreases |ys| - i
  {
    hide Step, Run, Reaches, CodeAt, LoadSlot, StoreSlot, SlotAt, ExtendTop, ExtendCopy, ExtendNext, Touches;
    var m1 := RunExtendTop(p, e, f, m0, m, at, a, b, |ys|, i);
    if i < |ys| {
      var m2 := RunExtendCopy(p, e, f, m0, m1, at + 13, a, b, |ys|, i);
      var m3 := RunExtendNext(p, e, f, m0, m2, at + 21, at + 8, i);
      assert m3.mem == Put(e, m.mem.(heap := m2.mem.heap), f.s3, I64(i + 1));
      PutTouches(e, f, m.mem, f.s3, I64(i + 1), m2.mem.heap, a);
      assert ys[..i] + [ys[i]] == ys[..i + 1];
      assert xs + ys[..i] + [ys[i]] == xs + (ys[..i] + [ys[i]]);
      m' := RunExtendLoop(p, e, f, m0, m3, at, a, b, i + 1, xs, ys);
      TouchesTrans(e, Ids(f), a, m.mem, m3.mem, m'.mem);
    } else {
      m' := m1;
      assert ys[..i] == ys;
      TouchesSelf(e, Ids(f), a, m.mem);
    }
  }

  lemma TouchesSelf(e: Env, ids: seq<nat>, a: nat, mem: Memory)
    ensures Touches(e, ids, a, mem, mem)
  {
  }

  /** `xs.extend(ys)`: the emitted loop ends, and leaves `xs + ys` in the array,
      also when both operands are the same list. */
  lemma ListExtendWorks(l: Low, p: Program, m: State, a: nat, b: nat, below: Stack) returns (m': State)
    requires Within(CompListExtend(l), p) && m.pc == |l.code|
    requires m.stack == Push(Ref(b), Push(Ref(a), below)) && a < |m.mem.heap| && b < |m.mem.heap|
    ensures Reaches(p, m, m') && m'.pc == |CompListExtend(l).code| && m'.stack == below
    ensures m'.mem.heap == m.mem.heap[a := m.mem.heap[a] + m.mem.heap[b]]
    ensures Quiet(l, m.mem, m'.mem, {a})
  {
    hide RawPool.Valid, Step, Run, Reaches, CodeAt, Within, LoadSlot, StoreSlot, SlotAt, Overwritable, CompListExtend,
         Frame4At, Touches, Put4, ExtendEntry;
    var e, f, at := l.env, ExtendFrameAt(l), |l.code|;
    var xs, ys := m.mem.heap[a], m.mem.heap[b];
    ExtendPlaced(l, p);
    Frame4Apart(l, KindRef, KindRef, KindI64, KindI64);
    ReachesSelf(p, m);
    var m1 := RunExtendEntry(p, e, f, m, m, at, a, b, below);
    Put4Touches(e, f, m.mem, Ref(b), Ref(a), I64(|ys|), I64(0), a);
    assert xs + ys[..0] == xs;
    m' := RunExtendLoop(p, e, f, m, m1, at, a, b, 0, xs, ys);
    TouchesTrans(e, Ids(f), a, m.mem, m1.mem, m'.mem);
    TouchesQuiet(l, Ids(f), a, m.mem, m'.mem);
  }

  // list.reverse: slots list, low counter, high counter, carried element.

  function ReverseEntry(e: Env, f: Frame4): seq<Instr> {
    [StoreSlot(e, f.s0), I64Const(0), StoreSlot(e, f.s1), LoadSlot(e, f.s0), ArrayLen, I32ToI64, I64Const(1),
        I64Bin(I64Sub), StoreSlot(e, f.s2)]
  }

  function ReverseTop(e: Env, f: Frame4): seq<Instr> {
    [LoadSlot(e, f.s1), LoadSlot(e, f.s2), I64Cmp(Lt), I32Eqz, BrIf(f.done)]
  }

  function ReverseSave(e: Env, f: Frame4): seq<Instr> {
    [LoadSlot(e, f.s0), LoadSlot(e, f.s1), I64ToI32, ArrayGet, StoreSlot(e, f.s3)]
  }

  function ReverseDown(e: Env, f: Frame4): seq<Instr> {
    [LoadSlot(e, f.s0), LoadSlot(e, f.s1), I64ToI32, LoadSlot(e, f.s0), LoadSlot(e, f.s2), I64ToI32, ArrayGet, ArraySet]
  }

  function ReverseUp(e: Env, f: Frame4): seq<Instr> {
    [LoadSlot(e, f.s0), LoadSlot(e, f.s2), I64ToI32, LoadSlot(e, f.s3), ArraySet]
  }

  function ReverseNext(e: Env, f: Frame4): seq<Instr> {
    [LoadSlot(e, f.s1), I64Const(1), I64Bin(I64Add), StoreSlot(e, f.s1), LoadSlot(e, f.s2), I64Const(1),
        I64Bin(I64Sub), StoreSlot(e, f.s2), Br(f.top)]
  }

  function ReverseFrameAt(l: Low): Frame4 {
    Frame4At(l, KindRef, KindI64, KindI64, KindRef)
  }

  function CompListReverse(l: Low): Low {
    var e, f := l.env, ReverseFrameAt(l);
    var l1 := Emit(Slots4(l, KindRef, KindI64, KindI64, KindRef), ReverseEntry(e, f));
    var l2 := Bind(Labels(l1, 2), f.top);
    var l3 := Emit(Emit(Emit(l2, ReverseTop(e, f)), ReverseSave(e, f)), ReverseDown(e, f));
    Bind(Emit(Emit(l3, ReverseUp(e, f)), ReverseNext(e, f)), f.done)
  }

  ghost predicate ReverseLayout(p: Program, e: Env, f: Frame4, at: nat) {
    && CodeAt(p, at, ReverseEntry(e, f))
    && At(p, f.top, at + 9) && CodeAt(p, at + 9, ReverseTop(e, f))
    && CodeAt(p, at + 14, ReverseSave(e, f)) && CodeAt(p, at + 19, ReverseDown(e, f))
    && CodeAt(p, at + 27, ReverseUp(e, f)) && CodeAt(p, at + 32, ReverseNext(e, f))
    && At(p, f.done, at + 41)
  }

  lemma ReversePlaced(l: Low, p: Program)
    requires Within(CompListReverse(l), p)
    ensures ReverseLayout(p, l.env, ReverseFrameAt(l), |l.code|) && |CompListReverse(l).code| == |l.code| + 41
  {
    hide RawPool.Valid, CodeAt, Within, Reserve, Reserved, LoadSlot, StoreSlot, Slots4;
    var e, f := l.env, ReverseFrameAt(l);
    var l0 := Slots4(l, KindRef, KindI64, KindI64, KindRef);
    Frame4Apart(l, KindRef, KindI64, KindI64, KindRef);
    var l1 := Emit(l0, ReverseEntry(e, f));
    var l2 := Labels(l1, 2);
    var l3 := Bind(l2, f.top);
    var l4 := Emit(l3, ReverseTop(e, f));
    var l5 := Emit(l4, ReverseSave(e, f));
    var l6 := Emit(l5, ReverseDown(e, f));
    var l7 := Emit(l6, ReverseUp(e, f));
    var l8 := Emit(l7, ReverseNext(e, f));
    WithinBind(l8, f.done, p);
    WithinEmit(l7, ReverseNext(e, f), p);
    WithinEmit(l6, ReverseUp(e, f), p);
    WithinEmit(l5, ReverseDown(e, f), p);
    WithinEmit(l4, ReverseSave(e, f), p);
    WithinEmit(l3, ReverseTop(e, f), p);
    WithinBind(l2, f.top, p);
    WithinLabels(l1, 2, p);
    WithinEmit(l0, ReverseEntry(e, f), p);
  }

  predicate ReverseHolds(e: Env, f: Frame4, mem: Memory, a: nat, i: int, j: int) {
    SlotIs(e, mem, f.s0, Ref(a)) && SlotIs(e, mem, f.s1, I64(i)) && SlotIs(e, mem, f.s2, I64(j))
  }

  function Put3(e: Env, f: Frame4, mem: Memory, w0: Word, w1: Word, w2: Word): Memory {
    Put(e, Put(e, Put(e, mem, f.s0, w0), f.s1, w1), f.s2, w2)
  }

  lemma Put3Touches(e: Env, f: Frame4, mem: Memory, w0: Word, w1: Word, w2: Word, a: nat)
    requires Apart4(e, f)
    ensures var r := Put3(e, f, mem, w0, w1, w2);
            && SlotIs(e, r, f.s0, w0) && SlotIs(e, r, f.s1, w1) && SlotIs(e, r, f.s2, w2)
            && r.heap == mem.heap && Touches(e, Ids(f), a, mem, r)
  {
    hide SlotAt;
    var ids := Ids(f);
    assert ids[0] == f.s0 && ids[1] == f.s1 && ids[2] == f.s2;
  }

  lemma RunReverseEntry(p: Program, e: Env, f: Frame4, m0: State, m: State, at: nat, a: nat, below: Stack)
    returns (m': State)
    requires Apart4(e, f) && Reaches(p, m0, m) && CodeAt(p, at, ReverseEntry(e, f)) && m.pc == at
    requires m.stack == Push(Ref(a), below) && a < |m.mem.heap|
    ensures Reaches(p, m0, m')
    ensures m' == State(at + 9, below, Put3(e, f, m.mem, Ref(a), I64(0), I64(|m.mem.heap[a]| - 1)))
  {
    hide Step, Run, Reaches, CodeAt, LoadSlot, StoreSlot, SlotAt, Compute;
    var ins := ReverseEntry(e, f);
    var m1 := StoreScratch(p, m0, m, at, ins, 0, e, f.s0);
    var m2 := DoConst(p, m0, m1, at, ins, 1, 0);
    var m3 := StoreScratch(p, m0, m2, at, ins, 2, e, f.s1);
    var m4 := LoadScratch(p, m0, m3, at, ins, 3, e, f.s0);
    var m5 := DoLen(p, m0, m4, at, ins, 4, a, below);
    var m6 := DoConst(p, m0, m5, at, ins, 6, 1);
    var m7 := DoBin(p, m0, m6, at, ins, 7, I64Sub, |m.mem.heap[a]|, 1, below);
    m' := StoreScratch(p, m0, m7, at, ins, 8, e, f.s2);
  }

  lemma RunReverseTop(p: Program, e: Env, f: Frame4, m0: State, m: State, at: nat, a: nat, i: int, j: int)
    returns (m': State)
    requires Reaches(p, m0, m) && ReverseLayout(p, e, f, at) && m.pc == at + 9 && ReverseHolds(e, f, m.mem, a, i, j)
    ensures Reaches(p, m0, m') && m' == m.(pc := if i < j then at + 14 else at + 41)
  {
    hide Step, Run, Reaches, CodeAt, LoadSlot, StoreSlot, SlotAt, Compute;
    var ins := ReverseTop(e, f);
    var m1 := LoadScratch(p, m0, m, at + 9, ins, 0, e, f.s1);
    var m2 := LoadScratch(p, m0, m1, at + 9, ins, 1, e, f.s2);
    m' := DoTest(p, m0, m2, at + 9, ins, 2, Lt, i, j, m.stack);
  }

  lemma RunReverseSave(p: Program, e: Env, f: Frame4, m0: State, m: State, at: nat, a: nat, i: int, j: int)
    returns (m': State)
    requires Reaches(p, m0, m) && CodeAt(p, at, ReverseSave(e, f)) && m.pc == at && ReverseHolds(e, f, m.mem, a, i, j)
    requires a < |m.mem.heap| && 0 <= i < |m.mem.heap[a]|
    ensures Reaches(p, m0, m') && m' == m.(pc := at + 5, mem := Put(e, m.mem, f.s3, m.mem.heap[a][i]))
  {
    hide Step, Run, Reaches, CodeAt, LoadSlot, StoreSlot, SlotAt, Compute;
    var ins := ReverseSave(e, f);
    var m1 := LoadScratch(p, m0, m, at, ins, 0, e, f.s0);
    var m2 := LoadScratch(p, m0, m1, at, ins, 1, e, f.s1);
    var m3 := DoToI32(p, m0, m2, at, ins, 2, i, m1.stack);
    var m4 := DoGet(p, m0, m3, at, ins, 3, a, i, m.stack);
    m' := StoreScratch(p, m0, m4, at, ins, 4, e, f.s3);
  }

  lemma RunReverseDown(p: Program, e: Env, f: Frame4, m0: State, m: State, at: nat, a: nat, i: int, j: int)
    returns (m': State)
    requires Reaches(p, m0, m) && CodeAt(p, at, ReverseDown(e, f)) && m.pc == at && ReverseHolds(e, f, m.mem, a, i, j)
    requires a < |m.mem.heap| && 0 <= i < |m.mem.heap[a]| && 0 <= j < |m.mem.heap[a]|
    ensures Reaches(p, m0, m')
    ensures m' == m.(pc := at + 8, mem := m.mem.(heap := m.mem.heap[a := m.mem.heap[a][i := m.mem.heap[a][j]]]))
  {
    hide Step, Run, Reaches, CodeAt, LoadSlot, StoreSlot, SlotAt, Compute;
    var ins := ReverseDown(e, f);
    var m1 := LoadScratch(p, m0, m, at, ins, 0, e, f.s0);
    var m2 := LoadScratch(p, m0, m1, at, ins, 1, e, f.s1);
    var m3 := DoToI32(p, m0, m2, at, ins, 2, i, m1.stack);
    var m4 := LoadScratch(p, m0, m3, at, ins, 3, e, f.s0);
    var m5 := LoadScratch(p, m0, m4, at, ins, 4, e, f.s2);
    var m6 := DoToI32(p, m0, m5, at, ins, 5, j, m4.stack);
    var m7 := DoGet(p, m0, m6, at, ins, 6, a, j, m3.stack);
    m' := DoSet(p, m0, m7, at, ins, 7, a, i, m.mem.heap[a][j], m.stack);
  }

  lemma RunReverseUp(p: Program, e: Env, f: Frame4, m0: State, m: State, at: nat, a: nat, i: int, j: int, w: Word)
    returns (m': State)
    requires Reaches(p, m0, m) && CodeAt(p, at, ReverseUp(e, f)) && m.pc == at && ReverseHolds(e, f, m.mem, a, i, j)
      && SlotIs(e, m.mem, f.s3, w)
    requires a < |m.mem.heap| && 0 <= j < |m.mem.heap[a]|
    ensures Reaches(p, m0, m')
    ensures m' == m.(pc := at + 5, mem := m.mem.(heap := m.mem.heap[a := m.mem.heap[a][j := w]]))
  {
    hide Step, Run, Reaches, CodeAt, LoadSlot, StoreSlot, SlotAt, Compute;
    var ins := ReverseUp(e, f);
    var m1 := LoadScratch(p, m0, m, at, ins, 0, e, f.s0);
    var m2 := LoadScratch(p, m0, m1, at, ins, 1, e, f.s2);
    var m3 := DoToI32(p, m0, m2, at, ins, 2, j, m1.stack);
    var m4 := LoadScratch(p, m0, m3, at, ins, 3, e, f.s3);
    m' := DoSet(p, m0, m4, at, ins, 4, a, j, w, m.stack);
  }

  lemma RunReverseNext(p: Program, e: Env, f: Frame4, m0: State, m: State, at: nat, top: nat, a: nat, i: int, j: int)
    returns (m': State)
    requires Apart4(e, f) && Reaches(p, m0, m) && CodeAt(p, at, ReverseNext(e, f)) && m.pc == at && At(p, f.top, top)
      && ReverseHolds(e, f, m.mem, a, i, j)
    ensures Reaches(p, m0, m') && m' == m.(pc := top, mem := Put(e, Put(e, m.mem, f.s1, I64(i + 1)), f.s2, I64(j - 1)))
  {
    hide Step, Run, Reaches, CodeAt, LoadSlot, StoreSlot, SlotAt, Compute;
    var ins := ReverseNext(e, f);
    var m1 := LoadScratch(p, m0, m, at, ins, 0, e, f.s1);
    var m2 := DoConst(p, m0, m1, at, ins, 1, 1);
    var m3 := DoBin(p, m0, m2, at, ins, 2, I64Add, i, 1, m.stack);
    var m4 := StoreScratch(p, m0, m3, at, ins, 3, e, f.s1);
    var m5 := LoadScratch(p, m0, m4, at, ins, 4, e, f.s2);
    var m6 := DoConst(p, m0, m5, at, ins, 5, 1);
    var m7 := DoBin(p, m0, m6, at, ins, 6, I64Sub, j, 1, m.stack);
    var m8 := StoreScratch(p, m0, m7, at, ins, 7, e, f.s2);
    m' := Jump(p, m0, m8, at, ins, 8);
  }

  function Reversed(xs: seq<Word>): seq<Word> {
    seq(|xs|, t requires 0 <= t < |xs| => xs[|xs| - 1 - t])
  }

  /** Outside `i..j` the elements have changed places. */
  predicate Swapped(xs: seq<Word>, cs: seq<Word>, i: int, j: int) {
    && |cs| == |xs| && 0 <= i && j == |xs| - 1 - i && i <= j + 1
    && (forall t :: 0 <= t < |xs| ==> cs[t] == PartSwapped(xs, i, j, t))
  }

  function PartSwapped(xs: seq<Word>, i: int, j: int, t: int): Word
    requires 0 <= t < |xs|
  {
    if i <= t <= j then xs[t] else xs[|xs| - 1 - t]
  }

  lemma SwapOne(xs: seq<Word>, cs: seq<Word>, i: int, j: int)
    requires Swapped(xs, cs, i, j) && i < j
    ensures Swapped(xs, cs[i := cs[j]][j := cs[i]], i + 1, j - 1)
  {
    var ds := cs[i := cs[j]][j := cs[i]];
    forall t | 0 <= t < |xs| ensures ds[t] == PartSwapped(xs, i + 1, j - 1, t) {
      assert cs[t] == PartSwapped(xs, i, j, t);
      assert cs[i] == xs[i] && cs[j] == xs[j];
    }
  }

  lemma SwapDone(xs: seq<Word>, cs: seq<Word>, i: int, j: int)
    requires Swapped(xs, cs, i, j) && i >= j
    ensures cs == Reversed(xs)
  {
  }

  /** One pass of the loop. */
  lemma RunReversePass(p: Program, e: Env, f: Frame4, m0: State, m: State, at: nat, a: nat, i: int, j: int,
        xs: seq<Word>) returns (m': State)
    requires Apart4(e, f) && Reaches(p, m0, m) && ReverseLayout(p, e, f, at) && m.pc == at + 14
    requires ReverseHolds(e, f, m.mem, a, i, j) && a < |m.mem.heap| && Swapped(xs, m.mem.heap[a], i, j) && i < j
    ensures Reaches(p, m0, m') && m'.pc == at + 9 && m'.stack == m.stack && ReverseHolds(e, f, m'.mem, a, i + 1, j - 1)
    ensures |m'.mem.heap| == |m.mem.heap| && Swapped(xs, m'.mem.heap[a], i + 1, j - 1)
      && Touches(e, Ids(f), a, m.mem, m'.mem)
  {
    hide Step, Run, Reaches, CodeAt, LoadSlot, StoreSlot, SlotAt, ReverseSave, ReverseDown, ReverseUp, ReverseNext,
         Touches;
    var cs := m.mem.heap[a];
    var m1 := RunReverseSave(p, e, f, m0, m, at + 14, a, i, j);
    var m2 := RunReverseDown(p, e, f, m0, m1, at + 19, a, i, j);
    var m3 := RunReverseUp(p, e, f, m0, m2, at + 27, a, i, j, cs[i]);
    m' := RunReverseNext(p, e, f, m0, m3, at + 32, at + 9, a, i, j);
    SwapOne(xs, cs, i, j);
    PutTouches(e, f, m.mem, f.s3, cs[i], m3.mem.heap, a);
    PutTouches(e, f, m3.mem, f.s1, I64(i + 1), m3.mem.heap, a);
    var mem4 := Put(e, m3.mem, f.s1, I64(i + 1));
    PutTouches(e, f, mem4, f.s2, I64(j - 1), m3.mem.heap, a);
    TouchesTrans(e, Ids(f), a, m.mem, m3.mem, mem4);
    TouchesTrans(e, Ids(f), a, m.mem, mem4, m'.mem);
  }

  lemma {:induction false} RunReverseLoop(p: Program, e: Env, f: Frame4, m0: State, m: State, at: nat, a: nat,
        i: int, j: int, xs: seq<Word>) returns (m': State)
    requires Apart4(e, f) && Reaches(p, m0, m) && ReverseLayout(p, e, f, at) && m.pc == at + 9
    requires ReverseHolds(e, f, m.mem, a, i, j) && a < |m.mem.heap| && Swapped(xs, m.mem.heap[a], i, j)
    ensures Reaches(p, m0, m') && m'.pc == at + 41 && m'.stack == m.stack
    ensures |m'.mem.heap| == |m.mem.heap| && m'.mem.heap[a] == Reversed(xs) && Touches(e, Ids(f), a, m.mem, m'.mem)
    decreases j - i
  {
    hide Step, Run, Reaches, CodeAt, SlotAt, ReverseLayout, Touches, ReverseHolds, Swapped, Reversed;
    var m1 := RunReverseTop(p, e, f, m0, m, at, a, i, j);
    if i < j {
      var m2 := RunReversePass(p, e, f, m0, m1, at, a, i, j, xs);
      m' := RunReverseLoop(p, e, f, m0, m2, at, a, i + 1, j - 1, xs);
      TouchesTrans(e, Ids(f), a, m.mem, m2.mem, m'.mem);
    } else {
      m' := m1;
      SwapDone(xs, m.mem.heap[a], i, j);
      TouchesSelf(e, Ids(f), a, m.mem);
    }
  }

  /** `xs.reverse()`: the emitted loop ends, and leaves the reversal in the array. */
  lemma ListReverseWorks(l: Low, p: Program, m: State, a: nat, below: Stack) returns (m': State)
    requires Within(CompListReverse(l), p) && m.pc == |l.code| && m.stack == Push(Ref(a), below) && a < |m.mem.heap|
    ensures Reaches(p, m, m') && m'.pc == |CompListReverse(l).code| && m'.stack == below
    ensures m'.mem.heap == m.mem.heap[a := Reversed(m.mem.heap[a])]
    ensures Quiet(l, m.mem, m'.mem, {a})
  {
    hide RawPool.Valid, Step, Run, Reaches, CodeAt, Within, LoadSlot, StoreSlot, SlotAt, Overwritable,
         CompListReverse, Frame4At, Touches, Put3, ReverseEntry, Reversed;
    var e, f, at := l.env, ReverseFrameAt(l), |l.code|;
    var xs := m.mem.heap[a];
    ReversePlaced(l, p);
    Frame4Apart(l, KindRef, KindI64, KindI64, KindRef);
    ReachesSelf(p, m);
    var m1 := RunReverseEntry(p, e, f, m, m, at, a, below);
    Put3Touches(e, f, m.mem, Ref(a), I64(0), I64(|xs| - 1), a);
    m' := RunReverseLoop(p, e, f, m, m1, at, a, 0, |xs| - 1, xs);
    TouchesTrans(e, Ids(f), a, m.mem, m1.mem, m'.mem);
    TouchesHeap(e, Ids(f), a, m.mem, m'.mem);
    TouchesQuiet(l, Ids(f), a, m.mem, m'.mem);
  }

  lemma TouchesHeap(e: Env, ids: seq<nat>, a: nat, mem: Memory, mem': Memory)
    requires Touches(e, ids, a, mem, mem') && a < |mem.heap|
    ensures a < |mem'.heap| && mem'.heap == mem.heap[a := mem'.heap[a]]
  {
  }
}

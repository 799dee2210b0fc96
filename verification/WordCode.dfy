/** The emitted arithmetic on 64-bit words: the code of the floored quotient, of the
    remainder and of the counter loop, run by a machine that wraps around, computes
    what `Division64` and `Int64` say (operator/emit.go, compiler/lower_stmt.go). */
module WordCode {
  import opened Wrappers
  import opened IntMath
  import opened Int64
  import opened Machine
  import opened Lowering
  import opened Correspondence
  import Division64

  const MIN32: int := -0x8000_0000
  const MAX32: int := 0x7FFF_FFFF

  function Wrap32(x: int): (r: int)
    ensures MIN32 <= r <= MAX32 && (r == x <==> MIN32 <= x <= MAX32)
  {
    (x - MIN32) % 0x1_0000_0000 + MIN32
  }

  /** What an instruction leaves of its unbounded result: dividing the smallest word
      by minus one wraps too, and narrowing keeps the lower half. */
  function Cut(i: Instr, w: Word): Word {
    match w
    case I64(x) => if i.I64Bin? then I64(Wrap(x)) else w
    case I32(x) => if i.I64ToI32? || i.I32Sub? then I32(Wrap32(x)) else w
    case _ => w
  }

  /** The machine's straight-line instructions with results cut to a word. */
  function Compute64(i: Instr, m: State): Option<State> {
    match Compute(i, m)
    case Some(State(pc, Push(w, s), mem)) => Some(State(pc, Push(Cut(i, w), s), mem))
    case r => r
  }

  /** Runs code from its `k`-th instruction to its end. */
  function Exec(code: seq<Instr>, k: nat, m: State): Option<State>
    requires k <= |code|
    decreases |code| - k
  {
    if k == |code| then Some(m)
    else match Compute64(code[k], m) case None => None case Some(m1) => Exec(code, k + 1, m1)
  }

  predicate Has(code: seq<Instr>, at: nat, ins: seq<Instr>) {
    at + |ins| <= |code| && code[at..at + |ins|] == ins
  }

  predicate SlotHolds(env: Env, m: State, slot: nat, v: int) {
    SlotAt(env, slot) in m.mem.slots && m.mem.slots[SlotAt(env, slot)] == I64(v)
  }

  function Pushed(m: State, w: Word): State {
    m.(stack := Push(w, m.stack))
  }

  function Stored(env: Env, m: State, slot: nat, v: int): State {
    m.(mem := m.mem.(slots := m.mem.slots[SlotAt(env, slot) := I64(v)]))
  }

  lemma Instruction(code: seq<Instr>, at: nat, ins: seq<Instr>, j: nat, m: State, m1: State)
    requires Has(code, at, ins) && j < |ins| && Compute64(ins[j], m) == Some(m1)
    ensures Exec(code, at + j, m) == Exec(code, at + j + 1, m1)
  {
    assert code[at..at + |ins|][j] == code[at + j];
  }

  lemma Load(code: seq<Instr>, at: nat, ins: seq<Instr>, j: nat, env: Env, slot: nat, v: int, m: State)
    requires Has(code, at, ins) && j < |ins| && ins[j] == LoadSlot(env, slot) && SlotHolds(env, m, slot, v)
    ensures Exec(code, at + j, m) == Exec(code, at + j + 1, Pushed(m, I64(v)))
  {
    hide Has;
    Instruction(code, at, ins, j, m, Pushed(m, I64(v)));
  }

  lemma Store(code: seq<Instr>, at: nat, ins: seq<Instr>, j: nat, env: Env, slot: nat, v: int, m: State)
    requires Has(code, at, ins) && j < |ins| && ins[j] == StoreSlot(env, slot)
    ensures Exec(code, at + j, Pushed(m, I64(v))) == Exec(code, at + j + 1, Stored(env, m, slot, v))
  {
    hide Has;
    Instruction(code, at, ins, j, Pushed(m, I64(v)), Stored(env, m, slot, v));
  }

  lemma Bin(code: seq<Instr>, at: nat, ins: seq<Instr>, j: nat, op: I64Op, a: int, b: int, m: State)
    requires Has(code, at, ins) && j < |ins| && ins[j] == I64Bin(op) && Apply(op, a, b).Some?
    ensures Exec(code, at + j, Pushed(Pushed(m, I64(a)), I64(b))) ==
      Exec(code, at + j + 1, Pushed(m, I64(Wrap(Apply(op, a, b).value))))
  {
    hide Has, Apply;
    var m1 := Pushed(m, I64(Apply(op, a, b).value));
    assert Compute(ins[j], Pushed(Pushed(m, I64(a)), I64(b))) == Some(m1);
    Instruction(code, at, ins, j, Pushed(Pushed(m, I64(a)), I64(b)), Pushed(m, I64(Wrap(Apply(op, a, b).value))));
  }

  lemma Other(code: seq<Instr>, at: nat, ins: seq<Instr>, j: nat, m: State, m1: State)
    requires Has(code, at, ins) && j < |ins| && Compute(ins[j], m) == Some(m1)
    requires !ins[j].I64Bin? && !ins[j].I64ToI32? && !ins[j].I32Sub?
    ensures Exec(code, at + j, m) == Exec(code, at + j + 1, m1)
  {
    hide Has, Compute;
    Instruction(code, at, ins, j, m, m1);
  }

  // The quotient.

  lemma QuoRem(env: Env, x: nat, y: nat, rem: nat, quo: nat, a: int, b: int, code: seq<Instr>, at: nat, m: State)
    requires Has(code, at, QuoRemCode(env, x, y, rem, quo)) && Fits64(a) && Fits64(b) && b != 0
    requires SlotHolds(env, m, x, a) && SlotHolds(env, m, y, b)
    requires SlotAt(env, quo) != SlotAt(env, x) && SlotAt(env, quo) != SlotAt(env, y)
    ensures |QuoRemCode(env, x, y, rem, quo)| == 8
    ensures Exec(code, at, m) ==
      Exec(code, at + 8, Stored(env, Stored(env, m, quo, Wrap(TruncDiv(a, b))), rem, TruncRem(a, b)))
  {
    hide Has, Exec, TruncDiv, TruncRem, SlotAt, LoadSlot, StoreSlot, Wrap;
    var ins := QuoRemCode(env, x, y, rem, quo);
    var m1 := Pushed(m, I64(a));
    Load(code, at, ins, 0, env, x, a, m);
    Load(code, at, ins, 1, env, y, b, m1);
    Bin(code, at, ins, 2, I64DivS, a, b, m);
    Store(code, at, ins, 3, env, quo, Wrap(TruncDiv(a, b)), m);
    var m4 := Stored(env, m, quo, Wrap(TruncDiv(a, b)));
    Load(code, at, ins, 4, env, x, a, m4);
    Load(code, at, ins, 5, env, y, b, Pushed(m4, I64(a)));
    Bin(code, at, ins, 6, I64RemS, a, b, m4);
    Division64.TruncDivFits(a, b);
    assert Wrap(TruncRem(a, b)) == TruncRem(a, b);
    Store(code, at, ins, 7, env, rem, TruncRem(a, b), m4);
  }

  lemma Adjust(env: Env, x: nat, y: nat, rem: nat, a: int, b: int, code: seq<Instr>, at: nat, m: State)
    requires Has(code, at, AdjustCode(env, x, y, rem)) && Fits64(a) && Fits64(b) && b != 0
    requires SlotHolds(env, m, x, a) && SlotHolds(env, m, y, b) && SlotHolds(env, m, rem, TruncRem(a, b))
    ensures |AdjustCode(env, x, y, rem)| == 10
    ensures Exec(code, at, m) ==
      Exec(code, at + 10, Pushed(m, I64(if TruncRem(a, b) != 0 && Xor(a, b) < 0 then 1 else 0)))
  {
    hide Has, Exec, TruncRem, SlotAt, LoadSlot, StoreSlot, Wrap, Xor;
    var ins := AdjustCode(env, x, y, rem);
    var r := TruncRem(a, b);
    var m3 := Pushed(m, I1(r != 0));
    Load(code, at, ins, 0, env, rem, r, m);
    Other(code, at, ins, 1, Pushed(m, I64(r)), Pushed(Pushed(m, I64(r)), I64(0)));
    Other(code, at, ins, 2, Pushed(Pushed(m, I64(r)), I64(0)), m3);
    Signs(env, x, y, rem, a, b, code, at, m3);
    var m8 := Pushed(m3, I1(Xor(a, b) < 0));
    var m9 := Pushed(m, I1(r != 0 && Xor(a, b) < 0));
    Other(code, at, ins, 8, m8, m9);
    Other(code, at, ins, 9, m9, Pushed(m, I64(if r != 0 && Xor(a, b) < 0 then 1 else 0)));
  }

  lemma Signs(env: Env, x: nat, y: nat, rem: nat, a: int, b: int, code: seq<Instr>, at: nat, m: State)
    requires Has(code, at, AdjustCode(env, x, y, rem)) && Fits64(a) && Fits64(b)
    requires SlotHolds(env, m, x, a) && SlotHolds(env, m, y, b)
    ensures |AdjustCode(env, x, y, rem)| == 10
    ensures at + 10 <= |code| && Exec(code, at + 3, m) == Exec(code, at + 8, Pushed(m, I1(Xor(a, b) < 0)))
  {
    hide Exec, SlotAt, LoadSlot, StoreSlot, Wrap, Xor;
    var ins := AdjustCode(env, x, y, rem);
    Load(code, at, ins, 3, env, x, a, m);
    Load(code, at, ins, 4, env, y, b, Pushed(m, I64(a)));
    Bin(code, at, ins, 5, I64Xor, a, b, m);
    WordXor(a, b);
    var m6 := Pushed(m, I64(Xor(a, b)));
    Other(code, at, ins, 6, m6, Pushed(m6, I64(0)));
    Other(code, at, ins, 7, Pushed(m6, I64(0)), Pushed(m, I1(Xor(a, b) < 0)));
  }

  /** The exclusive or of two words is a word. */
  lemma WordXor(a: int, b: int)
    requires Fits64(a) && Fits64(b)
    ensures Wrap(Xor(a, b)) == Xor(a, b)
  {
    hide Xor, Power;
    WordPower();
    XorFits(a, b, 63);
  }

  lemma WordPower()
    ensures Power(63) == -MIN
  {
    assert Power(7) == 0x80;
    hide Power;
    PowerAdd(7, 7);
    PowerAdd(14, 7);
    PowerAdd(21, 21);
    PowerAdd(42, 21);
  }

  lemma {:induction false} PowerAdd(n: nat, m: nat)
    ensures Power(n + m) == Power(n) * Power(m)
  {
    if n > 0 {
      PowerAdd(n - 1, m);
    }
  }

  function Power(n: nat): int {
    if n == 0 then 1 else 2 * Power(n - 1)
  }

  lemma {:induction false} XorFits(a: int, b: int, n: nat)
    requires -Power(n) <= a < Power(n) && -Power(n) <= b < Power(n)
    ensures -Power(n) <= Xor(a, b) < Power(n)
    decreases n
  {
    if n > 0 {
      XorFits(a / 2, b / 2, n - 1);
    }
  }

  /** The emitted quotient, run on words, leaves `EmittedQuotient`. */
  lemma QuotientOnWords(env: Env, x: nat, y: nat, rem: nat, quo: nat, a: int, b: int, m: State) returns (m': State)
    requires Fits64(a) && Fits64(b) && b != 0 && SlotHolds(env, m, x, a) && SlotHolds(env, m, y, b)
    requires SlotAt(env, quo) != SlotAt(env, x) && SlotAt(env, quo) != SlotAt(env, y)
    requires SlotAt(env, rem) != SlotAt(env, x) && SlotAt(env, rem) != SlotAt(env, y)
      && SlotAt(env, rem) != SlotAt(env, quo)
    ensures Exec(FloorDivCode(env, x, y, rem, quo), 0, m) == Some(m')
    ensures m'.stack == Push(I64(Division64.EmittedQuotient(a, b)), m.stack)
  {
    hide Exec, TruncDiv, TruncRem, SlotAt, LoadSlot, StoreSlot, Wrap, Xor, QuoRemCode, AdjustCode;
    var code := FloorDivCode(env, x, y, rem, quo);
    var last := [LoadSlot(env, quo), Swap, I64Bin(I64Sub)];
    var q, r := Wrap(TruncDiv(a, b)), TruncRem(a, b);
    var c := if r != 0 && Xor(a, b) < 0 then 1 else 0;
    var m1 := Stored(env, Stored(env, m, quo, q), rem, r);
    Placed(code, QuoRemCode(env, x, y, rem, quo), AdjustCode(env, x, y, rem), last);
    QuoRem(env, x, y, rem, quo, a, b, code, 0, m);
    Adjust(env, x, y, rem, a, b, code, 8, m1);
    Load(code, 18, last, 0, env, quo, q, Pushed(m1, I64(c)));
    Other(code, 18, last, 1, Pushed(Pushed(m1, I64(c)), I64(q)), Pushed(Pushed(m1, I64(q)), I64(c)));
    Bin(code, 18, last, 2, I64Sub, q, c, m1);
    m' := Pushed(m1, I64(Wrap(q - c)));
    AtEnd(code, m');
  }

  lemma Placed(code: seq<Instr>, a: seq<Instr>, b: seq<Instr>, c: seq<Instr>)
    requires code == a + b + c
    ensures Has(code, 0, a) && Has(code, |a|, b) && Has(code, |a| + |b|, c)
  {
  }

  lemma AtEnd(code: seq<Instr>, m: State)
    ensures Exec(code, |code|, m) == Some(m)
  {
  }

  // The remainder.

  /** And the emitted remainder leaves `EmittedMod`: with the dividend on the stack
      and the divisor in its slot. */
  lemma ModuloOnWords(env: Env, d: nat, a: int, b: int, m: State)
    requires Fits64(a) && Fits64(b) && b != 0 && SlotHolds(env, m, d, b)
    ensures Exec(ModuloCode(env, d), 0, Pushed(m, I64(a))) == Some(Pushed(m, I64(Division64.EmittedMod(a, b))))
  {
    hide Exec, TruncDiv, TruncRem, SlotAt, LoadSlot, StoreSlot, Wrap;
    var code := ModuloCode(env, d);
    assert Has(code, 0, code);
    var r := TruncRem(a, b);
    var s := Wrap(r + b);
    Load(code, 0, code, 0, env, d, b, Pushed(m, I64(a)));
    Bin(code, 0, code, 1, I64RemS, a, b, m);
    Division64.TruncDivFits(a, b);
    assert Wrap(r) == r;
    Load(code, 0, code, 2, env, d, b, Pushed(m, I64(r)));
    Bin(code, 0, code, 3, I64Add, r, b, m);
    Load(code, 0, code, 4, env, d, b, Pushed(m, I64(s)));
    Bin(code, 0, code, 5, I64RemS, s, b, m);
    Division64.TruncDivFits(s, b);
    assert Wrap(TruncRem(s, b)) == TruncRem(s, b);
    AtEnd(code, Pushed(m, I64(TruncRem(s, b))));
  }

  // The counter loop.

  /** What a loop body must leave alone: the counter, the bound and the stack. */
  ghost predicate Keeps(env: Env, d: Driver, m: State, m': State)
    requires d.RangeDriver?
  {
    && m'.stack == m.stack
    && (forall i :: SlotHolds(env, m, d.index, i) ==> SlotHolds(env, m', d.index, i))
    && (forall i :: SlotHolds(env, m, d.limit, i) ==> SlotHolds(env, m', d.limit, i))
  }

  /** The emitted loop from its test on, with some body: it ends after binding
      exactly the values `out`. */
  ghost predicate Binds(env: Env, d: Driver, body: State -> State, m: State, out: seq<int>)
    requires d.RangeDriver?
    decreases |out|
  {
    match Exec(MoreCode(env, d), 0, m)
    case Some(State(_, Push(I1(more), _), _)) =>
      if more then
        && out != [] && SlotHolds(env, m, d.index, out[0])
        && var m1 := Exec(StepCode(env, d), 0, body(m));
           m1.Some? && Binds(env, d, body, m1.value, out[1..])
      else out == []
    case _ => false
  }

  lemma TestOnWords(env: Env, d: Driver, i: int, stop: int, m: State)
    requires d.RangeDriver? && SlotHolds(env, m, d.index, i) && SlotHolds(env, m, d.limit, stop)
    ensures Exec(MoreCode(env, d), 0, m) == Some(Pushed(m, I1(Goes(i, stop, d.step))))
  {
    hide Exec, SlotAt, LoadSlot;
    var code := MoreCode(env, d);
    assert Has(code, 0, code);
    Load(code, 0, code, 0, env, d.index, i, m);
    Load(code, 0, code, 1, env, d.limit, stop, Pushed(m, I64(i)));
    Other(code, 0, code, 2, Pushed(Pushed(m, I64(i)), I64(stop)), Pushed(m, I1(Goes(i, stop, d.step))));
    AtEnd(code, Pushed(m, I1(Goes(i, stop, d.step))));
  }

  lemma StepOnWords(env: Env, d: Driver, i: int, m: State)
    requires d.RangeDriver? && SlotHolds(env, m, d.index, i)
    ensures Exec(StepCode(env, d), 0, m) == Some(Stored(env, m, d.index, Wrap(i + d.step)))
  {
    hide Exec, SlotAt, LoadSlot, StoreSlot, Wrap;
    var code := StepCode(env, d);
    assert Has(code, 0, code);
    Load(code, 0, code, 0, env, d.index, i, m);
    Other(code, 0, code, 1, Pushed(m, I64(i)), Pushed(Pushed(m, I64(i)), I64(d.step)));
    Bin(code, 0, code, 2, I64Add, i, d.step, m);
    Store(code, 0, code, 3, env, d.index, Wrap(i + d.step), m);
    AtEnd(code, Stored(env, m, d.index, Wrap(i + d.step)));
  }

  /** The emitted counter loop on words binds what `LoopYields` says, whatever its
      body does. */
  lemma {:induction false} CounterOnWords(env: Env, d: Driver, body: State -> State, m: State, i: int, stop: int,
                                          out: seq<int>)
    requires d.RangeDriver? && SlotAt(env, d.index) != SlotAt(env, d.limit)
    requires forall s :: Keeps(env, d, s, body(s))
    requires SlotHolds(env, m, d.index, i) && SlotHolds(env, m, d.limit, stop)
    ensures Binds(env, d, body, m, out) <==> LoopYields(i, stop, d.step, out)
    decreases |out|
  {
    hide Exec, MoreCode, StepCode, Wrap;
    TestOnWords(env, d, i, stop, m);
    assert Keeps(env, d, m, body(m));
    StepOnWords(env, d, i, body(m));
    if Goes(i, stop, d.step) && out != [] {
      var m1 := Stored(env, body(m), d.index, Wrap(i + d.step));
      assert SlotHolds(env, m1, d.limit, stop);
      CounterOnWords(env, d, body, m1, Wrap(i + d.step), stop, out[1..]);
    }
  }
}

/** An abstract minivm: a program counter, an operand stack, global and local
    slots, a heap of arrays and structs, and a table from labels to positions.
    Integers are unbounded. An instruction that would trap has no successor. */
module Machine {
  import opened Wrappers
  import opened Syntax
  import opened IntMath
  import Semantics

  datatype Word = I64(i: int) | I32(n: int) | I1(b: bool) | Ref(a: nat)

  datatype Stack = Empty | Push(top: Word, below: Stack)

  datatype Slot = Global(i: nat) | Local(i: nat)

  /** The declared kind of a slot or of an array's elements. */
  datatype Kind = KindI1 | KindI32 | KindI64 | KindRef

  type Label = nat

  datatype I64Op = I64Add | I64Sub | I64Mul | I64DivS | I64RemS | I64Xor

  datatype Instr =
    | I64Const(c: int)
    | I32Const(c: int)
    | GlobalGet(k: nat)
    | GlobalSet(k: nat)
    | LocalGet(k: nat)
    | LocalSet(k: nat)
    | Dup
    | Swap
    | Drop
    | Nop
    | Br(l: Label)
    | BrIf(l: Label)
    | I64Bin(bin: I64Op)
    | I64Cmp(cmp: CmpOp)
    | I32Cmp(cmp: CmpOp)
    | I32Eqz
    | I32And
    | I32Sub
    | I32ToI64
    | I64ToI32
    | ArrayNewDefault(elem: Kind)
    | StructNewDefault(fields: seq<Kind>)
    | ArrayLen
    | ArrayGet
    | ArraySet
    | ArraySlice
    | ArrayAppend
    | StructGet
    | StructSet
    | Throw

  /** Code with the position each label was bound to. */
  datatype Program = Program(code: seq<Instr>, labels: seq<Option<nat>>)
  {
    predicate Bound(l: Label) {
      l < |labels| && labels[l].Some?
    }
  }

  type Heap = seq<seq<Word>>

  datatype Memory = Memory(slots: map<Slot, Word>, heap: Heap)

  datatype State = State(pc: nat, stack: Stack, mem: Memory)

  function Default(k: Kind): Word {
    match k
    case KindI1 => I1(false)
    case KindI32 => I32(0)
    case KindI64 => I64(0)
    case KindRef => Ref(0)
  }

  function Apply(op: I64Op, a: int, b: int): Option<int> {
    match op
    case I64Add => Some(a + b)
    case I64Sub => Some(a - b)
    case I64Mul => Some(a * b)
    case I64DivS => if b == 0 then None else Some(TruncDiv(a, b))
    case I64RemS => if b == 0 then None else Some(TruncRem(a, b))
    case I64Xor => Some(Xor(a, b))
  }

  function AsI32(w: Word): Option<int> {
    match w
    case I32(n) => Some(n)
    case I1(b) => Some(Semantics.BoolInt(b))
    case _ => None
  }

  /** Straight-line instructions: the new stack, slots and heap. */
  function Compute(i: Instr, m: State): Option<State> {
    match (i, m.stack)
    case (I64Const(n), s) => Some(m.(stack := Push(I64(n), s)))
    case (I32Const(n), s) => Some(m.(stack := Push(I32(n), s)))
    case (GlobalGet(k), s) =>
      if Global(k) in m.mem.slots then Some(m.(stack := Push(m.mem.slots[Global(k)], s))) else None
    case (LocalGet(k), s) =>
      if Local(k) in m.mem.slots then Some(m.(stack := Push(m.mem.slots[Local(k)], s))) else None
    case (GlobalSet(k), Push(w, s)) => Some(m.(stack := s, mem := m.mem.(slots := m.mem.slots[Global(k) := w])))
    case (LocalSet(k), Push(w, s)) => Some(m.(stack := s, mem := m.mem.(slots := m.mem.slots[Local(k) := w])))
    case (Dup, Push(w, s)) => Some(m.(stack := Push(w, Push(w, s))))
    case (Swap, Push(w, Push(v, s))) => Some(m.(stack := Push(v, Push(w, s))))
    case (Drop, Push(_, s)) => Some(m.(stack := s))
    case (Nop, _) => Some(m)
    case (I64Bin(op), Push(I64(b), Push(I64(a), s))) =>
      (match Apply(op, a, b) case Some(c) => Some(m.(stack := Push(I64(c), s))) case None => None)
    case (I64Cmp(op), Push(I64(b), Push(I64(a), s))) =>
      Some(m.(stack := Push(I1(Semantics.CmpInts(op, a, b)), s)))
    case (I32Cmp(op), Push(w, Push(v, s))) =>
      (match (AsI32(v), AsI32(w))
       case (Some(a), Some(b)) => Some(m.(stack := Push(I1(Semantics.CmpInts(op, a, b)), s)))
       case _ => None)
    case (I32Eqz, Push(w, s)) =>
      (match AsI32(w) case Some(a) => Some(m.(stack := Push(I1(a == 0), s))) case None => None)
    case (I32And, Push(I1(b), Push(I1(a), s))) => Some(m.(stack := Push(I1(a && b), s)))
    case (I32Sub, Push(I32(b), Push(I32(a), s))) => Some(m.(stack := Push(I32(a - b), s)))
    case (I32ToI64, Push(w, s)) =>
      (match AsI32(w) case Some(a) => Some(m.(stack := Push(I64(a), s))) case None => None)
    case (I64ToI32, Push(I64(a), s)) => Some(m.(stack := Push(I32(a), s)))
    case (ArrayNewDefault(k), Push(I32(n), s)) =>
      if n < 0 then None
      else Some(m.(stack := Push(Ref(|m.mem.heap|), s), mem := m.mem.(heap := m.mem.heap + [seq(n, _ => Default(k))])))
    case (StructNewDefault(ks), s) =>
      Some(m.(stack := Push(Ref(|m.mem.heap|), s),
              mem := m.mem.(heap := m.mem.heap + [seq(|ks|, i requires 0 <= i < |ks| => Default(ks[i]))])))
    case (ArrayLen, Push(Ref(a), s)) =>
      if a < |m.mem.heap| then Some(m.(stack := Push(I32(|m.mem.heap[a]|), s))) else None
    case (ArrayGet, Push(I32(n), Push(Ref(a), s))) => Load(m, a, n, s)
    case (StructGet, Push(I32(n), Push(Ref(a), s))) => Load(m, a, n, s)
    case (ArraySet, Push(w, Push(I32(n), Push(Ref(a), s)))) => StoreCell(m, a, n, w, s)
    case (StructSet, Push(w, Push(I32(n), Push(Ref(a), s)))) => StoreCell(m, a, n, w, s)
    case (ArraySlice, Push(I32(hi), Push(I32(lo), Push(Ref(a), s)))) =>
      if a < |m.mem.heap| && 0 <= lo <= hi <= |m.mem.heap[a]|
      then Some(m.(stack := Push(Ref(|m.mem.heap|), s), mem := m.mem.(heap := m.mem.heap + [m.mem.heap[a][lo..hi]])))
      else None
    case (ArrayAppend, Push(I32(1), Push(w, Push(Ref(a), s)))) =>
      if a < |m.mem.heap|
      then Some(m.(stack := Push(Ref(a), s), mem := m.mem.(heap := m.mem.heap[a := m.mem.heap[a] + [w]])))
      else None
    case _ => None
  }

  function Load(m: State, a: nat, n: int, s: Stack): Option<State> {
    if a < |m.mem.heap| && 0 <= n < |m.mem.heap[a]|
    then Some(m.(stack := Push(m.mem.heap[a][n], s)))
    else None
  }

  function StoreCell(m: State, a: nat, n: int, w: Word, s: Stack): Option<State> {
    if a < |m.mem.heap| && 0 <= n < |m.mem.heap[a]|
    then Some(m.(stack := s, mem := m.mem.(heap := m.mem.heap[a := m.mem.heap[a][n := w]])))
    else None
  }

  function Step(p: Program, m: State): Option<State> {
    if m.pc >= |p.code| then None
    else
      match p.code[m.pc]
      case Br(l) => if p.Bound(l) then Some(m.(pc := p.labels[l].value)) else None
      case BrIf(l) =>
        (match m.stack
         case Push(w, s) =>
           (match AsI32(w)
            case Some(a) =>
              if a == 0 then Some(m.(pc := m.pc + 1, stack := s))
              else if p.Bound(l) then Some(m.(pc := p.labels[l].value, stack := s))
              else None
            case None => None)
         case Empty => None)
      case i =>
        (match Compute(i, m) case Some(m') => Some(m'.(pc := m.pc + 1)) case None => None)
  }

  function Run(p: Program, m: State, n: nat): Option<State>
    decreases n
  {
    if n == 0 then Some(m)
    else match Step(p, m) case None => None case Some(m') => Run(p, m', n - 1)
  }

  ghost predicate Reaches(p: Program, a: State, b: State) {
    exists n: nat :: Run(p, a, n) == Some(b)
  }

  lemma {:induction false} RunTrans(p: Program, a: State, n: nat, b: State, k: nat)
    requires Run(p, a, n) == Some(b)
    ensures Run(p, a, n + k) == Run(p, b, k)
    decreases n
  {
    if n > 0 {
      RunTrans(p, Step(p, a).value, n - 1, b, k);
    }
  }

  lemma ReachesTrans(p: Program, a: State, b: State, c: State)
    requires Reaches(p, a, b) && Reaches(p, b, c)
    ensures Reaches(p, a, c)
  {
    var n: nat :| Run(p, a, n) == Some(b);
    var k: nat :| Run(p, b, k) == Some(c);
    RunTrans(p, a, n, b, k);
  }

  lemma ReachesSelf(p: Program, a: State)
    ensures Reaches(p, a, a)
  {
    assert Run(p, a, 0) == Some(a);
  }

  /** The machine is deterministic, so a run reaches at most one state at a
      position from which it cannot continue. */
  lemma {:induction false} HaltsInOneState(p: Program, a: State, b: State, c: State)
    requires Reaches(p, a, b) && Step(p, b).None?
    requires Reaches(p, a, c) && Step(p, c).None?
    ensures b == c
  {
    var n: nat :| Run(p, a, n) == Some(b);
    var k: nat :| Run(p, a, k) == Some(c);
    if n <= k {
      RunTrans(p, a, n, b, k - n);
    } else {
      RunTrans(p, a, k, c, n - k);
    }
  }
}

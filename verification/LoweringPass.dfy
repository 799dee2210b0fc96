/** The lowerer as the compiler runs it: an object whose methods append
    instructions, hand out and bind labels, reserve and release scratch slots and
    push and pop loops (compiler/lower.go, compiler/lower_expr.go,
    compiler/lower_stmt.go). Each method takes the lowering state exactly where
    the function of module `Lowering` takes it. */
module LoweringPass {
  import opened Wrappers
  import opened Syntax
  import opened Typing
  import opened Machine
  import opened ScratchPool
  import opened Lowering

  class Lowerer {
    const env: Env
    var code: seq<Instr>
    var labels: seq<Option<nat>>
    var scratch: seq<Kind>
    var free: map<Kind, seq<nat>>
    var live: seq<nat>
    var open: seq<nat>
    var loops: seq<Loop>

    ghost predicate Valid()
      reads this
    {
      RawPool(scratch, free, live, open).Valid()
    }

    ghost function Model(): (l: Low)
      reads this
      requires Valid()
      ensures l.env == env && l.loops == loops
    {
      Low(env, code, labels, RawPool(scratch, free, live, open), loops)
    }

    constructor (env: Env)
      ensures Valid() && this.env == env && Model() == Start(env)
    {
      this.env := env;
      code, labels, scratch, free, live, open, loops := [], [], [], map[], [], [], [];
    }

    // Code and labels.

    method EmitAll(ins: seq<Instr>)
      requires Valid()
      modifies this`code
      ensures Valid() && Model() == Emit(old(Model()), ins) && Model().Next() == old(Model()).Next()
    {
      code := code + ins;
    }

    method NewLabels(n: nat) returns (first: Label)
      requires Valid()
      modifies this`labels
      ensures Valid() && Model() == Labels(old(Model()), n)
      ensures first == old(Model()).Next() && Model().Next() == first + n
    {
      first := |labels|;
      labels := labels + seq(n, _ => None);
    }

    method BindLabel(x: Label)
      requires Valid() && x < Model().Next()
      modifies this`labels
      ensures Valid() && Model() == Bind(old(Model()), x) && Model().Next() == old(Model()).Next()
    {
      labels := labels[x := Some(|code|)];
    }

    // Scratch.

    /** Takes a released slot of the kind, the last released first. */
    method Reuse(kind: Kind) returns (idx: Option<nat>)
      modifies this`free
      ensures var pool := FreeIn(old(free), kind);
              if |pool| == 0 then idx == None && free == old(free)
              else idx == Some(pool[|pool| - 1]) && free == old(free)[kind := pool[..|pool| - 1]]
    {
      var pool := if kind in free then free[kind] else [];
      if |pool| == 0 {
        return None;
      }
      idx := Some(pool[|pool| - 1]);
      free := free[kind := pool[..|pool| - 1]];
    }

    method ReserveTmp(kind: Kind) returns (slot: nat)
      requires Valid()
      modifies this`scratch, this`free, this`live
      ensures Valid() && Model() == Reserve(old(Model()), kind) && slot == Reserved(old(Model()), kind)
    {
      ghost var pool: Pool := RawPool(scratch, free, live, open);
      TmpValid(pool, kind);
      var reused := Reuse(kind);
      var idx: nat;
      if reused.Some? {
        idx := reused.value;
      } else {
        idx := |scratch|;
        scratch := scratch + [kind];
      }
      live := live + [idx];
      slot := env.names + env.base + idx;
    }

    method EnterScratch()
      requires Valid()
      modifies this`open
      ensures Valid() && Model() == EnterScope(old(Model()))
    {
      ghost var entered := Enter(Model().pool);
      open := open + [|live|];
    }

    method LeaveScratch()
      requires Valid()
      modifies this`open, this`free, this`live
      ensures Valid() && Model() == LeaveScope(old(Model()))
    {
      hide RawPool.LiveValid, RawPool.FreeValid, RawPool.Covered, RawPool.MarksValid;
      if open == [] {
        return;
      }
      ghost var pool: Pool := RawPool(scratch, free, live, open);
      LeaveValid(pool);
      MarkBelow(pool);
      var mark := open[|open| - 1];
      open := open[..|open| - 1];
      var freed := live[mark..];
      for i := 0 to |freed|
        modifies this`free
        invariant Release(scratch, free, freed[i..]) == Release(scratch, old(free), freed)
      {
        var idx := freed[i];
        var kind := scratch[idx];
        assert freed[i..][1..] == freed[i + 1..];
        free := free[kind := (if kind in free then free[kind] else []) + [idx]];
      }
      live := live[..mark];
    }

    method SlotFor(e: Expr) returns (slot: nat)
      requires Valid()
      modifies this`scratch, this`free, this`live
      ensures Valid() && Model() == Reserve(old(Model()), ExprKind(env, e))
        && slot == Reserved(old(Model()), ExprKind(env, e))
    {
      slot := ReserveTmp(ExprKind(env, e));
    }

    method PushLoopLabels(cont: Label, brk: Label)
      requires Valid()
      modifies this`loops
      ensures Valid() && Model() == PushLoop(old(Model()), cont, brk)
    {
      loops := loops + [Loop(cont, brk)];
    }

    method PopLoopLabels()
      requires Valid() && loops != []
      modifies this`loops
      ensures Valid() && Model() == PopLoop(old(Model()))
    {
      loops := loops[..|loops| - 1];
    }

    // Expressions.

    method EmitExpr(e: Expr)
      requires Valid()
      modifies this
      ensures Valid() && Model() == CompExpr(e, old(Model()))
      ensures old(Model()).Next() <= Model().Next()
      decreases e, 2
    {
      hide Valid, Model, RawPool.Valid, CompBinary, CompCompare, CompBoolOp, CompIfExp, CompElems, LoadName;
      match e
      case IntLit(n) => EmitAll([I64Const(n)]);
      case BoolLit(b) => EmitAll([I32Const(if b then 1 else 0), I32Const(0), I32Cmp(Ne)]);
      case Name(x) => EmitAll(LoadName(env, x));
      case Neg(arg) =>
        EmitAll([I64Const(0)]);
        EmitExpr(arg);
        EmitAll([I64Bin(I64Sub)]);
      case Pos(arg) => EmitExpr(arg);
      case Invert(arg) =>
        EmitExpr(arg);
        EmitAll([I64Const(-1), I64Bin(I64Xor)]);
      case Not(arg) =>
        EmitExpr(arg);
        EmitAll([I32Eqz]);
      case Binary(_, _, _) => EmitBinary(e);
      case Compare(_, _, _) => EmitCompare(e);
      case BoolOp(_, _, _) => EmitBoolOp(e);
      case IfExp(_, _, _) => EmitIfExp(e);
      case TupleLit(_) => EmitTuple(e);
      case ListLit(_, _) => EmitList(e);
    }

    method EmitTuple(e: Expr)
      requires Valid() && e.TupleLit?
      modifies this
      ensures Valid() && Model() == CompExpr(e, old(Model()))
      decreases e, 1
    {
      hide Valid, Model, RawPool.Valid, Emit, CompElems;
      var ts := TypesOf(env.types, e.elems);
      EmitAll([StructNewDefault(if ts.Some? then KindsOf(ts.value) else [])]);
      EmitElems(e.elems, StructSet);
    }

    method EmitList(e: Expr)
      requires Valid() && e.ListLit?
      modifies this
      ensures Valid() && Model() == CompExpr(e, old(Model()))
      decreases e, 1
    {
      hide Valid, Model, RawPool.Valid, Emit, CompElems;
      EmitAll([I32Const(|e.elems|), ArrayNewDefault(KindOf(Some(e.elem)))]);
      EmitElems(e.elems, ArraySet);
    }

    method EmitInto(e: Expr, slot: nat)
      requires Valid()
      modifies this
      ensures Valid() && Model() == CompInto(e, slot, old(Model()))
      ensures old(Model()).Next() <= Model().Next()
      decreases e, 3
    {
      hide Valid, Model, RawPool.Valid, CompExpr;
      EmitExpr(e);
      EmitAll([StoreSlot(env, slot)]);
    }

    method EmitElems(es: seq<Expr>, set_: Instr)
      requires Valid()
      modifies this
      ensures Valid() && Model() == CompElems(es, 0, set_, old(Model()))
      decreases es, 0
    {
      hide Valid, Model, RawPool.Valid, CompExpr;
      assert es[0..] == es;
      for i := 0 to |es|
        invariant Valid() && CompElems(es[i..], i, set_, Model()) == CompElems(es, 0, set_, old(Model()))
      {
        assert es[i..][0] == es[i] && es[i..][1..] == es[i + 1..];
        EmitAll([Dup, I32Const(i)]);
        EmitExpr(es[i]);
        EmitAll([set_]);
      }
    }

    method EmitBinary(e: Expr)
      requires Valid() && e.Binary?
      modifies this
      ensures Valid() && Model() == CompBinary(e.op, e.left, e.right, old(Model()))
      decreases e, 1
    {
      hide Valid, Model, RawPool.Valid, CompExpr;
      match e.op
      case FloorDivide => EmitFloorDiv(e);
      case Modulo => EmitModulo(e);
      case _ =>
        EmitExpr(e.left);
        EmitExpr(e.right);
        EmitAll([BinInstr(e.op)]);
    }

    method EmitFloorDiv(e: Expr)
      requires Valid() && e.Binary?
      modifies this
      ensures Valid() && Model() == CompFloorDiv(e.left, e.right, old(Model()))
      decreases e, 0
    {
      hide Valid, Model, Emit, RawPool.Valid, CompExpr, FloorDivCode, Grows, Reserve, Reserved, StoreSlot;
      var a := ReserveTmp(KindI64);
      var b := ReserveTmp(KindI64);
      var rem := ReserveTmp(KindI64);
      EmitInto(e.left, a);
      EmitInto(e.right, b);
      var quo := ReserveTmp(KindI64);
      EmitAll(FloorDivCode(env, a, b, rem, quo));
    }

    method EmitModulo(e: Expr)
      requires Valid() && e.Binary?
      modifies this
      ensures Valid() && Model() == CompModulo(e.left, e.right, old(Model()))
      decreases e, 0
    {
      hide Valid, Model, Emit, RawPool.Valid, CompExpr, ModuloCode;
      var d := ReserveTmp(KindI64);
      EmitInto(e.right, d);
      EmitExpr(e.left);
      EmitAll(ModuloCode(env, d));
    }

    /** One slot for each carried operand; each is evaluated once. */
    method EmitCompare(e: Expr)
      requires Valid() && e.Compare?
      modifies this
      ensures Valid() && Model() == CompCompare(e.first, e.ops, e.rest, old(Model()))
      decreases e, 0
    {
      hide Valid, Model, RawPool.Valid, CompExpr, LinkCode, CmpInstr;
      var first, ops, rest := e.first, e.ops, e.rest;
      if |ops| != |rest| || ops == [] {
        return;
      }
      if |ops| == 1 {
        EmitExpr(first);
        EmitExpr(rest[0]);
        EmitAll([CmpInstr(ops[0], TypeOf(env.types, first))]);
        return;
      }
      var slot := SlotFor(first);
      var end := NewLabels(1);
      EmitExpr(first);
      EmitAll([StoreSlot(env, slot)]);
      ghost var chain := CompChain(slot, first, ops, rest, end, Model());
      var left := first;
      assert ops[0..] == ops && rest[0..] == rest;
      for i := 0 to |ops|
        invariant Valid() && if i < |ops| then CompChain(slot, left, ops[i..], rest[i..], end, Model()) == chain
          else Model() == chain
      {
        assert ops[i..][1..] == ops[i + 1..] && rest[i..][1..] == rest[i + 1..];
        EmitAll([LoadSlot(env, slot)]);
        EmitExpr(rest[i]);
        var cmp := CmpInstr(ops[i], TypeOf(env.types, left));
        if i + 1 < |ops| {
          slot := SlotFor(rest[i]);
          EmitAll(LinkCode(env, slot, cmp, end));
        } else {
          EmitAll([cmp]);
        }
        left := rest[i];
      }
      BindLabel(end);
    }

    method EmitBoolOp(e: Expr)
      requires Valid() && e.BoolOp?
      modifies this
      ensures Valid() && Model() == CompBoolOp(e.isAnd, e.left, e.right, old(Model()))
      decreases e, 0
    {
      hide Valid, Model, Emit, Labels, Bind, Low.Next, Grows, RawPool.Valid, CompExpr;
      EmitExpr(e.left);
      EmitAll([Dup]);
      if e.isAnd {
        var eval := NewLabels(2);
        var end := eval + 1;
        EmitAll([BrIf(eval), Br(end)]);
        BindLabel(eval);
        EmitAll([Drop]);
        EmitExpr(e.right);
        BindLabel(end);
      } else {
        var end := NewLabels(1);
        EmitAll([BrIf(end), Drop]);
        EmitExpr(e.right);
        BindLabel(end);
      }
    }

    method EmitIfExp(e: Expr)
      requires Valid() && e.IfExp?
      modifies this
      ensures Valid() && Model() == CompIfExp(e.body, e.cond, e.orelse, old(Model()))
      decreases e, 0
    {
      hide Valid, Model, Emit, Labels, Bind, Low.Next, Grows, RawPool.Valid, CompExpr;
      EmitExpr(e.cond);
      var trueL := NewLabels(2);
      EmitAll([BrIf(trueL)]);
      EmitExpr(e.orelse);
      EmitAll([Br(trueL + 1)]);
      BindLabel(trueL);
      EmitExpr(e.body);
      BindLabel(trueL + 1);
    }

    // Patterns.

    method BindSlot(x: string, slot: nat)
      requires Valid()
      modifies this`code
      ensures Valid() && Model() == CompBindSlot(x, slot, old(Model()))
    {
      if Binds(x) {
        EmitAll([LoadSlot(env, slot)] + StoreName(env, x));
      }
    }

    method EmitPatternTest(p: Pattern, slot: nat, t: Type, next: Label)
      requires Valid()
      modifies this
      ensures Valid() && Model() == CompPat(p, slot, t, next, old(Model()))
      ensures old(Model()).Next() <= Model().Next()
      decreases p, 2
    {
      hide Valid, Model, RawPool.Valid, CompExpr, CompAlts, CompBindSlot, CompTuplePat, CompListPat;
      match p
      case Wildcard =>
      case Capture(x) => BindSlot(x, slot);
      case As(pat, x) =>
        EmitPatternTest(pat, slot, t, next);
        BindSlot(x, slot);
      case Or(alts) =>
        var succ := NewLabels(1);
        EmitAlts(alts, slot, t, succ);
        EmitAll([Br(next)]);
        BindLabel(succ);
      case ValuePat(lit) =>
        EmitAll([LoadSlot(env, slot)]);
        EmitExpr(lit);
        EmitAll([CmpInstr(Eq, Some(t)), I32Eqz, BrIf(next)]);
      case SeqPat(_, _, _) =>
        match t
        case TTuple(ts) => EmitTupleTest(p, slot, ts, next);
        case TList(elem) => EmitListTest(p, slot, elem, next);
        case _ =>
    }

    method EmitAlts(alts: seq<Pattern>, slot: nat, t: Type, succ: Label)
      requires Valid()
      modifies this
      ensures Valid() && Model() == CompAlts(alts, slot, t, succ, old(Model()))
      ensures old(Model()).Next() <= Model().Next()
      decreases alts, 0
    {
      hide Valid, Model, Emit, Labels, Bind, Low.Next, Grows, RawPool.Valid, CompPat;
      assert alts[0..] == alts;
      for i := 0 to |alts|
        invariant Valid() && old(Model()).Next() <= Model().Next()
        invariant CompAlts(alts[i..], slot, t, succ, Model()) == CompAlts(alts, slot, t, succ, old(Model()))
      {
        assert alts[i..][0] == alts[i] && alts[i..][1..] == alts[i + 1..];
        var altNext := NewLabels(1);
        EmitPatternTest(alts[i], slot, t, altNext);
        EmitAll([Br(succ)]);
        BindLabel(altNext);
      }
    }

    method EmitTupleTest(p: Pattern, slot: nat, ts: seq<Type>, next: Label)
      requires Valid() && p.SeqPat?
      modifies this
      ensures Valid() && Model() == CompTuplePat(p, slot, ts, next, old(Model()))
      decreases p, 1
    {
      hide Valid, Model, RawPool.Valid, CompPat, CompChildren, RestCode, CopyCode, StoreName;
      var b, a := |p.before|, |p.after|;
      if b + a > |ts| {
        return;
      }
      var n := |ts| - a;
      EmitChildren(p.before, Fronts(0, b), ts[..b], slot, true, next);
      EmitChildren(p.after, Fronts(n, a), ts[n..], slot, true, next);
      if p.star.Some? && Binds(p.star.value) {
        EmitRestList(slot, b, ts[b..n]);
        EmitAll(StoreName(env, p.star.value));
        EmitTwice(RestCode(env, slot, b, ts[b..n]), StoreName(env, p.star.value));
      }
    }

    method EmitListTest(p: Pattern, slot: nat, elem: Type, next: Label)
      requires Valid() && p.SeqPat?
      modifies this
      ensures Valid() && Model() == CompListPat(p, slot, elem, next, old(Model()))
      decreases p, 1
    {
      hide Valid, Model, RawPool.Valid, CompPat, CompChildren, SliceCode, LengthGuardCode, StoreName;
      var b, a := |p.before|, |p.after|;
      EmitAll(LengthGuardCode(env, slot, p.star.None?, b + a, next));
      EmitChildren(p.before, Fronts(0, b), Copies(elem, b), slot, false, next);
      EmitChildren(p.after, Backs(a), Copies(elem, a), slot, false, next);
      if p.star.Some? && Binds(p.star.value) {
        EmitAll(SliceCode(env, slot, b, a) + StoreName(env, p.star.value));
      }
    }

    method EmitChildren(ps: seq<Pattern>, fs: seq<Fetch>, ts: seq<Type>, slot: nat, isTuple: bool, next: Label)
      requires Valid() && |ps| == |fs| == |ts|
      modifies this
      ensures Valid() && Model() == CompChildren(ps, fs, ts, slot, isTuple, next, old(Model()))
      decreases ps, 0
    {
      hide Valid, Model, RawPool.Valid, CompPat, FetchCode;
      assert ps[0..] == ps && fs[0..] == fs && ts[0..] == ts;
      for i := 0 to |ps|
        invariant Valid() && CompChildren(ps[i..], fs[i..], ts[i..], slot, isTuple, next, Model()) ==
          CompChildren(ps, fs, ts, slot, isTuple, next, old(Model()))
      {
        assert ps[i..][0] == ps[i] && ps[i..][1..] == ps[i + 1..];
        assert fs[i..][0] == fs[i] && fs[i..][1..] == fs[i + 1..];
        assert ts[i..][0] == ts[i] && ts[i..][1..] == ts[i + 1..];
        var child := ReserveTmp(KindOf(Some(ts[i])));
        EmitAll(FetchCode(env, slot, isTuple, fs[i]) + [StoreSlot(env, child)]);
        EmitPatternTest(ps[i], child, ts[i], next);
      }
    }

    method EmitRestList(slot: nat, from: nat, ts: seq<Type>)
      requires Valid()
      modifies this`code
      ensures Valid() && Model() == Emit(old(Model()), RestCode(env, slot, from, ts))
    {
      hide RawPool.Valid, CopyOneCode;
      EmitAll([I32Const(|ts|), ArrayNewDefault(if ts == [] then KindRef else KindOf(Some(ts[0])))]);
      ghost var head := code;
      for i := 0 to |ts|
        invariant Valid() && code + CopyCode(env, slot, from, i, |ts|) == head + CopyCode(env, slot, from, 0, |ts|)
      {
        EmitAll(CopyOneCode(env, slot, from, i));
      }
      assert code == code + CopyCode(env, slot, from, |ts|, |ts|);
      assert code == old(code) + RestCode(env, slot, from, ts);
    }

    lemma EmitTwice(a: seq<Instr>, b: seq<Instr>)
      ensures forall l: Low :: Emit(Emit(l, a), b) == Emit(l, a + b)
    {
      forall l: Low ensures Emit(Emit(l, a), b) == Emit(l, a + b) {
        assert l.code + a + b == l.code + (a + b);
      }
    }

    // Statements.

    method EmitBlock(ss: seq<Stmt>)
      requires Valid()
      modifies this
      ensures Valid() && Model() == CompBlock(ss, old(Model()))
      ensures old(Model()).Next() <= Model().Next()
      decreases ss, 3
    {
      hide Valid, Model, RawPool.Valid, CompStmt;
      assert ss[0..] == ss;
      for i := 0 to |ss|
        invariant Valid() && CompBlock(ss[i..], Model()) == CompBlock(ss, old(Model()))
      {
        assert ss[i..][0] == ss[i] && ss[i..][1..] == ss[i + 1..];
        EmitStmt(ss[i]);
      }
    }

    method EmitStmt(s: Stmt)
      requires Valid()
      modifies this
      ensures Valid() && Model() == CompStmt(s, old(Model()))
      decreases s, 2
    {
      hide Valid, Model, RawPool.Valid, CompBody;
      if !env.protected {
        EnterScratch();
      }
      EmitBody(s);
      if !env.protected {
        LeaveScratch();
      }
    }

    method EmitBody(s: Stmt)
      requires Valid()
      modifies this
      ensures Valid() && Model() == CompBody(s, old(Model()))
      decreases s, 1
    {
      hide Valid, Model, RawPool.Valid, CompExpr, CompBinary, CompIf, CompWhile, CompRangeFor, CompForEach, CompMatch,
           CompStash, Stashed, UnstashCode, UnpackCode, ChainCode;
      match s
      case Assign(x, e) =>
        EmitExpr(e);
        EmitAll(StoreName(env, x));
      case AugAssign(x, op, e) =>
        EmitBinary(Binary(op, Name(x), e));
        EmitAll(StoreName(env, x));
      case ChainAssign(xs, e) =>
        EmitExpr(e);
        EmitChain(xs);
      case Unpack(xs, es) => EmitUnpack(xs, es);
      case UnpackTuple(xs, e) =>
        EmitExpr(e);
        var slot := SlotFor(e);
        EmitAll([StoreSlot(env, slot)]);
        EmitUnpackIndices(xs, slot);
      case ExprStmt(e) =>
        EmitExpr(e);
        EmitAll([Drop]);
      case If(_, _, _) => EmitIf(s);
      case While(_, _, _) => EmitWhile(s);
      case ForRange(_, _, _, _, _, _) => EmitRangeFor(s);
      case ForEach(_, _, _, _) => EmitIterableFor(s);
      case Break =>
        if loops != [] {
          EmitAll([Br(loops[|loops| - 1].brk)]);
        }
      case Continue =>
        if loops != [] {
          EmitAll([Br(loops[|loops| - 1].cont)]);
        }
      case Pass =>
      case Match(_, _) => EmitMatch(s);
    }

    method EmitChain(xs: seq<string>)
      requires Valid()
      modifies this`code
      ensures Valid() && Model() == Emit(old(Model()), ChainCode(env, xs))
    {
      hide RawPool.Valid, StoreName;
      for i := 0 to |xs|
        invariant Valid() && code + ChainCode(env, xs[i..]) == old(code) + ChainCode(env, xs)
      {
        assert xs[i..][0] == xs[i] && xs[i..][1..] == xs[i + 1..];
        if i < |xs| - 1 {
          EmitAll([Dup]);
        }
        EmitAll(StoreName(env, xs[i]));
      }
    }

    /** Every right-hand element is in its own slot before any name is rebound. */
    method EmitUnpack(xs: seq<string>, es: seq<Expr>)
      requires Valid()
      modifies this
      ensures Valid() && Model() == CompBody(Unpack(xs, es), old(Model()))
      decreases es, 1
    {
      hide Valid, Model, RawPool.Valid, CompStash, Stashed, UnstashCode, Grows;
      if |xs| != |es| {
        return;
      }
      var slots := EmitStash(es);
      EmitUnstash(xs, slots);
    }

    method EmitStash(es: seq<Expr>) returns (slots: seq<nat>)
      requires Valid()
      modifies this
      ensures Valid() && Model() == CompStash(es, old(Model())) && slots == Stashed(es, old(Model()))
      decreases es, 0
    {
      hide Valid, Model, RawPool.Valid, CompExpr, StoreSlot, Grows, Reserve, Reserved, ExprKind;
      slots := [];
      assert es[0..] == es;
      for i := 0 to |es|
        invariant Valid() && CompStash(es[i..], Model()) == CompStash(es, old(Model()))
        invariant slots + Stashed(es[i..], Model()) == Stashed(es, old(Model()))
      {
        assert es[i..][0] == es[i] && es[i..][1..] == es[i + 1..];
        EmitExpr(es[i]);
        var slot := SlotFor(es[i]);
        EmitAll([StoreSlot(env, slot)]);
        slots := slots + [slot];
      }
    }

    method EmitUnstash(xs: seq<string>, slots: seq<nat>)
      requires Valid() && |xs| == |slots|
      modifies this`code
      ensures Valid() && Model() == Emit(old(Model()), UnstashCode(env, xs, slots))
    {
      hide RawPool.Valid, LoadSlot, StoreName;
      for i := 0 to |xs|
        invariant Valid() && code + UnstashCode(env, xs[i..], slots[i..]) == old(code) + UnstashCode(env, xs, slots)
      {
        assert xs[i..][0] == xs[i] && xs[i..][1..] == xs[i + 1..];
        assert slots[i..][0] == slots[i] && slots[i..][1..] == slots[i + 1..];
        EmitAll([LoadSlot(env, slots[i])] + StoreName(env, xs[i]));
      }
    }

    method EmitUnpackIndices(xs: seq<string>, slot: nat)
      requires Valid()
      modifies this`code
      ensures Valid() && Model() == Emit(old(Model()), UnpackCode(env, slot, xs, 0))
    {
      hide RawPool.Valid, StoreName, FetchCode;
      for i := 0 to |xs|
        invariant Valid() && code + UnpackCode(env, slot, xs[i..], i) == old(code) + UnpackCode(env, slot, xs, 0)
      {
        assert xs[i..][0] == xs[i] && xs[i..][1..] == xs[i + 1..];
        EmitAll(FetchCode(env, slot, true, Front(i)) + StoreName(env, xs[i]));
      }
    }

    method EmitIf(s: Stmt)
      requires Valid() && s.If?
      modifies this
      ensures Valid() && Model() == CompIf(s, old(Model()))
      decreases s, 0
    {
      hide Valid, Model, Emit, Labels, Bind, Low.Next, Grows, RawPool.Valid, CompExpr, CompBlock;
      EmitExpr(s.cond);
      EmitAll([I32Eqz]);
      var elseL := NewLabels(2);
      EmitAll([BrIf(elseL)]);
      EmitBlock(s.body);
      EmitAll([Br(elseL + 1)]);
      BindLabel(elseL);
      EmitBlock(s.orelse);
      BindLabel(elseL + 1);
    }

    method EmitLoopBody(body: seq<Stmt>, cont: Label, brk: Label)
      requires Valid()
      modifies this
      ensures Valid() && Model() == CompLoopBody(body, cont, brk, old(Model()))
      ensures old(Model()).Next() <= Model().Next()
      decreases body, 4
    {
      hide Valid, Model, RawPool.Valid, CompBlock;
      PushLoopLabels(cont, brk);
      EmitBlock(body);
      PopLoopLabels();
    }

    method EmitWhile(s: Stmt)
      requires Valid() && s.While?
      modifies this
      ensures Valid() && Model() == CompWhile(s, old(Model()))
      decreases s, 0
    {
      hide Valid, Model, Emit, Labels, Bind, Low.Next, Grows, RawPool.Valid, CompExpr, CompBlock, CompLoopBody;
      var body := NewLabels(4);
      var test, elseL, end := body + 1, body + 2, body + 3;
      EmitAll([Br(test)]);
      BindLabel(body);
      EmitLoopBody(s.body, test, end);
      BindLabel(test);
      assert Model() == WhileTest(s, old(Model()));
      EmitExpr(s.cond);
      EmitAll([BrIf(body)]);
      BindLabel(elseL);
      assert Model() == WhileElse(s, old(Model()));
      EmitBlock(s.orelse);
      BindLabel(end);
    }

    method EmitRangeFor(s: Stmt)
      requires Valid() && s.ForRange?
      modifies this
      ensures Valid() && Model() == CompRangeFor(s, old(Model()))
      decreases s, 0, 1
    {
      hide Valid, Model, RawPool.Valid, CompInto, CompFor;
      var index := ReserveTmp(KindI64);
      var limit := ReserveTmp(KindI64);
      if s.start.Some? {
        EmitInto(s.start.value, index);
      } else {
        EmitZero(index);
      }
      EmitInto(s.stop, limit);
      EmitLoop(s, RangeDriver(index, limit, s.step));
    }

    method EmitZero(slot: nat)
      requires Valid()
      modifies this`code
      ensures Valid() && Model() == CompInto(IntLit(0), slot, old(Model()))
    {
      EmitAll([I64Const(0)]);
      EmitAll([StoreSlot(env, slot)]);
    }

    method EmitIterableFor(s: Stmt)
      requires Valid() && s.ForEach?
      modifies this
      ensures Valid() && Model() == CompForEach(s, old(Model()))
      decreases s, 0, 1
    {
      hide Valid, Model, RawPool.Valid, CompInto, CompFor;
      var list := ReserveTmp(KindRef);
      var index := ReserveTmp(KindI64);
      EmitInto(s.iter, list);
      EmitZero(index);
      EmitLoop(s, ListDriver(list, index));
    }

    /** The part the two indexed loops share. */
    method EmitLoop(s: Stmt, d: Driver)
      requires Valid() && IsFor(s)
      modifies this
      ensures Valid() && Model() == CompFor(s, d, old(Model()))
      decreases s, 0, 0
    {
      hide Valid, Model, Emit, Labels, Bind, Low.Next, Grows, RawPool.Valid, CompBlock, CompLoopBody, ElementCode,
           TargetCode, StepCode, MoreCode, LoopTarget;
      var body := NewLabels(5);
      var cont, test, elseL, end := body + 1, body + 2, body + 3, body + 4;
      EmitAll([Br(test)]);
      BindLabel(body);
      EmitAll(ElementCode(env, d) + TargetCode(env, LoopTarget(s)));
      EmitLoopBody(s.body, cont, end);
      BindLabel(cont);
      assert Model() == ForStep(s, d, old(Model()));
      EmitAll(StepCode(env, d));
      BindLabel(test);
      assert Model() == ForTest(s, d, old(Model()));
      EmitAll(MoreCode(env, d) + [BrIf(body)]);
      BindLabel(elseL);
      assert Model() == ForElse(s, d, old(Model()));
      EmitBlock(s.orelse);
      BindLabel(end);
    }

    method EmitMatch(s: Stmt)
      requires Valid() && s.Match?
      modifies this
      ensures Valid() && Model() == CompMatch(s, old(Model()))
      decreases s, 0
    {
      hide Valid, Model, Emit, Labels, Bind, Low.Next, Grows, RawPool.Valid, CompExpr, CompPat, CompGuard, CompBlock,
           TypeOf, StoreSlot;
      var slot := SlotFor(s.subject);
      EmitExpr(s.subject);
      EmitAll([StoreSlot(env, slot)]);
      var t := TypeOf(env.types, s.subject);
      if t.None? {
        return;
      }
      var end := NewLabels(1);
      ghost var done := CompCases(s.cases, slot, t.value, end, Model());
      assert s.cases[0..] == s.cases;
      for i := 0 to |s.cases|
        invariant Valid() && end < Model().Next() && CompCases(s.cases[i..], slot, t.value, end, Model()) == done
      {
        assert s.cases[i..][0] == s.cases[i] && s.cases[i..][1..] == s.cases[i + 1..];
        EmitCase(s.cases[i], slot, t.value, end);
      }
      BindLabel(end);
    }

    method EmitCase(c: Case, slot: nat, t: Type, end: Label)
      requires Valid()
      modifies this
      ensures Valid() && forall rest ::
        CompCases([c] + rest, slot, t, end, old(Model())) == CompCases(rest, slot, t, end, Model())
      ensures old(Model()).Next() <= Model().Next()
      decreases c
    {
      hide Valid, Model, Emit, Labels, Bind, Low.Next, Grows, RawPool.Valid, CompExpr, CompPat, CompBlock;
      var next := NewLabels(1);
      EmitPatternTest(c.pat, slot, t, next);
      if c.guard.Some? {
        EmitExpr(c.guard.value);
        EmitAll([I32Eqz, BrIf(next)]);
      }
      EmitBlock(c.body);
      EmitAll([Br(end)]);
      BindLabel(next);
      assert forall rest: seq<Case> :: ([c] + rest)[0] == c && ([c] + rest)[1..] == rest;
    }

    /** Lowers a whole frame. */
    static method Lower(body: seq<Stmt>, env: Env) returns (p: Program)
      ensures p == CompModule(body, env)
    {
      var c := new Lowerer(env);
      c.EmitBlock(body);
      c.EmitAll([Nop]);
      p := Program(c.code, c.labels);
    }
  }
}

/** What holds over every run of the scratch pool, well nested or not. */
module ScratchRuns {
  import opened Machine
  import opened ScratchPool
  import opened Sequences

  datatype Event = Enters | Reserves(k: Kind) | Leaves

  function Happen(p: Pool, e: Event): Pool {
    match e
    case Enters => Enter(p)
    case Reserves(k) => Tmp(p, k)
    case Leaves => Leave(p)
  }

  function After(p: Pool, es: seq<Event>): Pool
    decreases es
  {
    if es == [] then p else After(Happen(p, es[0]), es[1..])
  }

  const FRESH: Pool := RawPool([], map[], [], [])

  // Safety.

  predicate Owned(p: Pool, x: nat) {
    x in p.live
  }

  predicate Released(p: Pool, x: nat) {
    x < |p.scratch| && x in p.FreeOf(p.scratch[x])
  }

  /** Live slots are pairwise distinct, and every slot of the frame is live or
      free under its own kind, never both. */
  lemma LiveAndFreePartition(es: seq<Event>, x: nat)
    ensures var p := After(FRESH, es);
            && Distinct(p.live)
            && (Owned(p, x) ==> x < |p.scratch| && !Released(p, x))
            && (x < |p.scratch| ==> Owned(p, x) || Released(p, x))
            && (forall k :: x in p.FreeOf(k) ==> Released(p, x) && p.scratch[x] == k)
  {
    var p := After(FRESH, es);
    assert p.Valid();
    if x < |p.scratch| {
      assert p.FreeValid(p.scratch[x]);
    }
    forall k | x in p.FreeOf(k) ensures Released(p, x) && p.scratch[x] == k {
      assert p.FreeValid(k);
    }
  }

  /** How many scopes a run leaves open, when it never closes one it did not open. */
  predicate WellNested(es: seq<Event>, depth: nat)
    decreases es
  {
    if es == [] then true
    else match es[0]
      case Enters => WellNested(es[1..], depth + 1)
      case Reserves(_) => WellNested(es[1..], depth)
      case Leaves => depth > 0 && WellNested(es[1..], depth - 1)
  }

  /** Whatever runs inside an open scope, the slots held outside it stay held, in
      place and with their kinds, and none of them is handed out again. */
  lemma {:induction false} OuterSlotsKept(p: Pool, outer: seq<nat>, marks: seq<nat>, depth: nat, es: seq<Event>)
    requires outer <= p.live && WellNested(es, depth)
    requires marks <= p.open && |p.open| == |marks| + depth
    requires forall i :: |marks| <= i < |p.open| ==> p.open[i] >= |outer|
    ensures outer <= After(p, es).live && marks <= After(p, es).open && p.scratch <= After(p, es).scratch
    ensures forall n: nat, k :: n < |es| && es[n] == Reserves(k) ==> TmpIndex(After(p, es[..n]), k) !in outer
    decreases es
  {
    hide RawPool.Valid, Tmp, Enter, Leave;
    if es != [] {
      var q := Happen(p, es[0]);
      var d := match es[0] case Enters => depth + 1 case Reserves(_) => depth case Leaves => depth - 1;
      OuterStep(p, outer, marks, depth, es[0]);
      OuterSlotsKept(q, outer, marks, d, es[1..]);
      forall n: nat, k | n < |es| && es[n] == Reserves(k) ensures TmpIndex(After(p, es[..n]), k) !in outer {
        if n == 0 {
          assert forall x :: x in outer ==> x in p.live;
        } else {
          assert es[1..][n - 1] == es[n] && es[..n][1..] == es[1..][..n - 1];
        }
      }
    }
  }

  lemma OuterStep(p: Pool, outer: seq<nat>, marks: seq<nat>, depth: nat, e: Event)
    requires outer <= p.live && (e.Leaves? ==> depth > 0)
    requires marks <= p.open && |p.open| == |marks| + depth
    requires forall i :: |marks| <= i < |p.open| ==> p.open[i] >= |outer|
    ensures var q := Happen(p, e);
            && outer <= q.live && marks <= q.open && p.scratch <= q.scratch
            && (forall i :: |marks| <= i < |q.open| ==> q.open[i] >= |outer|)
            && |q.open| == |marks| + (match e case Enters => depth
                + 1 case Reserves(_) => depth case Leaves => depth - 1)
  {
  }

  // Tightness.

  function Slots(p: Pool, k: Kind): set<nat> {
    set x: nat | 0 <= x < |p.scratch| && p.scratch[x] == k
  }

  function Held(p: Pool, k: Kind): set<nat> {
    set x | x in p.live && x < |p.scratch| && p.scratch[x] == k
  }

  function Max(a: nat, b: nat): nat {
    if a >= b then a else b
  }

  /** The most slots of a kind that are live at once during a run. */
  function Peak(p: Pool, es: seq<Event>, k: Kind): nat
    decreases es
  {
    if es == [] then |Held(p, k)| else Max(|Held(p, k)|, Peak(Happen(p, es[0]), es[1..], k))
  }

  lemma ReserveHeld(p: Pool, k: Kind, j: Kind)
    ensures Held(Tmp(p, k), j) == Held(p, j) + (if j == k then {TmpIndex(p, k)} else {})
    ensures TmpIndex(p, k) !in Held(p, j)
  {
    hide RawPool.FreeValid, RawPool.Covered, RawPool.MarksValid;
    var q := Tmp(p, k);
    assert Below(p.live, |p.scratch|);
    forall x | x in Held(q, j) ensures x in Held(p, j) + (if j == k then {TmpIndex(p, k)} else {}) {
      if x in p.live {
        assert x < |p.scratch|;
      }
    }
  }

  lemma ReserveSlots(p: Pool, k: Kind, j: Kind)
    ensures Slots(Tmp(p, k), j) == Slots(p, j) + (if j == k && p.FreeOf(k) == [] then {TmpIndex(p, k)} else {})
    ensures p.FreeOf(k) == [] ==> TmpIndex(p, k) !in Slots(p, j)
  {
    hide RawPool.Valid;
  }

  lemma NoneFree(p: Pool, k: Kind)
    requires p.FreeOf(k) == []
    ensures Held(p, k) == Slots(p, k)
  {
    assert p.Covered();
    forall x | x in Slots(p, k) ensures x in Held(p, k) {
      assert x in p.FreeOf(p.scratch[x]) || x in p.live;
    }
  }

  lemma ReserveSizes(p: Pool, k: Kind, j: Kind)
    ensures var q := Tmp(p, k);
            && |Held(q, j)| == |Held(p, j)| + (if j == k then 1 else 0)
            && |Slots(q, j)| == |Slots(p, j)| + (if j == k && p.FreeOf(k) == [] then 1 else 0)
            && (p.FreeOf(k) == [] ==> |Held(p, k)| == |Slots(p, k)|)
  {
    hide RawPool.Valid, Held, Slots, TmpIndex;
    ReserveHeld(p, k, j);
    ReserveSlots(p, k, j);
    if p.FreeOf(k) == [] {
      NoneFree(p, k);
    }
  }

  /** Running on, a kind has as many slots as it had, or as it needs at once. */
  lemma {:induction false} RunSizes(p: Pool, es: seq<Event>, k: Kind)
    ensures |Slots(After(p, es), k)| == Max(|Slots(p, k)|, Peak(p, es, k))
    decreases es
  {
    assert Held(p, k) <= Slots(p, k);
    SubsetSize(Held(p, k), Slots(p, k));
    if es != [] {
      var q := Happen(p, es[0]);
      RunSizes(q, es[1..], k);
      assert Held(q, k) <= Slots(q, k);
      SubsetSize(Held(q, k), Slots(q, k));
      match es[0]
      case Reserves(j) => ReserveSizes(p, j, k);
      case _ => assert Slots(q, k) == Slots(p, k);
      PeakAtLeast(q, es[1..], k);
    }
  }

  lemma PeakAtLeast(p: Pool, es: seq<Event>, k: Kind)
    ensures Peak(p, es, k) >= |Held(p, k)|
  {
  }

  /** The pool is tight: a frame declares exactly as many slots of each kind as
      are live at once at the busiest point of its lowering. */
  lemma PoolIsTight(es: seq<Event>, k: Kind)
    ensures |Slots(After(FRESH, es), k)| == Peak(FRESH, es, k)
  {
    RunSizes(FRESH, es, k);
    assert Slots(FRESH, k) == {};
  }
}

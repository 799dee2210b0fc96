/** The pool of scratch slots a frame shares between its statements
    (compiler/lower.go): `Tmp` hands out a released slot of the wanted kind or
    grows the pool, and leaving a scope releases what was reserved since it was
    entered. */
module ScratchPool {
  import opened Machine

  ghost predicate Distinct(s: seq<nat>) {
    forall i, j :: 0 <= i < j < |s| ==> s[i] != s[j]
  }

  ghost predicate Below(s: seq<nat>, n: nat) {
    forall i :: 0 <= i < |s| ==> s[i] < n
  }

  datatype RawPool = RawPool(
    scratch: seq<Kind>,
    free: map<Kind, seq<nat>>,
    live: seq<nat>,
    open: seq<nat>)
  {
    function FreeOf(k: Kind): seq<nat> {
      if k in free then free[k] else []
    }

    /** Each free slot is listed once, under its own kind, and is not live. */
    ghost predicate FreeValid(k: Kind) {
      && Distinct(FreeOf(k))
      && forall x :: x in FreeOf(k) ==> x < |scratch| && scratch[x] == k && x !in live
    }

    ghost predicate LiveValid() {
      && Distinct(live)
      && Below(live, |scratch|)
    }

    /** Nothing is lost: a slot is live or free. */
    ghost predicate Covered() {
      forall x: nat :: x < |scratch| ==> x in live || x in FreeOf(scratch[x])
    }

    ghost predicate MarksValid() {
      && (forall i :: 0 <= i < |open| ==> open[i] <= |live|)
      && (forall i, j :: 0 <= i < j < |open| ==> open[i] <= open[j])
    }

    ghost predicate Valid() {
      && LiveValid()
      && (forall k :: FreeValid(k))
      && Covered()
      && MarksValid()
    }
  }

  type Pool = p: RawPool | p.Valid() witness RawPool([], map[], [], [])

  /** The pool index the next `Tmp` of kind `k` hands out. */
  function TmpIndex(p: Pool, k: Kind): (idx: nat)
    ensures idx !in p.live
  {
    var pool := p.FreeOf(k);
    if |pool| == 0 then |p.scratch|
    else
      assert p.FreeValid(k) && pool[|pool| - 1] in pool;
      pool[|pool| - 1]
  }

  function RawTmp(p: Pool, k: Kind): RawPool {
    var pool := p.FreeOf(k);
    if |pool| == 0 then
      RawPool(p.scratch + [k], p.free, p.live + [|p.scratch|], p.open)
    else
      RawPool(p.scratch, p.free[k := pool[..|pool| - 1]], p.live + [pool[|pool| - 1]], p.open)
  }

  lemma TmpValid(p: Pool, k: Kind)
    ensures RawTmp(p, k).Valid()
  {
    var r := RawTmp(p, k);
    var idx := TmpIndex(p, k);
    assert p.FreeValid(k);
    forall j ensures r.FreeValid(j) {
      assert p.FreeValid(j);
    }
    forall x: nat | x < |r.scratch| ensures x in r.live || x in r.FreeOf(r.scratch[x]) {
      if x == idx {
        assert r.live[|p.live|] == idx;
      } else if x in p.live {
        assert x in r.live;
      } else {
        assert x in p.FreeOf(p.scratch[x]);
      }
    }
    assert r.LiveValid();
  }

  function Tmp(p: Pool, k: Kind): (r: Pool)
    ensures p.scratch <= r.scratch && r.open == p.open
    ensures r.live == p.live + [TmpIndex(p, k)]
    ensures TmpIndex(p, k) < |r.scratch| && r.scratch[TmpIndex(p, k)] == k
  {
    TmpValid(p, k);
    assert p.FreeValid(k);
    RawTmp(p, k)
  }

  function Enter(p: Pool): (r: Pool)
    ensures r == p.(open := p.open + [|p.live|])
  {
    var r := p.(open := p.open + [|p.live|]);
    assert forall k :: p.FreeValid(k) ==> r.FreeValid(k);
    assert p.Covered() ==> r.Covered();
    r
  }

  function FreeIn(free: map<Kind, seq<nat>>, k: Kind): seq<nat> {
    if k in free then free[k] else []
  }

  /** Appends each slot to its kind's free list, in order. */
  function Release(scratch: seq<Kind>, free: map<Kind, seq<nat>>, idxs: seq<nat>): map<Kind, seq<nat>>
    requires Below(idxs, |scratch|)
    decreases idxs
  {
    if idxs == [] then free
    else
      var k := scratch[idxs[0]];
      Release(scratch, free[k := FreeIn(free, k) + [idxs[0]]], idxs[1..])
  }

  /** The slots among `idxs` of kind `k`, in order. */
  function OfKind(scratch: seq<Kind>, idxs: seq<nat>, k: Kind): (r: seq<nat>)
    requires Below(idxs, |scratch|)
    ensures forall x :: x in r <==> x in idxs && scratch[x] == k
    ensures Distinct(idxs) ==> Distinct(r)
  {
    if idxs == [] then []
    else
      assert idxs == [idxs[0]] + idxs[1..];
      if scratch[idxs[0]] == k
      then [idxs[0]] + OfKind(scratch, idxs[1..], k)
      else OfKind(scratch, idxs[1..], k)
  }

  /** Releasing appends to each free list exactly the released slots of its kind. */
  lemma {:induction false} ReleaseAppends(scratch: seq<Kind>, free: map<Kind, seq<nat>>, idxs: seq<nat>, k: Kind)
    requires Below(idxs, |scratch|)
    ensures FreeIn(Release(scratch, free, idxs), k) == FreeIn(free, k) + OfKind(scratch, idxs, k)
    decreases idxs
  {
    if idxs != [] {
      var k0 := scratch[idxs[0]];
      ReleaseAppends(scratch, free[k0 := FreeIn(free, k0) + [idxs[0]]], idxs[1..], k);
    }
  }

  function RawLeave(p: Pool): RawPool
    requires p.open != []
  {
    var mark := p.open[|p.open| - 1];
    RawPool(p.scratch, Release(p.scratch, p.free, p.live[mark..]), p.live[..mark], p.open[..|p.open| - 1])
  }

  lemma MarkBelow(p: Pool)
    requires p.open != []
    ensures p.open[|p.open| - 1] <= |p.live| && Below(p.live[p.open[|p.open| - 1]..], |p.scratch|)
  {
  }

  lemma DistinctConcat(a: seq<nat>, b: seq<nat>)
    requires Distinct(a) && Distinct(b) && forall x :: x in a ==> x !in b
    ensures Distinct(a + b)
  {
    forall i, j | 0 <= i < j < |a + b| ensures (a + b)[i] != (a + b)[j] {
      if i < |a| <= j {
        assert a[i] in a && b[j - |a|] in b;
      }
    }
  }

  lemma SplitDistinct(s: seq<nat>, mark: nat)
    requires mark <= |s| && Distinct(s)
    ensures Distinct(s[..mark]) && Distinct(s[mark..])
    ensures forall x :: x in s[..mark] ==> x in s && x !in s[mark..]
    ensures forall x :: x in s[mark..] ==> x in s
  {
  }

  lemma LeaveFrees(p: Pool, k: Kind)
    requires p.open != []
    ensures RawLeave(p).FreeOf(k) == p.FreeOf(k) + OfKind(p.scratch, p.live[p.open[|p.open| - 1]..], k)
    ensures RawLeave(p).FreeValid(k)
  {
    var mark := p.open[|p.open| - 1];
    var freed := p.live[mark..];
    ReleaseAppends(p.scratch, p.free, freed, k);
    SplitDistinct(p.live, mark);
    assert p.FreeValid(k);
    DistinctConcat(p.FreeOf(k), OfKind(p.scratch, freed, k));
  }

  lemma LeaveValid(p: Pool)
    requires p.open != []
    ensures RawLeave(p).Valid()
  {
    var mark := p.open[|p.open| - 1];
    var freed := p.live[mark..];
    var r := RawLeave(p);
    assert p.live == r.live + freed;
    forall k ensures r.FreeValid(k) {
      LeaveFrees(p, k);
    }
    forall x: nat | x < |p.scratch| ensures x in r.live || x in r.FreeOf(p.scratch[x]) {
      LeaveFrees(p, p.scratch[x]);
    }
  }

  function Leave(p: Pool): (r: Pool)
    ensures r == if p.open == [] then p else RawLeave(p)
  {
    if p.open == [] then p
    else
      LeaveValid(p);
      RawLeave(p)
  }
}

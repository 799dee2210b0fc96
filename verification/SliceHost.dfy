/** The slice operations of lists on the counted heap: reading, assigning and
    deleting `xs[a:b:c]` (compiler/runtime.go). */
module SliceHost {
  import opened Boxing
  import opened Int64
  import opened Ownership
  import opened Sequences
  import opened Slices
  import opened Wrappers

  /** What the receiver's slice selects. */
  ghost function SliceOf(cells: seq<Value>, list: Box, rawStart: int, rawStop: int, step: int): seq<int>
    requires step != 0
  {
    Selected(|ElemsOf(cells, list)|, Decode(rawStart), Decode(rawStop), step)
  }

  /** The elements at some positions are all read whole. */
  ghost predicate WholeAt(cells: seq<Value>, list: Box, indices: seq<int>)
    requires Inside(|ContentsOf(cells, list)|, indices)
  {
    forall k :: 0 <= k < |indices| ==> ReadsWhole(cells, list, indices[k])
  }

  /** And those at all others. */
  ghost predicate WholeElsewhere(cells: seq<Value>, list: Box, indices: seq<int>) {
    forall x :: 0 <= x < |ContentsOf(cells, list)| && x !in indices ==> ReadsWhole(cells, list, x)
  }

  lemma PicksExactly(cells: seq<Value>, list: Box, indices: seq<int>)
    requires Inside(|ContentsOf(cells, list)|, indices)
    ensures Pick(ElemsOf(cells, list), indices) == Pick(ContentsOf(cells, list), indices) <==>
      WholeAt(cells, list, indices)
  {
    var read, held := Pick(ElemsOf(cells, list), indices), Pick(ContentsOf(cells, list), indices);
    ReadsExactly(cells, list);
    forall k | 0 <= k < |indices|
      ensures read[k] == held[k] <==> ReadsWhole(cells, list, indices[k])
    {
      assert 0 <= indices[k] < |ContentsOf(cells, list)|;
    }
  }

  lemma {:induction false} WithoutSame<T>(xs: seq<T>, ys: seq<T>, indices: seq<int>)
    requires |xs| == |ys|
    ensures |Without(xs, indices)| == |Without(ys, indices)|
    ensures Without(xs, indices) == Without(ys, indices) <==> forall x :: 0 <= x < |xs| && x !in indices ==>
      xs[x] == ys[x]
  {
    if xs != [] {
      var n := |xs| - 1;
      WithoutSame(xs[..n], ys[..n], indices);
      var a, b := Without(xs[..n], indices), Without(ys[..n], indices);
      if n !in indices {
        assert (a + [xs[n]])[..|a|] == a && (b + [ys[n]])[..|a|] == b;
        assert (a + [xs[n]])[|a|] == xs[n] && (b + [ys[n]])[|a|] == ys[n];
      }
    }
  }

  lemma KeepsExactly(cells: seq<Value>, list: Box, indices: seq<int>)
    ensures Without(ElemsOf(cells, list), indices) == Without(ContentsOf(cells, list), indices) <==>
      WholeElsewhere(cells, list, indices)
  {
    ReadsExactly(cells, list);
    WithoutSame(ElemsOf(cells, list), ContentsOf(cells, list), indices);
  }

  lemma OverwritesExactly(cells: seq<Value>, list: Box, source: Box, indices: seq<int>, out: seq<Box>)
    requires Inside(|ContentsOf(cells, list)|, indices)
    requires Overwritten(ElemsOf(cells, list), indices, ElemsOf(cells, source), out)
    ensures Overwritten(ContentsOf(cells, list), indices, ContentsOf(cells, source), out) <==>
      WholeElsewhere(cells, list, indices) && forall k :: 0 <= k < |indices| ==> ReadsWhole(cells, source, k)
  {
    ReadsExactly(cells, list);
    ReadsExactly(cells, source);
    forall k | 0 <= k < |indices|
      ensures Pick(out, indices)[k] == ContentsOf(cells, source)[k] <==> ReadsWhole(cells, source, k)
    {
      assert Pick(out, indices)[k] == ElemsOf(cells, source)[k];
    }
    forall x | 0 <= x < |out| && x !in indices
      ensures out[x] == ContentsOf(cells, list)[x] <==> ReadsWhole(cells, list, x)
    {
      assert out[x] == ElemsOf(cells, list)[x];
    }
  }

  /** `xs[a:b:c]`: a new array over the selected elements. Should the walk over the
      indices wrap around, it ends outside the list, and the host call with it. */
  method ArraySlice(i: Interpreter, list: Box, rawStart: int, rawStop: int, rawStep: int, ghost owners: seq<Box>)
    returns (r: Result<Box, SliceError>)
    requires Balanced(i.cells, i.counts, owners)
    requires Fits64(rawStart) && Fits64(rawStop) && Fits64(rawStep) && |ElemsOf(i.cells, list)| <= MAX_LENGTH
    modifies i
    ensures var step := StepOf(Decode(rawStep));
      if !IsArray(old(i.cells), list) then r == Err(TypeMismatch)
      else if step == 0 then r == Err(ZeroStep)
      else if !StaysInRange(|ElemsOf(old(i.cells), list)|, Decode(rawStart), Decode(rawStop), step)
          then r == Err(OutOfRange)
      else if old(|i.cells|) >= i.limit then r == Err(HeapLimit)
      else
        && var indices := SliceOf(old(i.cells), list, rawStart, rawStop, step);
        && Inside(|ElemsOf(old(i.cells), list)|, indices)
        && r == Ok(Ref(|old(i.cells)|))
        && i.cells == old(i.cells) + [Array(Pick(ElemsOf(old(i.cells), list), indices))]
        && Balanced(i.cells, i.counts, owners + [r.value])
        && (ContentsOf(i.cells, r.value) == Pick(ContentsOf(old(i.cells), list), indices) <==>
              WholeAt(old(i.cells), list, indices))
    ensures r.Err? ==> i.cells == old(i.cells) && i.counts == old(i.counts)
  {
    hide Balanced, Live, Selected, Collected, StaysInRange, WholeAt;
    var isArray, elems := i.ArrayElems(list);
    if !isArray {
      return Err(TypeMismatch);
    }
    var indexes := SliceIndexes(|elems|, rawStart, rawStop, rawStep);
    if indexes.Err? {
      return Err(indexes.error);
    }
    ghost var step := StepOf(Decode(rawStep));
    SliceLoopExact(|elems|, Decode(rawStart), Decode(rawStop), step, indexes.value);
    var out: seq<Box> := [];
    for k := 0 to |indexes.value|
      invariant Inside(|elems|, indexes.value[..k]) && out == Pick(elems, indexes.value[..k])
    {
      var idx := indexes.value[k];
      if idx < 0 || idx >= |elems| {
        return Err(OutOfRange);
      }
      out := out + [elems[idx]];
    }
    assert indexes.value[..|indexes.value|] == indexes.value;
    PicksExactly(i.cells, list, indexes.value);
    ReadsItsSlots(i.cells[list.addr], 0);
    BorrowedLive(i.cells, i.counts, owners, list.addr, out);
    var ok, res := i.AllocArray(out, owners);
    if !ok {
      return Err(HeapLimit);
    }
    r := Ok(res);
  }

  /** Counting ahead of the store: with the new elements in place, exactly the
      references in the overwritten stretch are still to be given up. */
  lemma StoreAhead(cells: seq<Value>, counts: seq<nat>, owners: seq<Box>, list: Box, lo: nat, hi: nat, values: seq<Box>)
    requires IsArray(cells, list) && lo <= hi <= |ElemsOf(cells, list)|
    requires Balanced(cells, counts, owners + values)
    ensures var elems := ElemsOf(cells, list);
      Balanced(cells[list.addr := Array(elems[..lo] + values + elems[hi..])], counts, elems[lo..hi] + owners)
  {
    hide Held, Refs;
    var elems := ElemsOf(cells, list);
    var out := elems[..lo] + values + elems[hi..];
    forall a: nat
      ensures Held(cells[list.addr := Array(out)], a) + Refs(elems[lo..hi] + owners, a) ==
        Held(cells, a) + Refs(owners + values, a)
    {
      StoreCounts(cells, owners, list.addr, lo, hi, values, a);
    }
  }

  lemma StoreCounts(cells: seq<Value>, owners: seq<Box>, c: nat, lo: nat, hi: nat, values: seq<Box>, a: nat)
    requires c < |cells| && (cells[c].Array? || cells[c].Words?) && lo <= hi <= |HostElems(cells[c])|
    ensures var elems := HostElems(cells[c]);
      Held(cells[c := Array(elems[..lo] + values + elems[hi..])], a) + Refs(elems[lo..hi] + owners, a) ==
      Held(cells, a) + Refs(owners + values, a)
  {
    hide Held, Refs, HostElems;
    var elems := HostElems(cells[c]);
    var dropped := elems[lo..hi];
    ReadsItsSlots(cells[c], a);
    HeldUpdate(cells, c, Array(elems[..lo] + values + elems[hi..]), a);
    RefsConcat(elems[..lo] + values, elems[hi..], a);
    RefsConcat(elems[..lo], values, a);
    assert elems == elems[..lo] + dropped + elems[hi..];
    RefsConcat(elems[..lo] + dropped, elems[hi..], a);
    RefsConcat(elems[..lo], dropped, a);
    RefsConcat(dropped, owners, a);
    RefsConcat(owners, values, a);
  }

  /** `del xs[a:b]`: the stretch goes, and with it the list's references to it. */
  method ListSliceDelete(i: Interpreter, list: Box, rawStart: int, rawStop: int, rawStep: int, ghost owners: seq<Box>)
    returns (r: Result<(), SliceError>)
    requires Balanced(i.cells, i.counts, owners) && list in owners
    requires Fits64(rawStart) && Fits64(rawStop) && Fits64(rawStep) && |ElemsOf(i.cells, list)| <= MAX
    modifies i
    ensures
      if !IsArray(old(i.cells), list) then r == Err(TypeMismatch)
      else if StepOf(Decode(rawStep)) != 1 then r == Err(ExtendedSlice)
      else
        var indices := SliceOf(old(i.cells), list, rawStart, rawStop, 1);
        && r.Ok? && |i.cells| == |old(i.cells)|
        && i.cells[list.addr] == Array(Without(ElemsOf(old(i.cells), list), indices))
        && (ContentsOf(i.cells, list) == Without(ContentsOf(old(i.cells), list), indices) <==>
              WholeElsewhere(old(i.cells), list, indices))
        && Reclaimed(old(i.cells)[list.addr := i.cells[list.addr]], i.cells)
        && Balanced(i.cells, i.counts, owners)
    ensures r.Err? ==> i.cells == old(i.cells) && i.counts == old(i.counts)
  {
    hide Balanced, Selected, Without, Interval, WholeElsewhere;
    var isArray, elems := i.ArrayElems(list);
    if !isArray {
      return Err(TypeMismatch);
    }
    var bounds := NormalizeSliceRange(|elems|, rawStart, rawStop, rawStep);
    if bounds.Err? {
      return Err(bounds.error);
    }
    var (start, stop) := bounds.value;
    WithoutInterval(elems, start, stop);
    KeepsExactly(i.cells, list, Interval(start, stop));
    assert elems[..start] + [] + elems[stop..] == elems[..start] + elems[stop..];
    assert owners + [] == owners;
    StoreAhead(i.cells, i.counts, owners, list, start, stop, []);
    i.ReleaseBoxes(elems[start..stop], owners, list.addr, Array(elems[..start] + elems[stop..]));
    var out := elems[..start] + elems[stop..];
    i.Store(list.addr, Array(out));
    r := Ok(());
  }

  /** `xs[a:b] = values`, for as many values as the stretch is long. The values
      are retained before the old elements are released, so a list may be
      assigned from itself. */
  method ListSliceAssign(i: Interpreter, list: Box, rawStart: int, rawStop: int, rawStep: int, source: Box,
                         ghost owners: seq<Box>)
    returns (r: Result<(), SliceError>)
    requires Balanced(i.cells, i.counts, owners) && list in owners
    requires Fits64(rawStart) && Fits64(rawStop) && Fits64(rawStep) && |ElemsOf(i.cells, list)| <= MAX
    modifies i
    ensures
      if !IsArray(old(i.cells), list) || !IsArray(old(i.cells), source) then r == Err(TypeMismatch)
      else if StepOf(Decode(rawStep)) != 1 then r == Err(ExtendedSlice)
      else
        var elems, values := ElemsOf(old(i.cells), list), ElemsOf(old(i.cells), source);
        var indices := SliceOf(old(i.cells), list, rawStart, rawStop, 1);
        if |values| != |indices| then r == Err(LengthMismatch)
        else
          && r.Ok? && |i.cells| == |old(i.cells)| && i.cells[list.addr].Array?
          && Inside(|elems|, indices)
          && Overwritten(elems, indices, values, i.cells[list.addr].elems)
          && (Overwritten(ContentsOf(old(i.cells), list), indices, ContentsOf(old(i.cells), source),
              ContentsOf(i.cells, list)) <==>
                && WholeElsewhere(old(i.cells), list, indices)
                && forall k :: 0 <= k < |indices| ==> ReadsWhole(old(i.cells), source, k))
          && Reclaimed(old(i.cells)[list.addr := i.cells[list.addr]], i.cells)
          && Balanced(i.cells, i.counts, owners)
    ensures r.Err? ==> i.cells == old(i.cells) && i.counts == old(i.counts)
  {
    hide Balanced, Selected, Overwritten, Live, Refs, WholeElsewhere;
    var isArray, elems := i.ArrayElems(list);
    if !isArray {
      return Err(TypeMismatch);
    }
    var values;
    isArray, values := i.ArrayElems(source);
    if !isArray {
      return Err(TypeMismatch);
    }
    var bounds := NormalizeSliceRange(|elems|, rawStart, rawStop, rawStep);
    if bounds.Err? {
      return Err(bounds.error);
    }
    var (start, stop) := bounds.value;
    if |values| != stop - start {
      return Err(LengthMismatch);
    }
    ReadsItsSlots(i.cells[source.addr], 0);
    BorrowedLive(i.cells, i.counts, owners, source.addr, values);
    var retained := i.RetainBoxes(values);
    RetainKeeps(i.cells, old(i.counts), i.counts, owners, values);
    OverwrittenInterval(elems, start, stop, values);
    OverwritesExactly(i.cells, list, source, Interval(start, stop), elems[..start] + values + elems[stop..]);
    StoreAhead(i.cells, i.counts, owners, list, start, stop, values);
    i.ReleaseBoxes(elems[start..stop], owners, list.addr, Array(elems[..start] + values + elems[stop..]));
    var out := elems[..start] + values + elems[stop..];
    i.Store(list.addr, Array(out));
    r := Ok(());
  }
}

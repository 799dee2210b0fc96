/** Slice bounds: the indices a slice selects and the contiguous range that slice
    assignment and deletion work on (compiler/runtime.go). */
module Slices {
  import opened Int64
  import opened Semantics
  import opened Sequences
  import opened Wrappers

  datatype SliceError = ZeroStep | ExtendedSlice | LengthMismatch | TypeMismatch | HeapLimit | OutOfRange

  /** A bound of `xs[a:b:c]` as written. */
  datatype Bound = Omitted | At(index: int)

  /** The bound the host function reads off its argument: the smallest integer
      stands for an omitted one. */
  function Decode(raw: int): Bound {
    if raw == MIN then Omitted else At(raw)
  }

  function Encode(b: Bound): int {
    match b
    case Omitted => MIN
    case At(i) => i
  }

  /** What the code takes a written bound for. */
  function Taken(b: Bound): Bound {
    Decode(Encode(b))
  }

  predicate IsWord(b: Bound) {
    b.At? ==> Fits64(b.index)
  }

  function StepOf(b: Bound): int {
    match b
    case Omitted => 1
    case At(k) => k
  }

  /** Python's `slice.indices`: a bound clipped into the sequence, counted from the
      end when negative, and defaulting to the end the step walks from or to. */
  function Adjust(length: nat, b: Bound, step: int, isStart: bool): int {
    var lower := if step < 0 then -1 else 0;
    var upper := if step < 0 then length - 1 else length;
    match b
    case Omitted => if isStart == (step < 0) then upper else lower
    case At(i) =>
      if i < 0 then (if i + length < lower then lower else i + length)
      else if i > upper then upper else i
  }

  /** The indices `xs[start:stop:step]` selects, as Python defines them. */
  function Selected(length: nat, start: Bound, stop: Bound, step: int): seq<int>
    requires step != 0
  {
    Range(Adjust(length, start, step, true), Adjust(length, stop, step, false), step)
  }

  // What Python promises of the selection

  /** Every selected index is in the sequence, the k-th is k steps after the first,
      and the walk goes on until it passes the adjusted stop. */
  lemma SelectedAt(length: nat, start: Bound, stop: Bound, step: int, k: nat)
    requires step != 0
    ensures var r, i := Selected(length, start, stop, step), Adjust(length, start, step, true);
      && (k < |r| <==> Goes(i + k * step, Adjust(length, stop, step, false), step))
      && (k < |r| ==> r[k] == i + k * step && 0 <= r[k] < length)
  {
    var i := Adjust(length, start, step, true);
    RangeAt(i, Adjust(length, stop, step, false), step, k);
    if step > 0 {
      assert k * step >= 0;
    } else {
      assert k * -step >= 0;
      assert k * step == -(k * -step);
    }
  }

  lemma SelectedInRange(length: nat, start: Bound, stop: Bound, step: int)
    requires step != 0
    ensures forall k :: 0 <= k < |Selected(length, start, stop, step)| ==>
      0 <= Selected(length, start, stop, step)[k] < length
  {
    forall k | 0 <= k < |Selected(length, start, stop, step)|
      ensures 0 <= Selected(length, start, stop, step)[k] < length
    {
      SelectedAt(length, start, stop, step, k);
    }
  }

  /** The selected indices climb, or fall, strictly. */
  lemma SelectedMonotone(length: nat, start: Bound, stop: Bound, step: int, j: nat, k: nat)
    requires step != 0 && j < k < |Selected(length, start, stop, step)|
    ensures var r := Selected(length, start, stop, step);
      if step > 0 then r[j] < r[k] else r[j] > r[k]
  {
    SelectedAt(length, start, stop, step, j);
    SelectedAt(length, start, stop, step, k);
    assert (k - j) * step == k * step - j * step;
    if step > 0 {
      assert (k - j) * step > 0;
    } else {
      assert (k - j) * -step > 0;
      assert (k - j) * step == -((k - j) * -step);
    }
  }

  /** `lo`, `lo + 1`, ..., `hi - 1`. */
  function Interval(lo: int, hi: int): seq<int>
    requires lo <= hi
  {
    seq(hi - lo, k requires 0 <= k => lo + k)
  }

  lemma {:induction false} RangeIsInterval(lo: int, hi: int)
    ensures Range(lo, hi, 1) == if lo <= hi then Interval(lo, hi) else []
    decreases hi - lo
  {
    if lo < hi {
      RangeIsInterval(lo + 1, hi);
      assert Interval(lo, hi) == [lo] + Interval(lo + 1, hi);
    }
  }

  // The host code

  /** No slice in memory is longer, its elements being words. */
  const MAX_LENGTH: int := 0x2000_0000_0000_0000

  /** Why the 64-bit loop ends even when it wraps around: a step that can take an
      index out of range is so long that two of them, one wrapped, come back to
      just below where they started. */
  function LoopMeasure(i: int, stop: int, step: int): int {
    if step < 0 then i - stop
    else if step <= MAX - MAX_LENGTH then stop - i
    else if i >= -1 - MAX_LENGTH then 2 * (i + MAX_LENGTH + 2)
    else 2 * (i + step + MAX_LENGTH + 2) + 1
  }

  predicate LoopSpan(i: int, stop: int, step: int) {
    if step < 0 then -1 <= stop && i <= MAX_LENGTH
    else stop <= MAX_LENGTH && if step <= MAX - MAX_LENGTH then 0 <= i else -1 - MAX_LENGTH <= i || i < MIN + MAX_LENGTH
  }

  lemma LoopEnds(i: int, stop: int, step: int)
    requires Fits64(i) && Fits64(step) && step != 0 && LoopSpan(i, stop, step) && Goes(i, stop, step)
    ensures LoopMeasure(i, stop, step) >= 0
    ensures var i' := Wrap(i + step);
      LoopSpan(i', stop, step) && (Goes(i', stop, step) ==> LoopMeasure(i', stop, step) < LoopMeasure(i, stop, step))
  {
  }

  /** The loop that collects indices upward or downward. */
  method CountIndexes(start: int, stop: int, step: int) returns (out: seq<int>)
    requires Fits64(step) && step != 0 && -1 <= start <= MAX_LENGTH && -1 <= stop <= MAX_LENGTH
    requires step > 0 ==> start >= 0
    ensures LoopYields(start, stop, step, out)
  {
    hide LoopYields, LoopSpan, LoopMeasure, Wrap;
    out := [];
    var i := start;
    StartsInSpan(start, stop, step);
    assert forall rest :: out + rest == rest;
    while if step > 0 then i < stop else i > stop
      invariant Fits64(i) && LoopSpan(i, stop, step)
      invariant forall rest :: LoopYields(i, stop, step, rest) ==> LoopYields(start, stop, step, out + rest)
      decreases if Goes(i, stop, step) then LoopMeasure(i, stop, step) else -1
    {
      LoopEnds(i, stop, step);
      forall rest | LoopYields(Wrap(i + step), stop, step, rest)
        ensures LoopYields(start, stop, step, out + [i] + rest)
      {
        LoopYieldsStep(i, stop, step, rest);
        assert out + [i] + rest == out + ([i] + rest);
      }
      out := out + [i];
      i := Wrap(i + step);
    }
    LoopOver(i, stop, step);
    assert out + [] == out;
  }

  lemma StartsInSpan(start: int, stop: int, step: int)
    requires Fits64(step) && step != 0 && -1 <= start <= MAX_LENGTH && -1 <= stop <= MAX_LENGTH
    requires step > 0 ==> start >= 0
    ensures LoopSpan(start, stop, step)
  {
  }

  lemma LoopOver(i: int, stop: int, step: int)
    requires !Goes(i, stop, step)
    ensures LoopYields(i, stop, step, [])
  {
  }

  /** What the code's loop collects for a slice. */
  predicate Collected(length: nat, start: Bound, stop: Bound, step: int, out: seq<int>) {
    LoopYields(Adjust(length, start, step, true), Adjust(length, stop, step, false), step, out)
  }

  /** The indices the code selects, by its clipping and its loops. */
  method SliceIndexes(length: nat, rawStart: int, rawStop: int, rawStep: int) returns (r: Result<seq<int>, SliceError>)
    requires Fits64(rawStart) && Fits64(rawStop) && Fits64(rawStep) && length <= MAX_LENGTH
    ensures StepOf(Decode(rawStep)) == 0 <==> r == Err(ZeroStep)
    ensures StepOf(Decode(rawStep)) != 0 ==>
      r.Ok? && Collected(length, Decode(rawStart), Decode(rawStop), StepOf(Decode(rawStep)), r.value)
  {
    hide LoopYields;
    var step := rawStep;
    if step == MIN {
      step := 1;
    }
    if step == 0 {
      return Err(ZeroStep);
    }
    var startOmitted, stopOmitted := rawStart == MIN, rawStop == MIN;
    var start, stop := rawStart, rawStop;
    if step > 0 {
      if startOmitted {
        start := 0;
      } else if start < 0 {
        start := start + length;
      }
      if stopOmitted {
        stop := length;
      } else if stop < 0 {
        stop := stop + length;
      }
      if start < 0 {
        start := 0;
      }
      if start > length {
        start := length;
      }
      if stop < 0 {
        stop := 0;
      }
      if stop > length {
        stop := length;
      }
      var out := CountIndexes(start, stop, step);
      return Ok(out);
    }
    if startOmitted {
      start := length - 1;
    } else if start < 0 {
      start := start + length;
    }
    if stopOmitted {
      stop := -1;
    } else if stop < 0 {
      stop := stop + length;
    }
    if start < -1 {
      start := -1;
    }
    if start >= length {
      start := length - 1;
    }
    if stop < -1 {
      stop := -1;
    }
    if stop >= length {
      stop := length - 1;
    }
    var out := CountIndexes(start, stop, step);
    r := Ok(out);
  }

  /** The contiguous stretch that assignment and deletion work on. */
  method NormalizeSliceRange(length: nat, rawStart: int, rawStop: int, rawStep: int)
      returns (r: Result<(nat, nat), SliceError>)
    requires Fits64(rawStart) && Fits64(rawStop) && Fits64(rawStep) && length <= MAX
    ensures r.Err? <==> StepOf(Decode(rawStep)) != 1
    ensures r.Err? ==> r.error == ExtendedSlice
    ensures r.Ok? ==>
      && r.value.0 <= r.value.1 <= length
      && r.value.0 == Adjust(length, Decode(rawStart), 1, true)
      && Interval(r.value.0, r.value.1) == Selected(length, Decode(rawStart), Decode(rawStop), 1)
  {
    var step := rawStep;
    if step == MIN {
      step := 1;
    }
    if step != 1 {
      return Err(ExtendedSlice);
    }
    var startOmitted, stopOmitted := rawStart == MIN, rawStop == MIN;
    var start, stop := rawStart, rawStop;
    if startOmitted {
      start := 0;
    } else if start < 0 {
      start := start + length;
    }
    if stopOmitted {
      stop := length;
    } else if stop < 0 {
      stop := stop + length;
    }
    if start < 0 {
      start := 0;
    }
    if start > length {
      start := length;
    }
    if stop < 0 {
      stop := 0;
    }
    if stop > length {
      stop := length;
    }
    RangeIsInterval(start, stop);
    if stop < start {
      stop := start;
    }
    r := Ok((start, stop));
  }

  /** Stepping past the last index stays in range, or the walk is downward. */
  predicate StaysInRange(length: nat, start: Bound, stop: Bound, step: int)
    requires step != 0
  {
    var r := Selected(length, start, stop, step);
    r == [] || step < 0 || r[|r| - 1] + step <= MAX
  }

  /** When the code selects Python's indices: always for a downward step, and for an
      upward one exactly when stepping past the last index stays in range. */
  lemma SliceLoopExact(length: nat, start: Bound, stop: Bound, step: int, out: seq<int>)
    requires Fits64(step) && step != 0 && step != MIN && length <= MAX && Collected(length, start, stop, step, out)
    ensures out == Selected(length, start, stop, step) <==> StaysInRange(length, start, stop, step)
    ensures Inside(length, out) <==> StaysInRange(length, start, stop, step)
  {
    var i, j, r := Adjust(length, start, step, true), Adjust(length, stop, step, false),
        Selected(length, start, stop, step);
    LoopIsRange(i, j, step);
    SelectedInRange(length, start, stop, step);
    if LoopYields(i, j, step, r) {
      LoopYieldsOnce(i, j, step, out, r);
    } else if Inside(length, out) {
      InsideIsRange(length, i, j, step, out);
    }
  }

  /** What taking the smallest word for an omitted bound changes: as the bound the walk
      ends at it selects nothing, omitted the rest; as a step it goes down to at most
      one index. */
  predicate TakenAsWritten(length: nat, start: Bound, stop: Bound, step: Bound)
    requires StepOf(step) != 0
  {
    if step == At(MIN) then
      var up, upEnd := Adjust(length, Taken(start), 1, true), Adjust(length, Taken(stop), 1, false);
      var down, downEnd := Adjust(length, start, MIN, true), Adjust(length, stop, MIN, false);
      if up < upEnd then upEnd == up + 1 && down == up && downEnd < down else down <= downEnd
    else
      || (if StepOf(step) > 0 then stop else start) != At(MIN)
      || Selected(length, Taken(start), Taken(stop), StepOf(step)) == []
  }

  lemma SelectionTaken(length: nat, start: Bound, stop: Bound, step: Bound)
    requires IsWord(start) && IsWord(stop) && IsWord(step) && StepOf(step) != 0 && length <= MAX
    ensures var taken := Selected(length, Taken(start), Taken(stop), StepOf(Taken(step)));
      taken == Selected(length, start, stop, StepOf(step)) <==> TakenAsWritten(length, start, stop, step)
  {
    if step == At(MIN) {
      var up, upEnd := Adjust(length, Taken(start), 1, true), Adjust(length, Taken(stop), 1, false);
      var down, downEnd := Adjust(length, start, MIN, true), Adjust(length, stop, MIN, false);
      RangeIsInterval(up, upEnd);
      assert Range(down + MIN, downEnd, MIN) == [];
      assert Range(down, downEnd, MIN) == if down > downEnd then [down] else [];
      if up < upEnd {
        assert Interval(up, upEnd)[0] == up;
      }
    } else if StepOf(step) > 0 {
      assert Adjust(length, start, StepOf(step), true) == Adjust(length, Taken(start), StepOf(step), true);
      assert stop == At(MIN) ==> Selected(length, start, stop, StepOf(step)) == [];
    } else {
      assert Adjust(length, stop, StepOf(step), false) == Adjust(length, Taken(stop), StepOf(step), false);
      assert start == At(MIN) ==> Selected(length, start, stop, StepOf(step)) == [];
    }
  }

  /** For a slice as written, the code collects Python's indices exactly when its loop
      does not wrap around and no bound is mistaken. */
  lemma WrittenSliceExact(length: nat, start: Bound, stop: Bound, step: Bound, out: seq<int>)
    requires IsWord(start) && IsWord(stop) && IsWord(step) && StepOf(step) != 0 && length <= MAX
    requires Collected(length, Taken(start), Taken(stop), StepOf(Taken(step)), out)
    ensures out == Selected(length, start, stop, StepOf(step)) <==>
      StaysInRange(length, Taken(start), Taken(stop), StepOf(Taken(step))) && TakenAsWritten(length, start, stop, step)
  {
    hide Selected, Collected, StaysInRange, TakenAsWritten, Adjust;
    SliceLoopExact(length, Taken(start), Taken(stop), StepOf(Taken(step)), out);
    SelectionTaken(length, start, stop, step);
    SelectedInRange(length, start, stop, StepOf(step));
  }

  /** `xs[:-2**63]` selects nothing; the code takes it for `xs[:]`. */
  lemma SmallestStopTakesAll(length: nat)
    requires length <= MAX
    ensures Selected(length, Omitted, At(MIN), 1) == []
    ensures Selected(length, Taken(Omitted), Taken(At(MIN)), 1) == Interval(0, length)
  {
    RangeIsInterval(0, length);
  }

  /** A loop that leaves no index out of range has not wrapped around. */
  lemma {:induction false} InsideIsRange(length: nat, i: int, stop: int, step: int, out: seq<int>)
    requires LoopYields(i, stop, step, out) && Inside(length, out) && -1 <= stop <= length && Fits64(step) && step != 0
    requires Fits64(i)
    ensures out == Range(i, stop, step)
    decreases |out|
  {
    if Goes(i, stop, step) {
      var rest := out[1..];
      var i' := Wrap(i + step);
      assert 0 <= out[0] == i;
      assert Goes(i', stop, step) ==> rest != [] && rest[0] == i' && rest[0] == out[1];
      InsideIsRange(length, i', stop, step, rest);
      assert i' == i + step;
      assert out == [i] + rest;
    }
  }

  /** `xs[1::MAX]` on two elements: the code's loop does not stop after index 1. */
  lemma SliceLoopWraps()
    ensures Selected(2, At(1), Omitted, MAX) == [1]
    ensures !LoopYields(1, 2, MAX, [1])
  {
    assert Range(1 + MAX, 2, MAX) == [];
    assert Range(1, 2, MAX) == [1] + Range(1 + MAX, 2, MAX);
    LoopIsRange(1, 2, MAX);
  }

  // Reading, overwriting and deleting through a slice

  /** The elements at every other position, in their old order. */
  function Without<T>(xs: seq<T>, indices: seq<int>): seq<T> {
    if xs == [] then []
    else
      var n := |xs| - 1;
      Without(xs[..n], indices) + if n in indices then [] else [xs[n]]
  }

  /** What assigning through a slice must do: the selected positions hold the new
      values in order, every other one keeps its own. */
  ghost predicate Overwritten<T>(xs: seq<T>, indices: seq<int>, values: seq<T>, out: seq<T>)
    requires Inside(|xs|, indices)
  {
    && |out| == |xs| && |values| == |indices|
    && Pick(out, indices) == values
    && forall x :: 0 <= x < |xs| && x !in indices ==> out[x] == xs[x]
  }

  /** A slice written with no bounds copies; with step -1 it reverses. */
  lemma WholeSlice<T>(xs: seq<T>)
    ensures var r := Selected(|xs|, Omitted, Omitted, 1);
      Inside(|xs|, r) && Pick(xs, r) == xs
    ensures var r := Selected(|xs|, Omitted, Omitted, -1);
      && Inside(|xs|, r) && |r| == |xs|
      && forall k :: 0 <= k < |xs| ==> Pick(xs, r)[k] == xs[|xs| - 1 - k]
  {
    RangeIsInterval(0, |xs|);
    var r := Selected(|xs|, Omitted, Omitted, -1);
    SelectedInRange(|xs|, Omitted, Omitted, -1);
    if |r| > |xs| {
      SelectedAt(|xs|, Omitted, Omitted, -1, |xs|);
    }
    SelectedAt(|xs|, Omitted, Omitted, -1, |r|);
    forall k | 0 <= k < |xs|
      ensures k < |r| && r[k] == |xs| - 1 - k
    {
      SelectedAt(|xs|, Omitted, Omitted, -1, k);
    }
  }

  /** Cutting anywhere, from either end or beyond it, loses nothing:
      `xs[:k] + xs[k:]` is `xs`. */
  lemma CutAndJoin<T>(xs: seq<T>, k: int)
    ensures var head, tail := Selected(|xs|, Omitted, At(k), 1), Selected(|xs|, At(k), Omitted, 1);
      Inside(|xs|, head) && Inside(|xs|, tail) && Pick(xs, head) + Pick(xs, tail) == xs
  {
    hide Pick, Range, Interval;
    var cut := Adjust(|xs|, At(k), 1, true);
    assert cut == Adjust(|xs|, At(k), 1, false);
    RangeIsInterval(0, cut);
    RangeIsInterval(cut, |xs|);
    PickStretch(xs, 0, cut);
    PickStretch(xs, cut, |xs|);
    assert xs[0..cut] + xs[cut..|xs|] == xs;
  }

  lemma InInterval(lo: int, hi: int, x: int)
    requires lo <= hi
    ensures x in Interval(lo, hi) <==> lo <= x < hi
  {
    if lo <= x < hi {
      assert Interval(lo, hi)[x - lo] == x;
    }
  }

  /** What is before and after a stretch, as far as the sequence goes. */
  function Around<T>(xs: seq<T>, lo: nat, hi: nat): seq<T> {
    xs[..if lo < |xs| then lo else |xs|] + xs[if hi < |xs| then hi else |xs|..]
  }

  lemma AroundNone<T>(xs: seq<T>, lo: nat, hi: nat)
    requires xs == []
    ensures Around(xs, lo, hi) == []
  {
  }

  lemma AroundStep<T>(xs: seq<T>, lo: nat, hi: nat)
    requires xs != [] && lo <= hi
    ensures var n := |xs| - 1;
      Around(xs, lo, hi) == Around(xs[..n], lo, hi) + if lo <= n < hi then [] else [xs[n]]
  {
    var n := |xs| - 1;
    if hi <= n {
      assert xs[..n][hi..] + [xs[n]] == xs[hi..];
    } else if n < lo {
      assert xs[..n] + [xs[n]] == xs;
    }
  }

  /** Deleting a stretch keeps what is before and after it. */
  lemma {:induction false} WithoutStretch<T>(xs: seq<T>, indices: seq<int>, lo: nat, hi: nat)
    requires lo <= hi
    requires forall x :: 0 <= x < |xs| ==> (x in indices <==> lo <= x < hi)
    ensures Without(xs, indices) == Around(xs, lo, hi)
  {
    hide Around;
    if xs == [] {
      AroundNone(xs, lo, hi);
    } else {
      AroundStep(xs, lo, hi);
      WithoutStretch(xs[..|xs| - 1], indices, lo, hi);
    }
  }

  lemma WithoutInterval<T>(xs: seq<T>, lo: nat, hi: nat)
    requires lo <= hi <= |xs|
    ensures Without(xs, Interval(lo, hi)) == xs[..lo] + xs[hi..]
  {
    forall x | 0 <= x < |xs|
      ensures x in Interval(lo, hi) <==> lo <= x < hi
    {
      InInterval(lo, hi, x);
    }
    WithoutStretch(xs, Interval(lo, hi), lo, hi);
  }

  lemma PickStretch<T>(xs: seq<T>, lo: nat, hi: nat)
    requires lo <= hi <= |xs|
    ensures Inside(|xs|, Interval(lo, hi)) && Pick(xs, Interval(lo, hi)) == xs[lo..hi]
  {
  }

  lemma MiddleOut<T>(xs: seq<T>, lo: nat, hi: nat)
    requires lo <= hi <= |xs|
    ensures multiset(xs[lo..hi]) + multiset(xs[..lo] + xs[hi..]) == multiset(xs)
  {
    calc {
      multiset(xs);
      { assert xs == (xs[..lo] + xs[lo..hi]) + xs[hi..]; }
      multiset((xs[..lo] + xs[lo..hi]) + xs[hi..]);
      multiset(xs[..lo] + xs[lo..hi]) + multiset(xs[hi..]);
      (multiset(xs[..lo]) + multiset(xs[lo..hi])) + multiset(xs[hi..]);
    }
    assert multiset(xs[..lo] + xs[hi..]) == multiset(xs[..lo]) + multiset(xs[hi..]);
  }

  /** Reading a slice and deleting it split the elements between them. */
  lemma ReadAndDeletePartition<T>(xs: seq<T>, lo: nat, hi: nat)
    requires lo <= hi <= |xs|
    ensures Inside(|xs|, Interval(lo, hi))
    ensures multiset(Pick(xs, Interval(lo, hi))) + multiset(Without(xs, Interval(lo, hi))) == multiset(xs)
  {
    PickStretch(xs, lo, hi);
    WithoutInterval(xs, lo, hi);
    MiddleOut(xs, lo, hi);
  }

  /** Writing a stretch over, element by element or by cutting and joining. */
  lemma OverwrittenInterval<T>(xs: seq<T>, lo: nat, hi: nat, values: seq<T>)
    requires lo <= hi <= |xs| && |values| == hi - lo
    ensures Inside(|xs|, Interval(lo, hi))
    ensures Overwritten(xs, Interval(lo, hi), values, xs[..lo] + values + xs[hi..])
  {
    var out := xs[..lo] + values + xs[hi..];
    assert Pick(out, Interval(lo, hi)) == values;
    forall x | 0 <= x < |xs| && x !in Interval(lo, hi)
      ensures out[x] == xs[x]
    {
      InInterval(lo, hi, x);
    }
  }

  /** There is one way to overwrite: what is in none of the positions stays, and
      the rest is given. */
  lemma OverwrittenOnce<T>(xs: seq<T>, indices: seq<int>, values: seq<T>, a: seq<T>, b: seq<T>)
    requires Inside(|xs|, indices)
    requires Overwritten(xs, indices, values, a) && Overwritten(xs, indices, values, b)
    ensures a == b
  {
    forall x | 0 <= x < |xs|
      ensures a[x] == b[x]
    {
      if x in indices {
        var k :| 0 <= k < |indices| && indices[k] == x;
        assert Pick(a, indices)[k] == a[x] && Pick(b, indices)[k] == b[x];
      }
    }
  }
}

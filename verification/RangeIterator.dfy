/** The iterator object behind `range(...)` when the loop over it is not lowered to
    a counter (builtins/host.go). Its bounds are words, its current value is a
    box. */
module RangeIterator {
  import opened Boxing
  import opened Int64
  import opened Semantics

  /** The values a consumer sees from the current one on: each is boxed, the step
      is a word's, and the stop is compared before boxing. */
  predicate BoxedYields(current: int, stop: int, step: int, out: seq<int>)
    decreases |out|
  {
    && out != [] && out[0] == current
    && var next := Wrap(current + step);
    if Goes(next, stop, step) then BoxedYields(Boxed(next), stop, step, out[1..]) else |out| == 1
  }

  /** What `range(start, stop, step)` yields as an iterator. */
  predicate IteratorYields(start: int, stop: int, step: int, out: seq<int>) {
    if Goes(start, stop, step) then BoxedYields(Boxed(start), stop, step, out) else out == []
  }

  lemma BoxedYieldsStep(current: int, stop: int, step: int, out: seq<int>)
    ensures var next := Wrap(current + step);
      BoxedYields(current, stop, step, [current] + out) <==>
      if Goes(next, stop, step) then BoxedYields(Boxed(next), stop, step, out) else out == []
  {
    assert ([current] + out)[1..] == out;
  }

  /** An iterator yields one sequence of values at most. */
  lemma {:induction false} BoxedYieldsOnce(current: int, stop: int, step: int, x: seq<int>, y: seq<int>)
    requires BoxedYields(current, stop, step, x) && BoxedYields(current, stop, step, y)
    ensures x == y
    decreases |x|
  {
    var next := Wrap(current + step);
    if Goes(next, stop, step) {
      BoxedYieldsOnce(Boxed(next), stop, step, x[1..], y[1..]);
    }
    assert x == [x[0]] + x[1..] && y == [y[0]] + y[1..];
  }

  class Iterator {
    const stop: int
    const step: int
    var current: int
    var done: bool

    ghost predicate Valid()
      reads this
    {
      Fits64(stop) && Fits64(step) && step != 0 && (!done ==> Inline(current))
    }

    /** A consumer that takes the current value and advances until the iterator is
        done sees exactly `out`. */
    ghost predicate Yields(out: seq<int>)
      reads this
    {
      if done then out == [] else BoxedYields(current, stop, step, out)
    }

    constructor (start: int, stop: int, step: int)
      requires Fits64(start) && Fits64(stop) && Fits64(step) && step != 0
      ensures Valid() && this.stop == stop && this.step == step
      ensures forall out :: Yields(out) <==> IteratorYields(start, stop, step, out)
    {
      this.stop, this.step := stop, step;
      this.current := Boxed(start);
      this.done := if step > 0 then start >= stop else start <= stop;
    }

    method Next() returns (ok: bool)
      requires Valid()
      modifies this
      ensures Valid() && ok == !done
      ensures old(done) ==> done
      ensures !old(done) ==>
        forall out :: Yields(out) <==> old(Yields([current] + out))
    {
      if done {
        return false;
      }
      var next := Wrap(current + step);
      forall out
        ensures Yields([current] + out) <==>
          if Goes(next, stop, step) then BoxedYields(Boxed(next), stop, step, out) else out == []
      {
        BoxedYieldsStep(current, stop, step, out);
      }
      if (step > 0 && next >= stop) || (step < 0 && next <= stop) {
        done := true;
        return false;
      }
      current := Boxed(next);
      ok := true;
    }
  }

  /** `range` with a zero step is an error. */
  method MakeIterator(start: int, stop: int, step: int) returns (it: Iterator?)
    requires Fits64(start) && Fits64(stop) && Fits64(step)
    ensures it == null <==> step == 0
    ensures it != null ==> fresh(it) && it.Valid()
    ensures it != null ==> forall out :: it.Yields(out) <==> IteratorYields(start, stop, step, out)
  {
    if step == 0 {
      return null;
    }
    it := new Iterator(start, stop, step);
  }

  lemma {:induction false} LastBeyond(start: int, stop: int, step: int)
    requires step != 0 && Goes(start, stop, step)
    ensures var r := Range(start, stop, step);
      r != [] && r[0] == start && if step > 0 then start <= r[|r| - 1] else r[|r| - 1] <= start
    decreases |Range(start, stop, step)|
  {
    var rest := Range(start + step, stop, step);
    assert Range(start, stop, step) == [start] + rest;
    if rest != [] {
      LastBeyond(start + step, stop, step);
    }
  }

  lemma PastTheEnd(i: int, stop: int, step: int)
    requires Fits64(i) && Fits64(stop) && Fits64(step) && step != 0 && Goes(i, stop, step)
      && !Goes(i + step, stop, step)
    ensures Goes(Wrap(i + step), stop, step) <==> !Fits64(i + step)
  {
  }

  lemma {:induction false} BoxedIsRange(start: int, stop: int, step: int)
    requires Fits64(start) && Fits64(stop) && Fits64(step) && step != 0 && Goes(start, stop, step)
    ensures var r := Range(start, stop, step);
      && r != []
      && (BoxedYields(Boxed(start), stop, step, r) <==>
            Inline(r[0]) && Inline(r[|r| - 1]) && Fits64(r[|r| - 1] + step))
    decreases |Range(start, stop, step)|
  {
    hide Boxed, Wrap;
    var r, rest := Range(start, stop, step), Range(start + step, stop, step);
    assert r == [start] + rest && r[1..] == rest;
    LastBeyond(start, stop, step);
    if Inline(start) {
      if !Goes(start + step, stop, step) {
        PastTheEnd(start, stop, step);
      } else {
        BoxedIsRange(start + step, stop, step);
        LastBeyond(start + step, stop, step);
        assert r[|r| - 1] == rest[|rest| - 1];
      }
    }
  }

  /** A consumer of the iterator sees the progression that Python's `range` is, and
      that `Semantics.ExecFor` runs over, exactly when the first and the last value
      fit a box and stepping past the last stays within 64 bits. */
  lemma IteratorMeetsCounter(start: int, stop: int, step: int)
    requires Fits64(start) && Fits64(stop) && Fits64(step) && step != 0
    ensures var r := Range(start, stop, step);
      (forall out :: IteratorYields(start, stop, step, out) <==> out == r) <==>
      r == [] || (Inline(r[0]) && Inline(r[|r| - 1]) && Fits64(r[|r| - 1] + step))
  {
    var r := Range(start, stop, step);
    if Goes(start, stop, step) {
      BoxedIsRange(start, stop, step);
      forall out | IteratorYields(start, stop, step, out) && IteratorYields(start, stop, step, r)
        ensures out == r
      {
        BoxedYieldsOnce(Boxed(start), stop, step, out, r);
      }
      if forall out :: IteratorYields(start, stop, step, out) <==> out == r {
        assert IteratorYields(start, stop, step, r);
      }
    } else {
      assert r == [];
    }
  }

  /** `range(2**48, 2**48 + 1)`: the counter visits its one value and stops; the
      iterator's first value is -2^48, and it never ends. */
  lemma LargeRangeNeverEnds(out: seq<int>)
    ensures var start := INLINE_MAX + 1;
      && Range(start, start + 1, 1) == [start] && LoopYields(start, start + 1, 1, [start])
      && Boxed(start) == INLINE_MIN && !IteratorYields(start, start + 1, 1, out)
  {
    var start := INLINE_MAX + 1;
    assert Range(start + 1, start + 1, 1) == [];
    assert Range(start, start + 1, 1) == [start] + Range(start + 1, start + 1, 1);
    LoopIsRange(start, start + 1, 1);
    GoesRound(INLINE_MIN, start + 1, out);
  }

  /** Counting up by one towards a stop no box reaches goes round for ever. */
  lemma {:induction false} GoesRound(current: int, stop: int, out: seq<int>)
    requires Inline(current) && Fits64(stop) && stop > INLINE_MAX + 1
    ensures !BoxedYields(current, stop, 1, out)
    decreases |out|
  {
    if out != [] {
      GoesRound(Boxed(current + 1), stop, out[1..]);
    }
  }

  /** `range(1, 2, 2**63 - 1)`: values that fit a box, and a step past the last that
      does not fit a word. The iterator yields 1 and then 0. */
  lemma IteratorWraps()
    ensures Range(1, 2, MAX) == [1]
    ensures IteratorYields(1, 2, MAX, [1, 0])
  {
    assert Range(1 + MAX, 2, MAX) == [];
    assert Range(1, 2, MAX) == [1] + Range(1 + MAX, 2, MAX);
    assert Boxed(MIN) == 0;
    assert [1, 0][1..] == [0];
    assert BoxedYields(0, 2, MAX, [0]);
  }
}

/** Signed 64-bit machine integers: their range, their wrap-around, and what a
    counting loop over them visits. */
module Int64 {
  import opened Semantics

  const MIN: int := -0x8000_0000_0000_0000
  const MAX: int := 0x7FFF_FFFF_FFFF_FFFF

  predicate Fits64(x: int) {
    MIN <= x <= MAX
  }

  /** Two's-complement wrap-around. */
  function Wrap(x: int): (r: int)
    ensures Fits64(r)
    ensures Fits64(x) ==> r == x
  {
    (x - MIN) % 0x1_0000_0000_0000_0000 + MIN
  }

  /** The guard of a loop that counts from below or from above. */
  predicate Goes(i: int, stop: int, step: int) {
    if step > 0 then i < stop else i > stop
  }

  /** The 64-bit loop `for i; Goes(i, stop, step); i += step` ends after visiting
      exactly the values `out`. */
  predicate LoopYields(i: int, stop: int, step: int, out: seq<int>)
    decreases |out|
  {
    if Goes(i, stop, step) then
      out != [] && out[0] == i && LoopYields(Wrap(i + step), stop, step, out[1..])
    else
      out == []
  }

  lemma LoopYieldsStep(i: int, stop: int, step: int, out: seq<int>)
    requires Goes(i, stop, step)
    ensures LoopYields(i, stop, step, [i] + out) <==> LoopYields(Wrap(i + step), stop, step, out)
  {
    assert ([i] + out)[1..] == out;
  }

  /** A loop visits one sequence of values at most. */
  lemma {:induction false} LoopYieldsOnce(i: int, stop: int, step: int, x: seq<int>, y: seq<int>)
    requires LoopYields(i, stop, step, x) && LoopYields(i, stop, step, y)
    ensures x == y
    decreases |x|
  {
    if Goes(i, stop, step) {
      LoopYieldsOnce(Wrap(i + step), stop, step, x[1..], y[1..]);
      assert x == [x[0]] + x[1..] && y == [y[0]] + y[1..];
    }
  }

  /** The 64-bit loop visits the arithmetic progression exactly when stepping past
      its last value does not wrap around. */
  lemma {:induction false} LoopIsRange(i: int, stop: int, step: int)
    requires Fits64(i) && Fits64(stop) && Fits64(step) && step != 0
    ensures var r := Range(i, stop, step);
      LoopYields(i, stop, step, r) <==> r == [] || Fits64(r[|r| - 1] + step)
    decreases |Range(i, stop, step)|
  {
    var r := Range(i, stop, step);
    if r != [] {
      var rest := Range(i + step, stop, step);
      assert r == [i] + rest && r[1..] == rest;
      if rest == [] {
        assert r[|r| - 1] == i;
        if !Fits64(i + step) {
          assert Goes(Wrap(i + step), stop, step);
        }
      } else {
        LoopIsRange(i + step, stop, step);
        assert r[|r| - 1] == rest[|rest| - 1];
      }
    }
  }

  /** The progression, position by position. */
  lemma {:induction false} RangeAt(start: int, stop: int, step: int, k: nat)
    requires step != 0
    ensures k < |Range(start, stop, step)| <==> Goes(start + k * step, stop, step)
    ensures k < |Range(start, stop, step)| ==> Range(start, stop, step)[k] == start + k * step
    decreases k
  {
    if Goes(start, stop, step) {
      assert Range(start, stop, step) == [start] + Range(start + step, stop, step);
      if k > 0 {
        RangeAt(start + step, stop, step, k - 1);
        assert start + step + (k - 1) * step == start + k * step;
      }
    } else if step > 0 {
      assert k * step >= 0;
    } else {
      assert k * -step >= 0;
      assert k * step == -(k * -step);
    }
  }
}

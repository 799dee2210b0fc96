/** Sequences by index, the size of sets, and the order of strings. */
module Sequences {

  predicate Inside(length: nat, indices: seq<int>) {
    forall k :: 0 <= k < |indices| ==> 0 <= indices[k] < length
  }

  /** The elements at some indices, in the order of the indices. */
  function Pick<T>(xs: seq<T>, indices: seq<int>): (r: seq<T>)
    requires Inside(|xs|, indices)
    ensures |r| == |indices| && forall k :: 0 <= k < |r| ==> r[k] == xs[indices[k]]
  {
    seq(|indices|, k requires 0 <= k < |indices| => xs[indices[k]])
  }

  lemma SubsetSize<T>(a: set<T>, b: set<T>)
    requires a <= b
    ensures |a| <= |b|
  {
    if a != b {
      var x :| x in b && x !in a;
      assert a <= b - {x};
      SubsetSize(a, b - {x});
    }
  }

  /** The order of strings: by the first character that differs, a prefix first. */
  predicate StringLess(a: string, b: string)
    decreases a
  {
    if b == [] then false
    else if a == [] then true
    else if a[0] != b[0] then a[0] < b[0]
    else StringLess(a[1..], b[1..])
  }

  lemma {:induction false} StringLessTotal(a: string, b: string)
    ensures StringLess(a, b) || a == b || StringLess(b, a)
    ensures !(StringLess(a, b) && StringLess(b, a)) && !StringLess(a, a)
    decreases a
  {
    if a != [] && b != [] && a[0] == b[0] {
      StringLessTotal(a[1..], b[1..]);
      assert a == [a[0]] + a[1..] && b == [b[0]] + b[1..];
    }
    if a != [] {
      StringLessTotal(a[1..], a[1..]);
    }
  }

  lemma {:induction false} StringLessTrans(a: string, b: string, c: string)
    requires StringLess(a, b) && StringLess(b, c)
    ensures StringLess(a, c)
    decreases a
  {
    if a != [] && a[0] == b[0] && b[0] == c[0] {
      StringLessTrans(a[1..], b[1..], c[1..]);
    }
  }
}

/** The numbering that makes `except C` a range test: a depth-first walk of the
    class table gives every exception class an interval (compiler/check_decl.go). */
module ClassIntervals {
  import opened Sequences
  import opened Wrappers

  const ROOT := "BaseException"

  /** The classes in declaration order, each with at most one base. */
  datatype RawTable = RawTable(order: seq<string>, base: map<string, string>)
  {
    ghost predicate Valid() {
      && (forall i, j :: 0 <= i < j < |order| ==> order[i] != order[j])
      && (forall c :: c in base ==> c in order && base[c] in order)
      && ROOT in order && ROOT !in base
    }
  }

  type Table = t: RawTable | t.Valid() witness RawTable([ROOT], map[])

  /** The class `n` bases up from `d`. */
  function Up(t: Table, d: string, n: nat): Option<string>
    decreases n
  {
    if n == 0 then Some(d) else if d in t.base then Up(t, t.base[d], n - 1) else None
  }

  /** `d` is `c` or inherits from it. */
  ghost predicate Descends(t: Table, d: string, c: string) {
    exists n: nat :: Up(t, d, n) == Some(c)
  }

  ghost predicate Reachable(t: Table, c: string) {
    c in t.order && Descends(t, c, ROOT)
  }

  lemma {:induction false} UpAdd(t: Table, d: string, n: nat, m: nat)
    requires Up(t, d, n).Some?
    ensures Up(t, d, n + m) == Up(t, Up(t, d, n).value, m)
    decreases n
  {
    if n > 0 {
      UpAdd(t, t.base[d], n - 1, m);
    }
  }

  /** Nothing is above the root, so there is one way up to it. */
  lemma {:induction false} DepthUnique(t: Table, c: string, n: nat, m: nat)
    requires Up(t, c, n) == Some(ROOT) && Up(t, c, m).Some?
    ensures m <= n && Up(t, Up(t, c, m).value, n - m) == Some(ROOT)
    decreases n
  {
    if m > 0 {
      DepthUnique(t, t.base[c], n - 1, m - 1);
    }
  }

  function Names(t: Table): set<string> {
    set i | 0 <= i < |t.order| :: t.order[i]
  }

  lemma {:induction false} NamesSize(order: seq<string>)
    ensures |set i | 0 <= i < |order| :: order[i]| <= |order|
    decreases order
  {
    if order != [] {
      var n := |order| - 1;
      NamesSize(order[..n]);
      assert (set i | 0 <= i < |order| :: order[i]) == (set i | 0 <= i < n :: order[..n][i]) + {order[n]};
    }
  }

  lemma NamesHas(t: Table, c: string)
    ensures c in Names(t) <==> c in t.order
  {
  }

  ghost predicate RootWithin(t: Table, c: string, n: nat) {
    exists m: nat :: m <= n && Up(t, c, m) == Some(ROOT)
  }

  /** The classes on the way up are different ones. */
  lemma {:induction false} Chain(t: Table, c: string, n: nat) returns (s: set<string>)
    requires c in t.order && Up(t, c, n) == Some(ROOT)
    ensures s <= Names(t) && |s| == n + 1
    ensures forall x :: x in s ==> RootWithin(t, x, n)
    decreases n
  {
    hide RootWithin, Names;
    NamesHas(t, c);
    WithinSelf(t, c, n);
    if n == 0 {
      s := {c};
    } else {
      var rest := Chain(t, t.base[c], n - 1);
      NotWithinLess(t, c, n);
      s := rest + {c};
      forall x | x in rest ensures RootWithin(t, x, n) {
        WithinMore(t, x, n - 1);
      }
    }
  }

  lemma WithinSelf(t: Table, c: string, n: nat)
    requires Up(t, c, n) == Some(ROOT)
    ensures RootWithin(t, c, n)
  {
  }

  lemma WithinMore(t: Table, c: string, n: nat)
    requires RootWithin(t, c, n)
    ensures RootWithin(t, c, n + 1)
  {
    var m: nat :| m <= n && Up(t, c, m) == Some(ROOT);
    assert m <= n + 1;
  }

  lemma NotWithinLess(t: Table, c: string, n: nat)
    requires n > 0 && Up(t, c, n) == Some(ROOT)
    ensures !RootWithin(t, c, n - 1)
  {
    if RootWithin(t, c, n - 1) {
      var m: nat :| m <= n - 1 && Up(t, c, m) == Some(ROOT);
      DepthUnique(t, c, m, n);
    }
  }

  lemma DepthBelow(t: Table, c: string, n: nat)
    requires c in t.order && Up(t, c, n) == Some(ROOT)
    ensures n < |t.order|
  {
    var s := Chain(t, c, n);
    SubsetSize(s, Names(t));
    NamesSize(t.order);
  }

  ghost function Depth(t: Table, c: string): (n: nat)
    requires Reachable(t, c)
    ensures Up(t, c, n) == Some(ROOT) && n < |t.order|
  {
    var n: nat :| Up(t, c, n) == Some(ROOT);
    DepthBelow(t, c, n);
    n
  }

  lemma DepthIs(t: Table, c: string, n: nat)
    requires Reachable(t, c) && Up(t, c, n) == Some(ROOT)
    ensures Depth(t, c) == n
  {
    DepthUnique(t, c, n, Depth(t, c));
    DepthUnique(t, c, Depth(t, c), n);
  }

  // Children.

  function KidsIn(t: Table, names: seq<string>, c: string): seq<string>
    decreases names
  {
    if names == [] then []
    else (if names[0] in t.base && t.base[names[0]] == c then [names[0]] else []) + KidsIn(t, names[1..], c)
  }

  function Kids(t: Table, c: string): seq<string> {
    KidsIn(t, t.order, c)
  }

  predicate Different(names: seq<string>) {
    forall i, j :: 0 <= i < j < |names| ==> names[i] != names[j]
  }

  lemma {:induction false} KidsInAre(t: Table, names: seq<string>, c: string)
    ensures forall k :: k in KidsIn(t, names, c) <==> k in names && k in t.base && t.base[k] == c
    ensures Different(names) ==> Different(KidsIn(t, names, c))
    decreases names
  {
    if names != [] {
      assert forall k :: k in names <==> k == names[0] || k in names[1..];
      KidsInAre(t, names[1..], c);
    }
  }

  /** The children of a class are the classes whose base it is, each once. */
  lemma KidsAre(t: Table, c: string)
    ensures forall k :: k in Kids(t, c) <==> k in t.base && t.base[k] == c
    ensures Different(Kids(t, c))
  {
    KidsInAre(t, t.order, c);
    assert Different(t.order);
  }

  lemma KidDepth(t: Table, c: string, k: string)
    requires Reachable(t, c) && k in Kids(t, c)
    ensures Reachable(t, k) && Depth(t, k) == Depth(t, c) + 1 && Up(t, k, 1) == Some(c)
  {
    KidsAre(t, c);
    assert Up(t, k, Depth(t, c) + 1) == Some(ROOT);
    DepthIs(t, k, Depth(t, c) + 1);
  }

  ghost predicate Level(t: Table, ks: seq<string>, depth: nat) {
    forall i :: 0 <= i < |ks| ==> Reachable(t, ks[i]) && Depth(t, ks[i]) == depth
  }

  lemma KidsLevel(t: Table, c: string)
    requires Reachable(t, c)
    ensures Level(t, Kids(t, c), Depth(t, c) + 1) && Depth(t, c) < |t.order|
  {
    forall i | 0 <= i < |Kids(t, c)| ensures Reachable(t, Kids(t, c)[i]) && Depth(t, Kids(t, c)[i]) == Depth(t, c) + 1 {
      KidDepth(t, c, Kids(t, c)[i]);
    }
  }

  /** A class and its descendants. */
  ghost function Size(t: Table, c: string): (n: nat)
    requires Reachable(t, c)
    ensures n >= 1
    decreases |t.order| - Depth(t, c), 1, 0
  {
    KidsLevel(t, c);
    1 + SizeAll(t, Kids(t, c), Depth(t, c) + 1)
  }

  ghost function SizeAll(t: Table, ks: seq<string>, depth: nat): nat
    requires Level(t, ks, depth) && depth <= |t.order|
    decreases |t.order| - depth, 2, |ks|
  {
    if ks == [] then 0 else Size(t, ks[0]) + SizeAll(t, ks[1..], depth)
  }

  // What a numbering is.

  datatype Numbers = Numbers(id: map<string, int>, low: map<string, int>, high: map<string, int>)
  {
    predicate Has(c: string) {
      c in id && c in low && c in high
    }

    predicate SameAt(o: Numbers, c: string) {
      Has(c) && o.Has(c) && id[c] == o.id[c] && low[c] == o.low[c] && high[c] == o.high[c]
    }
  }

  ghost predicate Tree(t: Table, c: string, start: int, n: Numbers)
    requires Reachable(t, c)
    decreases |t.order| - Depth(t, c), 1, 0
  {
    KidsLevel(t, c);
    && n.Has(c) && n.id[c] == start && n.low[c] == start && n.high[c] == start + Size(t, c) - 1
    && Forest(t, Kids(t, c), Depth(t, c) + 1, start + 1, n)
  }

  ghost predicate Forest(t: Table, ks: seq<string>, depth: nat, start: int, n: Numbers)
    requires Level(t, ks, depth) && depth <= |t.order|
    decreases |t.order| - depth, 2, |ks|
  {
    ks == [] || (Tree(t, ks[0], start, n) && Forest(t, ks[1..], depth, start + Size(t, ks[0]), n))
  }

  // Descendants.

  lemma DescendsSelf(t: Table, c: string)
    ensures Descends(t, c, c)
  {
    assert Up(t, c, 0) == Some(c);
  }

  lemma KidDescends(t: Table, k: string, c: string)
    requires Up(t, k, 1) == Some(c)
    ensures Descends(t, k, c)
  {
  }

  lemma DescendsTrans(t: Table, d: string, e: string, c: string)
    requires Descends(t, d, e) && Descends(t, e, c)
    ensures Descends(t, d, c)
  {
    var n: nat :| Up(t, d, n) == Some(e);
    var m: nat :| Up(t, e, m) == Some(c);
    UpAdd(t, d, n, m);
  }

  /** Below a reachable class everything is reachable, and deeper unless it is the class. */
  lemma DescendsDepth(t: Table, d: string, c: string)
    requires Reachable(t, c) && Descends(t, d, c) && d in t.order
    ensures Reachable(t, d) && Depth(t, d) >= Depth(t, c) && (d != c ==> Depth(t, d) > Depth(t, c))
  {
    var n: nat :| Up(t, d, n) == Some(c);
    UpAdd(t, d, n, Depth(t, c));
    DepthIs(t, d, n + Depth(t, c));
  }

  /** A proper descendant descends from exactly one child. */
  lemma DescendsKid(t: Table, d: string, c: string) returns (k: string)
    requires Descends(t, d, c) && d != c && d in t.order
    ensures k in Kids(t, c) && Descends(t, d, k)
  {
    var n: nat :| Up(t, d, n) == Some(c);
    k := KidOnTheWay(t, d, n, c);
  }

  lemma {:induction false} KidOnTheWay(t: Table, d: string, n: nat, c: string) returns (k: string)
    requires n > 0 && Up(t, d, n) == Some(c)
    ensures k in Kids(t, c) && Descends(t, d, k)
    decreases n
  {
    KidsAre(t, c);
    if n == 1 {
      k := d;
      assert Up(t, t.base[d], 0) == Some(c);
      DescendsSelf(t, d);
    } else {
      k := KidOnTheWay(t, t.base[d], n - 1, c);
      assert Up(t, d, 1) == Some(t.base[d]);
      DescendsTrans(t, d, t.base[d], k);
    }
  }

  /** Classes of one depth share no descendants. */
  lemma LevelApart(t: Table, d: string, a: string, b: string)
    requires Reachable(t, a) && Reachable(t, b) && Depth(t, a) == Depth(t, b) && Descends(t, d, a)
      && Descends(t, d, b) && d in t.order
    ensures a == b
  {
    var n: nat :| Up(t, d, n) == Some(a);
    var m: nat :| Up(t, d, m) == Some(b);
    UpAdd(t, d, n, Depth(t, a));
    UpAdd(t, d, m, Depth(t, b));
    DepthUnique(t, d, n + Depth(t, a), m + Depth(t, b));
    DepthUnique(t, d, m + Depth(t, b), n + Depth(t, a));
  }

  // A numbered tree puts exactly the descendants of a class in its interval.

  /** Every descendant has a number in the interval. */
  lemma {:induction false} TreeContains(t: Table, c: string, start: int, n: Numbers, d: string)
    requires Reachable(t, c) && Tree(t, c, start, n) && Descends(t, d, c) && d in t.order
    ensures n.Has(d) && start <= n.low[d] == n.id[d] && n.high[d] <= start + Size(t, c) - 1 && n.low[d] <= n.high[d]
    ensures d != c ==> start < n.low[d]
    decreases |t.order| - Depth(t, c), 1, 0
  {
    hide RawTable.Valid, Descends, Forest, Up, SizeAll;
    KidsLevel(t, c);
    if d != c {
      var k := DescendsKid(t, d, c);
      var i :| 0 <= i < |Kids(t, c)| && Kids(t, c)[i] == k;
      ForestContains(t, Kids(t, c), Depth(t, c) + 1, start + 1, n, i, d);
    }
  }

  lemma {:induction false} ForestContains(t: Table, ks: seq<string>, depth: nat, start: int, n: Numbers, i: nat,
        d: string)
    requires Level(t, ks, depth) && depth <= |t.order| && Forest(t, ks, depth, start, n) && i < |ks|
      && Descends(t, d, ks[i]) && d in t.order
    ensures n.Has(d) && start <= n.low[d] == n.id[d] && n.high[d] <= start + SizeAll(t, ks, depth) - 1
      && n.low[d] <= n.high[d]
    decreases |t.order| - depth, 2, |ks|
  {
    hide RawTable.Valid, Descends, Tree, Up, Size;
    if i == 0 {
      TreeContains(t, ks[0], start, n, d);
    } else {
      ForestContains(t, ks[1..], depth, start + Size(t, ks[0]), n, i - 1, d);
    }
  }

  /** The interval of `e` holds the number of `d` exactly when `d` descends from `e`. */
  lemma {:induction false} TreeDecides(t: Table, c: string, start: int, n: Numbers, d: string, e: string)
    requires Reachable(t, c) && Tree(t, c, start, n) && d in t.order && e in t.order && Descends(t, d, c)
      && Descends(t, e, c)
    ensures n.Has(d) && n.Has(e)
    ensures n.low[e] <= n.id[d] <= n.high[e] <==> Descends(t, d, e)
    decreases |t.order| - Depth(t, c), 1, 0
  {
    hide RawTable.Valid, Descends, Forest, Up, SizeAll, Size;
    KidsLevel(t, c);
    TreeContains(t, c, start, n, d);
    TreeContains(t, c, start, n, e);
    if e == c {
    } else if d == c {
      DescendsDepth(t, e, c);
      if Descends(t, d, e) {
        DescendsDepth(t, d, e);
      }
    } else {
      var k := DescendsKid(t, d, c);
      var l := DescendsKid(t, e, c);
      var ks := Kids(t, c);
      KidsAre(t, c);
      var i :| 0 <= i < |ks| && ks[i] == k;
      var j :| 0 <= j < |ks| && ks[j] == l;
      ForestDecides(t, ks, Depth(t, c) + 1, start + 1, n, i, j, d, e);
    }
  }

  lemma {:induction false} ForestDecides(t: Table, ks: seq<string>, depth: nat, start: int, n: Numbers, i: nat,
        j: nat, d: string, e: string)
    requires Level(t, ks, depth) && depth <= |t.order| && Forest(t, ks, depth, start, n) && i < |ks| && j < |ks|
    requires Different(ks)
    requires d in t.order && e in t.order && Descends(t, d, ks[i]) && Descends(t, e, ks[j])
    ensures n.Has(d) && n.Has(e)
    ensures n.low[e] <= n.id[d] <= n.high[e] <==> Descends(t, d, e)
    decreases |t.order| - depth, 2, |ks|
  {
    hide RawTable.Valid, Descends, Tree, Up, Size, Depth;
    if i > 0 && j > 0 {
      ForestDecides(t, ks[1..], depth, start + Size(t, ks[0]), n, i - 1, j - 1, d, e);
    } else if i == 0 && j == 0 {
      TreeDecides(t, ks[0], start, n, d, e);
    } else {
      if i == 0 {
        TreeContains(t, ks[0], start, n, d);
        ForestContains(t, ks[1..], depth, start + Size(t, ks[0]), n, j - 1, e);
      } else {
        TreeContains(t, ks[0], start, n, e);
        ForestContains(t, ks[1..], depth, start + Size(t, ks[0]), n, i - 1, d);
      }
      if Descends(t, d, e) {
        DescendsTrans(t, d, e, ks[j]);
        LevelApart(t, d, ks[i], ks[j]);
      }
    }
  }

  // The walk.

  /** Numbering another part of the table leaves a numbered tree as it was. */
  lemma {:induction false} TreeKept(t: Table, c: string, start: int, n: Numbers, n': Numbers)
    requires Reachable(t, c) && Tree(t, c, start, n)
    requires forall d :: d in t.order && Descends(t, d, c) && n.Has(d) ==> n.SameAt(n', d)
    ensures Tree(t, c, start, n')
    decreases |t.order| - Depth(t, c), 1, 0
  {
    hide RawTable.Valid, Descends, Forest, Up, SizeAll, Size;
    KidsLevel(t, c);
    DescendsSelf(t, c);
    forall d, i | 0 <= i < |Kids(t, c)| && d in t.order && Descends(t, d, Kids(t, c)[i]) && n.Has(d)
        ensures n.SameAt(n', d) {
      KidDepth(t, c, Kids(t, c)[i]);
      KidDescends(t, Kids(t, c)[i], c);
      DescendsTrans(t, d, Kids(t, c)[i], c);
    }
    ForestKept(t, Kids(t, c), Depth(t, c) + 1, start + 1, n, n');
  }

  lemma {:induction false} ForestKept(t: Table, ks: seq<string>, depth: nat, start: int, n: Numbers, n': Numbers)
    requires Level(t, ks, depth) && depth <= |t.order| && Forest(t, ks, depth, start, n)
    requires forall d, i :: 0 <= i < |ks| && d in t.order && Descends(t, d, ks[i]) && n.Has(d) ==> n.SameAt(n', d)
    ensures Forest(t, ks, depth, start, n')
    decreases |t.order| - depth, 2, |ks|
  {
    hide RawTable.Valid, Descends, Tree, Up, SizeAll, Size;
    if ks != [] {
      TreeKept(t, ks[0], start, n, n');
      ForestKept(t, ks[1..], depth, start + Size(t, ks[0]), n, n');
    }
  }

  lemma {:induction false} ForestConcat(t: Table, ks: seq<string>, k: string, depth: nat, start: int, n: Numbers)
    requires Level(t, ks, depth) && depth <= |t.order| && Forest(t, ks, depth, start, n)
    requires Reachable(t, k) && Depth(t, k) == depth && Tree(t, k, start + SizeAll(t, ks, depth), n)
    ensures Level(t, ks + [k], depth) && Forest(t, ks + [k], depth, start, n)
    ensures SizeAll(t, ks + [k], depth) == SizeAll(t, ks, depth) + Size(t, k)
    decreases ks
  {
    hide RawTable.Valid, Descends, Tree, Up, Size;
    assert Level(t, ks + [k], depth);
    if ks != [] {
      assert (ks + [k])[1..] == ks[1..] + [k];
      ForestConcat(t, ks[1..], k, depth, start + Size(t, ks[0]), n);
    } else {
      assert [k][1..] == [];
    }
  }

  /** Outside `c` and its descendants the numbers are as they were. */
  ghost predicate Outside(t: Table, c: string, n: Numbers, n': Numbers) {
    forall d :: !(d in t.order && Descends(t, d, c)) && n.Has(d) ==> n.SameAt(n', d)
  }

  ghost predicate Complete(t: Table, n: Numbers) {
    forall d :: d in t.order ==> n.Has(d)
  }

  /** The children before `i` are numbered, and so is `c` but for its upper end. */
  ghost predicate Partly(t: Table, c: string, i: nat, start: int, n0: Numbers, n: Numbers, next: int)
    requires Reachable(t, c) && i <= |Kids(t, c)|
  {
    && Complete(t, n) && Outside(t, c, n0, n)
    && Depth(t, c) < |t.order|
    && Level(t, Kids(t, c)[..i], Depth(t, c) + 1)
    && Forest(t, Kids(t, c)[..i], Depth(t, c) + 1, start + 1, n)
    && next == start + 1 + SizeAll(t, Kids(t, c)[..i], Depth(t, c) + 1)
    && n.id[c] == n.low[c] == start
  }

  lemma PartlyStart(t: Table, c: string, start: int, n0: Numbers, n: Numbers)
    requires Reachable(t, c) && Complete(t, n0)
    requires n == Numbers(n0.id[c := start], n0.low[c := start], n0.high)
    ensures Partly(t, c, 0, start, n0, n, start + 1) && Complete(t, n)
  {
    hide Descends, Reachable, Depth, Forest, SizeAll;
    DescendsSelf(t, c);
    assert Kids(t, c)[..0] == [];
    NoneNumbered(t, Depth(t, c) + 1, start + 1, n);
  }

  lemma PartlyStep(t: Table, c: string, i: nat, start: int, n0: Numbers, n: Numbers, n': Numbers, next: int)
    requires Reachable(t, c) && i < |Kids(t, c)| && Partly(t, c, i, start, n0, n, next)
    requires Reachable(t, Kids(t, c)[i])
    requires Outside(t, Kids(t, c)[i], n, n') && Complete(t, n') && Tree(t, Kids(t, c)[i], next, n')
    ensures Partly(t, c, i + 1, start, n0, n', next + Size(t, Kids(t, c)[i]))
  {
    hide RawTable.Valid, Descends, Tree, Forest, Up, SizeAll, Size;
    var ks := Kids(t, c);
    KidDepth(t, c, ks[i]);
    ChildApart(t, c, i, start + 1, n, n');
    ForestConcat(t, ks[..i], ks[i], Depth(t, c) + 1, start + 1, n');
    assert ks[..i + 1] == ks[..i] + [ks[i]];
    assert n.SameAt(n', c);
  }

  lemma PartlyDone(t: Table, c: string, start: int, n0: Numbers, n: Numbers, n': Numbers, next: int)
    requires Reachable(t, c) && Partly(t, c, |Kids(t, c)|, start, n0, n, next)
    requires n' == Numbers(n.id, n.low, n.high[c := next - 1])
    ensures next == start + Size(t, c) && Tree(t, c, start, n') && Outside(t, c, n0, n') && Complete(t, n')
  {
    hide RawTable.Valid, Descends, Forest, Up, SizeAll;
    var ks := Kids(t, c);
    assert ks[..|ks|] == ks;
    DescendsSelf(t, c);
    ParentApart(t, c, start + 1, n, n');
  }

  lemma NoneNumbered(t: Table, depth: nat, start: int, n: Numbers)
    requires depth <= |t.order|
    ensures Level(t, [], depth) && Forest(t, [], depth, start, n) && SizeAll(t, [], depth) == 0
  {
  }

  /** Walking child `i` of `c` changes neither the numbered children before it,
      nor `c`, nor anything outside `c`. */
  lemma ChildApart(t: Table, c: string, i: nat, start: int, n: Numbers, n': Numbers)
    requires Reachable(t, c) && i < |Kids(t, c)|
    requires Level(t, Kids(t, c)[..i], Depth(t, c) + 1) && Depth(t, c) < |t.order|
      && Forest(t, Kids(t, c)[..i], Depth(t, c) + 1, start, n)
    requires forall d :: !(d in t.order && Descends(t, d, Kids(t, c)[i])) && n.Has(d) ==> n.SameAt(n', d)
    ensures Forest(t, Kids(t, c)[..i], Depth(t, c) + 1, start, n')
    ensures n.Has(c) ==> n.SameAt(n', c)
    ensures forall d :: !(d in t.order && Descends(t, d, c)) && n.Has(d) ==> n.SameAt(n', d)
  {
    hide RawTable.Valid, Descends, Tree, Forest, Up, SizeAll, Size;
    var ks := Kids(t, c);
    KidsAre(t, c);
    KidDepth(t, c, ks[i]);
    KidDescends(t, ks[i], c);
    if Descends(t, c, ks[i]) {
      DescendsDepth(t, c, ks[i]);
    }
    forall d | d in t.order && Descends(t, d, ks[i]) ensures Descends(t, d, c) {
      DescendsTrans(t, d, ks[i], c);
    }
    forall d, j | 0 <= j < i && d in t.order && Descends(t, d, ks[..i][j]) && n.Has(d) ensures n.SameAt(n', d) {
      KidDepth(t, c, ks[j]);
      if Descends(t, d, ks[i]) {
        LevelApart(t, d, ks[i], ks[j]);
      }
    }
    ForestKept(t, ks[..i], Depth(t, c) + 1, start, n, n');
  }

  /** Numbering `c` itself changes none of its children's trees. */
  lemma ParentApart(t: Table, c: string, start: int, n: Numbers, n': Numbers)
    requires Reachable(t, c) && Level(t, Kids(t, c), Depth(t, c) + 1) && Depth(t, c) < |t.order|
      && Forest(t, Kids(t, c), Depth(t, c) + 1, start, n)
    requires forall d :: d != c && n.Has(d) ==> n.SameAt(n', d)
    ensures Forest(t, Kids(t, c), Depth(t, c) + 1, start, n')
  {
    hide RawTable.Valid, Descends, Tree, Forest, Up, SizeAll, Size;
    var ks := Kids(t, c);
    forall d, j | 0 <= j < |ks| && d in t.order && Descends(t, d, ks[j]) && n.Has(d) ensures n.SameAt(n', d) {
      KidDepth(t, c, ks[j]);
      DescendsDepth(t, d, ks[j]);
    }
    ForestKept(t, ks, Depth(t, c) + 1, start, n, n');
  }

  class Walker {
    const table: Table
    var children: map<string, seq<string>>
    var classID: map<string, int>
    var low: map<string, int>
    var high: map<string, int>
    var next: int

    ghost function Now(): Numbers
      reads this
    {
      Numbers(classID, low, high)
    }

    /** Unnumbered classes have the zero interval. */
    constructor (table: Table)
      ensures this.table == table && next == 1
      ensures Complete(table, Now()) && forall c :: c in table.order ==> classID[c] == low[c] == high[c] == 0
      ensures ChildrenFound()
    {
      this.table := table;
      next := 1;
      var zero := map c | c in table.order :: 0;
      classID, low, high := zero, zero, zero;
      children := map[];
      new;
      FindChildren();
    }

    method FindChildren()
      modifies this`children
      ensures ChildrenFound()
    {
      hide RawTable.Valid;
      children := map[];
      for i := 0 to |table.order|
        invariant forall c :: ChildrenOf(c) == KidsIn(table, table.order[..i], c)
      {
        var name := table.order[i];
        assert table.order[..i + 1] == table.order[..i] + [name];
        ghost var before := children;
        if name in table.base {
          var b := table.base[name];
          children := children[b := (if b in children then children[b] else []) + [name]];
        }
        forall c ensures ChildrenOf(c) == KidsIn(table, table.order[..i + 1], c) {
          KidsAppend(table, table.order[..i], name, c);
          assert (if c in before then before[c] else []) == KidsIn(table, table.order[..i], c);
        }
      }
      assert table.order[..|table.order|] == table.order;
    }

    ghost predicate ChildrenFound()
      reads this`children
    {
      forall c :: ChildrenOf(c) == Kids(table, c)
    }

    function ChildrenOf(c: string): seq<string>
      reads this`children
    {
      if c in children then children[c] else []
    }

    /** Numbers `c` and everything below it, and nothing else. */
    method Dfs(c: string)
      requires Reachable(table, c) && Complete(table, Now())
      requires ChildrenFound()
      modifies this`classID, this`low, this`high, this`next
      ensures next == old(next) + Size(table, c) && Tree(table, c, old(next), Now())
      ensures Outside(table, c, old(Now()), Now()) && Complete(table, Now())
      decreases |table.order| - Depth(table, c), 2
    {
      hide RawTable.Valid, Descends, Reachable, Tree, Forest, Up, SizeAll, Size, Outside, Partly, ChildrenFound,
           Depth, Complete, Kids;
      ghost var start, n0 := next, Now();
      classID, low := classID[c := next], low[c := next];
      next := next + 1;
      PartlyStart(table, c, start, n0, Now());
      DfsChildren(c, start, n0);
      ghost var before := Now();
      high := high[c := next - 1];
      PartlyDone(table, c, start, n0, before, Now(), next);
    }

    /** The loop of `Dfs`. */
    method DfsChildren(c: string, ghost start: int, ghost n0: Numbers)
      requires Reachable(table, c) && Complete(table, Now()) && ChildrenFound()
        && Partly(table, c, 0, start, n0, Now(), next)
      modifies this`classID, this`low, this`high, this`next
      ensures Complete(table, Now()) && Partly(table, c, |Kids(table, c)|, start, n0, Now(), next)
      decreases |table.order| - Depth(table, c), 1
    {
      var kids := ChildrenOf(c);
      assert kids == Kids(table, c);
      hide RawTable.Valid, Descends, Reachable, Partly, ChildrenFound, ChildrenOf, Depth, Complete, Kids;
      var i := 0;
      while i < |kids|
        invariant 0 <= i <= |kids|
        invariant Complete(table, Now()) && Partly(table, c, i, start, n0, Now(), next)
      {
        DfsChild(c, i, kids[i], start, n0);
        i := i + 1;
      }
    }

    /** One turn of that loop. */
    method DfsChild(ghost c: string, ghost i: nat, kid: string, ghost start: int, ghost n0: Numbers)
      requires Reachable(table, c) && Complete(table, Now()) && ChildrenFound()
      requires i < |Kids(table, c)| && kid == Kids(table, c)[i] && Partly(table, c, i, start, n0, Now(), next)
      modifies this`classID, this`low, this`high, this`next
      ensures Complete(table, Now()) && Partly(table, c, i + 1, start, n0, Now(), next)
      decreases |table.order| - Depth(table, c), 0
    {
      hide RawTable.Valid, Descends, Tree, Forest, Up, SizeAll, Size, Outside, Partly, ChildrenFound, Complete;
      ghost var before, nextBefore := Now(), next;
      KidDepth(table, c, kid);
      PartlyDepth(table, c, i, start, n0, before, next);
      Dfs(kid);
      PartlyStep(table, c, i, start, n0, before, Now(), nextBefore);
    }

    /** Walks down from the root, if there is anything to walk. */
    method ComputeIntervals()
      requires next == 1 && Complete(table, Now()) && ChildrenFound()
      requires forall c :: c in table.order ==> classID[c] == low[c] == high[c] == 0
      modifies this`classID, this`low, this`high, this`next
      ensures Numbered(table, Now())
    {
      RootReachable(table);
      ghost var n0 := Now();
      Dfs(ROOT);
      NumberedAll(table, n0, Now());
    }
  }

  lemma PartlyDepth(t: Table, c: string, i: nat, start: int, n0: Numbers, n: Numbers, next: int)
    requires Reachable(t, c) && i <= |Kids(t, c)| && Partly(t, c, i, start, n0, n, next)
    ensures Depth(t, c) < |t.order|
  {
  }

  lemma RootReachable(t: Table)
    ensures Reachable(t, ROOT)
  {
    DescendsSelf(t, ROOT);
  }

  /** What the walk leaves: the root's tree numbered from one, everything else zero. */
  ghost predicate Numbered(t: Table, n: Numbers) {
    && Complete(t, n)
    && Reachable(t, ROOT) && Tree(t, ROOT, 1, n)
    && forall c :: c in t.order && !Reachable(t, c) ==> n.id[c] == n.low[c] == n.high[c] == 0
  }

  lemma NumberedAll(t: Table, n0: Numbers, n: Numbers)
    requires Complete(t, n0) && Complete(t, n) && Outside(t, ROOT, n0, n)
    requires forall c :: c in t.order ==> n0.id[c] == n0.low[c] == n0.high[c] == 0
    requires Reachable(t, ROOT) && Tree(t, ROOT, 1, n)
    ensures Numbered(t, n)
  {
    hide Descends, Tree;
    forall c | c in t.order && !Reachable(t, c) ensures n.id[c] == n.low[c] == n.high[c] == 0 {
      assert n0.SameAt(n, c);
    }
  }

  /** After the walk, for every exception class `d` and every class `c` of the
      table, the interval of `c` holds the number of `d` exactly when `d` is `c`
      or inherits from it. */
  lemma IntervalsDecide(t: Table, n: Numbers, d: string, c: string)
    requires Numbered(t, n) && Reachable(t, d) && c in t.order
    ensures n.low[c] <= n.id[d] <= n.high[c] <==> Descends(t, d, c)
  {
    hide RawTable.Valid, Descends, Tree, Up;
    if Reachable(t, c) {
      TreeDecides(t, ROOT, 1, n, d, c);
    } else {
      TreeContains(t, ROOT, 1, n, d);
      if Descends(t, d, c) {
        AboveReachable(t, d, c);
      }
    }
  }

  lemma AboveReachable(t: Table, d: string, c: string)
    requires Reachable(t, d) && Descends(t, d, c) && c in t.order
    ensures Reachable(t, c)
  {
    var m: nat :| Up(t, d, m) == Some(c);
    DepthUnique(t, d, Depth(t, d), m);
  }

  /** No two classes share a number, and the numbers start at 1. */
  lemma IntervalsNumberOnce(t: Table, n: Numbers, c: string, d: string)
    requires Numbered(t, n) && Reachable(t, c) && Reachable(t, d)
    ensures 1 <= n.id[c] <= Size(t, ROOT)
    ensures n.id[c] == n.id[d] <==> c == d
  {
    hide RawTable.Valid, Descends, Tree, Up, Size;
    TreeContains(t, ROOT, 1, n, c);
    TreeContains(t, ROOT, 1, n, d);
    if n.id[c] == n.id[d] {
      IntervalsDecide(t, n, c, d);
      IntervalsDecide(t, n, d, c);
      DescendsDepth(t, c, d);
      DescendsDepth(t, d, c);
    }
  }

  /** Every number of a tree's block is some descendant's. */
  lemma {:induction false} TreeHits(t: Table, c: string, start: int, n: Numbers, m: int) returns (d: string)
    requires c in t.order && Reachable(t, c) && Tree(t, c, start, n) && start <= m < start + Size(t, c)
    ensures d in t.order && Descends(t, d, c) && n.Has(d) && n.id[d] == m
    decreases |t.order| - Depth(t, c), 1, 0
  {
    hide RawTable.Valid, Descends, Forest, Up, SizeAll;
    KidsLevel(t, c);
    if m == start {
      DescendsSelf(t, c);
      d := c;
    } else {
      var k;
      k, d := ForestHits(t, Kids(t, c), Depth(t, c) + 1, start + 1, n, m);
      KidDepth(t, c, k);
      KidDescends(t, k, c);
      DescendsTrans(t, d, k, c);
    }
  }

  lemma {:induction false} ForestHits(t: Table, ks: seq<string>, depth: nat, start: int, n: Numbers, m: int)
    returns (k: string, d: string)
    requires Level(t, ks, depth) && depth <= |t.order| && Forest(t, ks, depth, start, n)
    requires start <= m < start + SizeAll(t, ks, depth)
    ensures k in ks && d in t.order && Descends(t, d, k) && n.Has(d) && n.id[d] == m
    decreases |t.order| - depth, 2, |ks|
  {
    hide RawTable.Valid, Descends, Tree, Up, Size;
    if m < start + Size(t, ks[0]) {
      k := ks[0];
      d := TreeHits(t, k, start, n, m);
    } else {
      k, d := ForestHits(t, ks[1..], depth, start + Size(t, ks[0]), n, m);
    }
  }

  /** Every number up to the size of the root's tree is a reachable class's. */
  lemma NumberTaken(t: Table, n: Numbers, m: int) returns (d: string)
    requires Numbered(t, n) && 1 <= m <= Size(t, ROOT)
    ensures Reachable(t, d) && n.Has(d) && n.id[d] == m
  {
    hide Tree, Up, Size;
    d := TreeHits(t, ROOT, 1, n, m);
  }

  ghost function ReachableClasses(t: Table): set<string> {
    set c | c in t.order && Reachable(t, c)
  }

  lemma {:induction false} CountNumbered(s: set<string>, id: map<string, int>, k: nat)
    requires forall c :: c in s ==> c in id && 1 <= id[c] <= k
    requires forall c, d :: c in s && d in s && id[c] == id[d] ==> c == d
    requires forall m :: 1 <= m <= k ==> Taken(s, id, m)
    ensures |s| == k
    decreases k
  {
    if k == 0 {
      assert s == {};
    } else {
      assert Taken(s, id, k);
      var c :| c in s && c in id && id[c] == k;
      forall m | 1 <= m <= k - 1 ensures Taken(s - {c}, id, m) {
        assert Taken(s, id, m);
        var d :| d in s && d in id && id[d] == m;
        assert d in s - {c};
      }
      CountNumbered(s - {c}, id, k - 1);
    }
  }

  ghost predicate Taken(s: set<string>, id: map<string, int>, m: int) {
    exists c :: c in s && c in id && id[c] == m
  }

  /** The walk counts: its last number is the number of classes below the root, and
      every number up to it is taken. */
  lemma IntervalsCount(t: Table, n: Numbers)
    requires Numbered(t, n)
    ensures n.high[ROOT] == |ReachableClasses(t)|
    ensures forall m :: 1 <= m <= |ReachableClasses(t)| ==> Taken(ReachableClasses(t), n.id, m)
  {
    hide Up, Forest, Size, Reachable;
    var s, k := ReachableClasses(t), Size(t, ROOT);
    forall c | c in s ensures c in n.id && 1 <= n.id[c] <= k {
      IntervalsNumberOnce(t, n, c, c);
    }
    forall c, d | c in s && d in s && n.id[c] == n.id[d] ensures c == d {
      IntervalsNumberOnce(t, n, c, d);
    }
    forall m | 1 <= m <= k ensures Taken(s, n.id, m) {
      var d := NumberTaken(t, n, m);
      InOrder(t, d);
      assert d in s;
    }
    CountNumbered(s, n.id, k);
    assert n.high[ROOT] == 1 + k - 1;
  }

  lemma InOrder(t: Table, d: string)
    requires Reachable(t, d)
    ensures d in t.order
  {
  }

  lemma {:induction false} KidsAppend(t: Table, names: seq<string>, name: string, c: string)
    ensures KidsIn(t, names + [name], c) ==
      KidsIn(t, names, c) + (if name in t.base && t.base[name] == c then [name] else [])
    decreases names
  {
    if names != [] {
      assert (names + [name])[1..] == names[1..] + [name];
      KidsAppend(t, names[1..], name, c);
    } else {
      assert [name][1..] == [];
    }
  }
}

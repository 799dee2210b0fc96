/** What a pattern means apart from the order it is tested in: which values it
    matches and what it binds. The Python Language Reference, section 8.6.4. */
module PatternMeaning {
  import opened Wrappers
  import opened Syntax
  import opened Semantics

  predicate Matches(p: Pattern, v: Value)
    decreases p
  {
    match p
    case Wildcard => true
    case Capture(_) => true
    case As(pat, _) => Matches(pat, v)
    case Or(alts) => exists i :: 0 <= i < |alts| && Matches(alts[i], v)
    case ValuePat(lit) => IsLiteral(lit) && LiteralValue(lit) == v
    case SeqPat(before, star, after) =>
      && (v.VTuple? || v.VList?)
      && Fits(before, star, after, |v.elems|)
      && (forall i :: 0 <= i < |before| ==> Matches(before[i], v.elems[i]))
      && (forall i :: 0 <= i < |after| ==> Matches(after[i], v.elems[|v.elems| - |after| + i]))
  }

  function NamesOf(x: string): set<string> {
    if Binds(x) then {x} else {}
  }

  /** Every name a pattern may bind. */
  function Names(p: Pattern): set<string>
    decreases p, 0
  {
    match p
    case Wildcard => {}
    case Capture(x) => NamesOf(x)
    case As(pat, x) => Names(pat) + NamesOf(x)
    case Or(alts) => NamesAll(alts)
    case ValuePat(_) => {}
    case SeqPat(before, star, after) =>
      NamesAll(before) + NamesAll(after) + (if star.Some? then NamesOf(star.value) else {})
  }

  function NamesAll(ps: seq<Pattern>): set<string>
    decreases ps, 1
  {
    if ps == [] then {} else Names(ps[0]) + NamesAll(ps[1..])
  }

  /** A name occurs at most once in each alternative, as the grammar of section
      8.6.4 demands. */
  predicate Linear(p: Pattern)
    decreases p, 0
  {
    match p
    case As(pat, x) => Linear(pat) && Names(pat) !! NamesOf(x)
    case Or(alts) => forall i :: 0 <= i < |alts| ==> Linear(alts[i])
    case SeqPat(before, star, after) =>
      && LinearAll(before) && LinearAll(after) && NamesAll(before) !! NamesAll(after)
      && (star.Some? ==> NamesOf(star.value) !! NamesAll(before) + NamesAll(after))
    case _ => true
  }

  predicate LinearAll(ps: seq<Pattern>)
    decreases ps, 1
  {
    ps == [] || (Linear(ps[0]) && LinearAll(ps[1..]) && Names(ps[0]) !! NamesAll(ps[1..]))
  }

  function Binding(x: string, v: Value): Store {
    if Binds(x) then map[x := v] else map[]
  }

  /** The first alternative that matches. */
  function FirstAlt(alts: seq<Pattern>, v: Value): (i: nat)
    requires exists i :: 0 <= i < |alts| && Matches(alts[i], v)
    ensures i < |alts| && Matches(alts[i], v) && forall j :: 0 <= j < i ==> !Matches(alts[j], v)
  {
    if Matches(alts[0], v) then 0
    else
      var k :| 0 <= k < |alts| && Matches(alts[k], v);
      assert alts[1..][k - 1] == alts[k];
      var r := FirstAlt(alts[1..], v);
      assert forall j :: 1 <= j < r + 1 ==> alts[j] == alts[1..][j - 1];
      r + 1
  }

  /** What a pattern that matches binds: each name to its own part of the value. */
  function Bound(p: Pattern, v: Value): Store
    requires Matches(p, v)
    decreases p, 0
  {
    match p
    case Wildcard => map[]
    case Capture(x) => Binding(x, v)
    case As(pat, x) => Bound(pat, v) + Binding(x, v)
    case Or(alts) => Bound(alts[FirstAlt(alts, v)], v)
    case ValuePat(_) => map[]
    case SeqPat(before, star, after) =>
      var n, b, a := |v.elems|, |before|, |after|;
      BoundAll(before, v.elems[..b]) + BoundAll(after, v.elems[n - a..])
      + (if star.Some? then Binding(star.value, VList(v.elems[b..n - a])) else map[])
  }

  function BoundAll(ps: seq<Pattern>, vs: seq<Value>): Store
    requires |ps| == |vs| && forall i :: 0 <= i < |ps| ==> Matches(ps[i], vs[i])
    decreases ps, 1
  {
    if ps == [] then map[] else Bound(ps[0], vs[0]) + BoundAll(ps[1..], vs[1..])
  }

  /** `st'` is `st` with `b` bound, give or take names of `others` that `b` does not bind. */
  predicate Updates(st: Store, st': Store, b: Store, others: set<string>) {
    && (forall x :: x in b ==> x in st' && st'[x] == b[x])
    && (forall x :: x in st && x !in others && x !in b ==> x in st' && st'[x] == st[x])
    && (forall x :: x in st' && x !in others && x !in b ==> x in st)
  }

  lemma {:induction false} BoundNames(p: Pattern, v: Value)
    requires Matches(p, v)
    ensures Bound(p, v).Keys <= Names(p)
    decreases p, 0
  {
    match p
    case As(pat, x) => BoundNames(pat, v);
    case Or(alts) =>
      var i := FirstAlt(alts, v);
      BoundNames(alts[i], v);
      NamesMember(alts, i);
    case SeqPat(before, star, after) =>
      BoundAllNames(before, v.elems[..|before|]);
      BoundAllNames(after, v.elems[|v.elems| - |after|..]);
    case _ =>
  }

  lemma {:induction false} BoundAllNames(ps: seq<Pattern>, vs: seq<Value>)
    requires |ps| == |vs| && forall i :: 0 <= i < |ps| ==> Matches(ps[i], vs[i])
    ensures BoundAll(ps, vs).Keys <= NamesAll(ps)
    decreases ps, 1
  {
    if ps != [] {
      BoundNames(ps[0], vs[0]);
      BoundAllNames(ps[1..], vs[1..]);
    }
  }

  lemma {:induction false} NamesMember(ps: seq<Pattern>, i: nat)
    requires i < |ps|
    ensures Names(ps[i]) <= NamesAll(ps)
    decreases ps
  {
    if i > 0 {
      NamesMember(ps[1..], i - 1);
    }
  }

  /** The pattern test succeeds exactly on the values the pattern matches, whatever
      names it binds and however often. */
  lemma {:induction false} MatchSucceeds(p: Pattern, v: Value, st: Store)
    ensures MatchPat(p, v, st).0 <==> Matches(p, v)
    decreases p, 0
  {
    match p
    case As(pat, x) => MatchSucceeds(pat, v, st);
    case Or(alts) => MatchAnySucceeds(alts, v, st);
    case SeqPat(before, star, after) =>
      if (v.VTuple? || v.VList?) && Fits(before, star, after, |v.elems|) {
        MatchEndsSucceeds(p, v.elems, st);
      }
    case _ =>
  }

  lemma {:induction false} MatchEndsSucceeds(p: Pattern, vs: seq<Value>, st: Store)
    requires p.SeqPat? && |p.before| + |p.after| <= |vs|
    ensures MatchEnds(p, vs, st).0 <==>
      (forall i :: 0 <= i < |p.before| ==> Matches(p.before[i], vs[i])) &&
      (forall i :: 0 <= i < |p.after| ==> Matches(p.after[i], vs[|vs| - |p.after| + i]))
    decreases p, 0, 0
  {
    hide MatchPat, Matches, MatchAll;
    var b, a := vs[..|p.before|], vs[|vs| - |p.after|..];
    MatchAllSucceeds(p.before, b, st);
    MatchAllSucceeds(p.after, a, MatchAll(p.before, b, st).1);
    assert forall i :: 0 <= i < |p.before| ==> b[i] == vs[i];
    assert forall i :: 0 <= i < |p.after| ==> a[i] == vs[|vs| - |p.after| + i];
  }

  lemma {:induction false} MatchAnySucceeds(alts: seq<Pattern>, v: Value, st: Store)
    ensures MatchAny(alts, v, st).0 <==> exists i :: 0 <= i < |alts| && Matches(alts[i], v)
    decreases alts, 1
  {
    hide MatchPat, Matches;
    if alts != [] {
      MatchSucceeds(alts[0], v, st);
      if !Matches(alts[0], v) {
        MatchAnySucceeds(alts[1..], v, MatchPat(alts[0], v, st).1);
        FirstAltTail(alts, v);
      }
    }
  }

  lemma {:induction false} MatchAllSucceeds(ps: seq<Pattern>, vs: seq<Value>, st: Store)
    requires |ps| == |vs|
    ensures MatchAll(ps, vs, st).0 <==> forall i :: 0 <= i < |ps| ==> Matches(ps[i], vs[i])
    decreases ps, 1
  {
    hide MatchPat, Matches;
    if ps != [] {
      MatchSucceeds(ps[0], vs[0], st);
      AllSplit(ps, vs);
      if Matches(ps[0], vs[0]) {
        MatchAllSucceeds(ps[1..], vs[1..], MatchPat(ps[0], vs[0], st).1);
      }
    }
  }

  /** No alternatives, so nothing that fails on the way to a match. */
  predicate OrFree(p: Pattern)
    decreases p
  {
    match p
    case Or(_) => false
    case As(pat, _) => OrFree(pat)
    case SeqPat(before, _, after) =>
      && (forall i :: 0 <= i < |before| ==> OrFree(before[i]))
      && (forall i :: 0 <= i < |after| ==> OrFree(after[i]))
    case _ => true
  }

  /** Of a name that a pattern without alternatives binds more than once, the last
      binding stays; and a match changes no other name. */
  lemma {:induction false} LastBindingWins(p: Pattern, v: Value, st: Store)
    requires OrFree(p) && Matches(p, v)
    ensures MatchPat(p, v, st) == (true, st + Bound(p, v))
    decreases p, 0
  {
    match p
    case Wildcard => assert st + map[] == st;
    case ValuePat(_) => assert st + map[] == st;
    case Capture(x) => BindAdds(st, x, v);
    case As(pat, x) =>
      LastBindingWins(pat, v, st);
      BindAdds(st + Bound(pat, v), x, v);
      AddTwice(st, Bound(pat, v), Binding(x, v));
    case SeqPat(before, star, after) => LastSeqBindingsWin(p, v, st);
  }

  lemma {:induction false} LastSeqBindingsWin(p: Pattern, v: Value, st: Store)
    requires p.SeqPat? && OrFree(p) && Matches(p, v)
    ensures MatchPat(p, v, st) == (true, st + Bound(p, v))
    decreases p, 0, 0
  {
    hide Matches, OrFree, MatchAll, BoundAll, BindCapture, Binding;
    SeqParts(p, v);
    var n, k, m := |v.elems|, |p.before|, |p.after|;
    var b, a := v.elems[..k], v.elems[n - m..];
    LastBindingsWin(p.before, b, st);
    LastBindingsWin(p.after, a, st + BoundAll(p.before, b));
    AddTwice(st, BoundAll(p.before, b), BoundAll(p.after, a));
    var both := BoundAll(p.before, b) + BoundAll(p.after, a);
    assert MatchEnds(p, v.elems, st) == (true, st + both);
    if p.star.Some? {
      var rest := VList(v.elems[k..n - m]);
      BindAdds(st + both, p.star.value, rest);
      AddTwice(st, both, Binding(p.star.value, rest));
    } else {
      assert both + map[] == both;
    }
  }

  lemma SeqParts(p: Pattern, v: Value)
    requires p.SeqPat? && OrFree(p) && Matches(p, v)
    ensures (v.VTuple? || v.VList?) && Fits(p.before, p.star, p.after, |v.elems|)
    ensures forall i :: 0 <= i < |p.before| ==> OrFree(p.before[i]) && Matches(p.before[i], v.elems[..|p.before|][i])
    ensures forall i :: 0 <= i < |p.after| ==>
      OrFree(p.after[i]) && Matches(p.after[i], v.elems[|v.elems| - |p.after|..][i])
  {
  }

  lemma {:induction false} LastBindingsWin(ps: seq<Pattern>, vs: seq<Value>, st: Store)
    requires |ps| == |vs| && forall i :: 0 <= i < |ps| ==> OrFree(ps[i]) && Matches(ps[i], vs[i])
    ensures MatchAll(ps, vs, st) == (true, st + BoundAll(ps, vs))
    decreases ps, 1
  {
    if ps == [] {
      assert st + map[] == st;
    } else {
      LastBindingWins(ps[0], vs[0], st);
      LastBindingsWin(ps[1..], vs[1..], st + Bound(ps[0], vs[0]));
      AddTwice(st, Bound(ps[0], vs[0]), BoundAll(ps[1..], vs[1..]));
    }
  }

  lemma AddTwice(st: Store, a: Store, b: Store)
    ensures (st + a) + b == st + (a + b)
  {
  }

  lemma BindAdds(st: Store, x: string, v: Value)
    ensures BindCapture(st, x, v) == st + Binding(x, v)
  {
    assert st + map[] == st;
  }

  /** The pattern test succeeds exactly on the values the pattern matches, and
      then leaves every captured name bound to its own part of the value and
      every name that is not in the pattern as it was. */
  lemma {:induction false} MatchMeans(p: Pattern, v: Value, st: Store)
    requires Linear(p)
    ensures MatchPat(p, v, st).0 <==> Matches(p, v)
    ensures Matches(p, v) ==> Updates(st, MatchPat(p, v, st).1, Bound(p, v), Names(p))
    ensures Updates(st, MatchPat(p, v, st).1, map[], Names(p))
    decreases p, 0
  {
    match p
    case As(pat, x) =>
      MatchMeans(pat, v, st);
      if Matches(pat, v) {
        BoundNames(pat, v);
      }
      AsMeans(pat, x, v, st);
    case Or(alts) => MatchAnyMeans(alts, v, st);
    case SeqPat(before, star, after) =>
      if (v.VTuple? || v.VList?) && Fits(before, star, after, |v.elems|) {
        MatchEndsMeans(p, v.elems, st);
        SeqMeans(p, v, st);
      }
    case _ =>
  }

  lemma AsMeans(pat: Pattern, x: string, v: Value, st: Store)
    requires Linear(As(pat, x)) && (MatchPat(pat, v, st).0 <==> Matches(pat, v))
    requires Matches(pat, v) ==>
      Updates(st, MatchPat(pat, v, st).1, Bound(pat, v), Names(pat)) && Bound(pat, v).Keys <= Names(pat)
    requires Updates(st, MatchPat(pat, v, st).1, map[], Names(pat))
    ensures MatchPat(As(pat, x), v, st).0 <==> Matches(As(pat, x), v)
    ensures Matches(As(pat, x), v) ==>
      Updates(st, MatchPat(As(pat, x), v, st).1, Bound(As(pat, x), v), Names(As(pat, x)))
    ensures Updates(st, MatchPat(As(pat, x), v, st).1, map[], Names(As(pat, x)))
  {
    var (ok, st1) := MatchPat(pat, v, st);
    if ok {
      BindLast(st, st1, Bound(pat, v), Names(pat), x, v);
      assert Updates(st, BindCapture(st1, x, v), map[], Names(pat) + NamesOf(x));
    }
  }

  /** Binding one more name on top. */
  lemma BindLast(st: Store, st1: Store, b: Store, names: set<string>, x: string, v: Value)
    requires Updates(st, st1, b, names) && b.Keys <= names && names !! NamesOf(x)
    ensures Updates(st, BindCapture(st1, x, v), b + Binding(x, v), names + NamesOf(x))
    ensures (b + Binding(x, v)).Keys <= names + NamesOf(x)
  {
  }

  lemma SeqMeans(p: Pattern, v: Value, st: Store)
    requires p.SeqPat? && Linear(p) && (v.VTuple? || v.VList?) && Fits(p.before, p.star, p.after, |v.elems|)
    requires EndsMean(p, v.elems, st)
    ensures MatchPat(p, v, st).0 <==> Matches(p, v)
    ensures Matches(p, v) ==> Updates(st, MatchPat(p, v, st).1, Bound(p, v), Names(p))
    ensures Updates(st, MatchPat(p, v, st).1, map[], Names(p))
  {
    hide Linear, LinearAll, MatchEnds, BoundAll, NamesAll, NamesOf, BindCapture, Binding;
    var vs := v.elems;
    var (ok, st1) := MatchEnds(p, vs, st);
    var names := NamesAll(p.before) + NamesAll(p.after);
    SeqMatches(p, v, st);
    if ok {
      var b := BoundAll(p.before, vs[..|p.before|]) + BoundAll(p.after, vs[|vs| - |p.after|..]);
      if p.star.Some? {
        var x, rest := p.star.value, VList(vs[|p.before|..|vs| - |p.after|]);
        StarApart(p);
        BindLast(st, st1, b, names, x, rest);
        OnlyNames(st, BindCapture(st1, x, rest), b + Binding(x, rest), names + NamesOf(x));
      } else {
        assert b + map[] == b;
        assert names + {} == names;
        OnlyNames(st, st1, b, names);
      }
    } else {
      OnlyNames(st, st1, map[], names);
      MoreNames(st, st1, names, Names(p));
    }
  }

  lemma StarApart(p: Pattern)
    requires p.SeqPat? && Linear(p) && p.star.Some?
    ensures NamesAll(p.before) + NamesAll(p.after) !! NamesOf(p.star.value)
  {
  }

  lemma OnlyNames(st: Store, st': Store, b: Store, names: set<string>)
    requires Updates(st, st', b, names)
    ensures b.Keys <= names ==> Updates(st, st', map[], names)
  {
  }

  lemma MoreNames(st: Store, st': Store, names: set<string>, more: set<string>)
    requires Updates(st, st', map[], names) && names <= more
    ensures Updates(st, st', map[], more)
  {
  }

  lemma SeqMatches(p: Pattern, v: Value, st: Store)
    requires p.SeqPat? && (v.VTuple? || v.VList?) && Fits(p.before, p.star, p.after, |v.elems|)
    requires EndsMean(p, v.elems, st)
    ensures MatchEnds(p, v.elems, st).0 <==> Matches(p, v)
  {
    hide MatchEnds, BoundAll, NamesAll;
  }

  lemma {:induction false} MatchAnyMeans(alts: seq<Pattern>, v: Value, st: Store)
    requires forall i :: 0 <= i < |alts| ==> Linear(alts[i])
    ensures MatchAny(alts, v, st).0 <==> exists i :: 0 <= i < |alts| && Matches(alts[i], v)
    ensures MatchAny(alts, v, st).0 ==>
      Updates(st, MatchAny(alts, v, st).1, Bound(alts[FirstAlt(alts, v)], v), NamesAll(alts))
    ensures Updates(st, MatchAny(alts, v, st).1, map[], NamesAll(alts))
    decreases alts, 1
  {
    hide MatchPat, Bound, Names, Linear, Matches, FirstAlt;
    if alts != [] {
      MatchMeans(alts[0], v, st);
      if !Matches(alts[0], v) {
        var st1 := MatchPat(alts[0], v, st).1;
        MatchAnyMeans(alts[1..], v, st1);
        FirstAltTail(alts, v);
      }
    }
  }

  /** When the first alternative does not match, the others decide. */
  lemma FirstAltTail(alts: seq<Pattern>, v: Value)
    requires alts != [] && !Matches(alts[0], v)
    ensures (exists i :: 0 <= i < |alts| && Matches(alts[i], v)) <==>
      exists i :: 0 <= i < |alts[1..]| && Matches(alts[1..][i], v)
    ensures (exists i :: 0 <= i < |alts[1..]| && Matches(alts[1..][i], v)) ==>
      alts[FirstAlt(alts, v)] == alts[1..][FirstAlt(alts[1..], v)]
  {
    hide Matches;
    if i :| 0 <= i < |alts[1..]| && Matches(alts[1..][i], v) {
      assert Matches(alts[i + 1], v);
    }
    if i :| 0 <= i < |alts| && Matches(alts[i], v) {
      assert Matches(alts[1..][i - 1], v);
    }
  }

  lemma {:induction false} MatchAllMeans(ps: seq<Pattern>, vs: seq<Value>, st: Store)
    requires |ps| == |vs| && LinearAll(ps)
    ensures MatchAll(ps, vs, st).0 <==> forall i :: 0 <= i < |ps| ==> Matches(ps[i], vs[i])
    ensures MatchAll(ps, vs, st).0 ==> Updates(st, MatchAll(ps, vs, st).1, BoundAll(ps, vs), NamesAll(ps))
    ensures Updates(st, MatchAll(ps, vs, st).1, map[], NamesAll(ps))
    decreases ps, 1
  {
    if ps != [] {
      MatchMeans(ps[0], vs[0], st);
      if Matches(ps[0], vs[0]) {
        BoundNames(ps[0], vs[0]);
        MatchAllMeans(ps[1..], vs[1..], MatchPat(ps[0], vs[0], st).1);
        AllSplit(ps, vs);
        if forall i :: 0 <= i < |ps| ==> Matches(ps[i], vs[i]) {
          BoundAllNames(ps[1..], vs[1..]);
        }
      }
    }
  }

  lemma AllSplit(ps: seq<Pattern>, vs: seq<Value>)
    requires |ps| == |vs| > 0
    ensures (forall i :: 0 <= i < |ps| ==> Matches(ps[i], vs[i]))
      <==> Matches(ps[0], vs[0]) && forall i :: 0 <= i < |ps[1..]| ==> Matches(ps[1..][i], vs[1..][i])
  {
    if Matches(ps[0], vs[0]) && forall i :: 0 <= i < |ps[1..]| ==> Matches(ps[1..][i], vs[1..][i]) {
      forall i | 0 <= i < |ps| ensures Matches(ps[i], vs[i]) {
        if i > 0 {
          assert Matches(ps[1..][i - 1], vs[1..][i - 1]);
        }
      }
    }
  }

  ghost predicate EndsMean(p: Pattern, vs: seq<Value>, st: Store)
    requires p.SeqPat? && |p.before| + |p.after| <= |vs|
  {
    var b, a := vs[..|p.before|], vs[|vs| - |p.after|..];
    var r := MatchEnds(p, vs, st);
    && (r.0 <==> (forall i :: 0 <= i < |p.before| ==> Matches(p.before[i], b[i]))
                 && (forall i :: 0 <= i < |p.after| ==> Matches(p.after[i], a[i])))
    && (r.0 ==> Updates(st, r.1, BoundAll(p.before, b) + BoundAll(p.after, a), NamesAll(p.before) + NamesAll(p.after)))
    && (r.0 ==> (BoundAll(p.before, b) + BoundAll(p.after, a)).Keys <= NamesAll(p.before) + NamesAll(p.after))
    && Updates(st, r.1, map[], NamesAll(p.before) + NamesAll(p.after))
  }

  lemma {:induction false} MatchEndsMeans(p: Pattern, vs: seq<Value>, st: Store)
    requires p.SeqPat? && Linear(p) && |p.before| + |p.after| <= |vs|
    ensures EndsMean(p, vs, st)
    decreases p, 0, 0
  {
    hide MatchPat, MatchAll, Matches, BoundAll, NamesAll, LinearAll;
    var b, a := vs[..|p.before|], vs[|vs| - |p.after|..];
    MatchAllMeans(p.before, b, st);
    var (ok, st1) := MatchAll(p.before, b, st);
    if ok {
      BoundAllNames(p.before, b);
      MatchAllMeans(p.after, a, st1);
      if MatchAll(p.after, a, st1).0 {
        BoundAllNames(p.after, a);
      }
    }
  }

  // Match statements.

  ghost predicate NotEntered(c: Case, v: Value, st: Store) {
    CaseTest(c, v, st).Some? && !CaseTest(c, v, st).value.0
  }

  /** The store after the first `k` cases were tried. */
  function After(cases: seq<Case>, k: nat, v: Value, st: Store): Store
    requires k <= |cases|
    decreases k
  {
    if k == 0 then st
    else MatchPat(cases[k - 1].pat, v, After(cases, k - 1, v, st)).1
  }

  /** The first case whose pattern matches the subject and whose guard holds is
      the one that runs, on a store with its captures bound, and without one
      the statement ends. */
  lemma {:induction false} FirstCaseRuns(fuel: nat, cases: seq<Case>, k: nat, v: Value, st: Store)
    requires k <= |cases| && forall i :: 0 <= i < k ==> NotEntered(cases[i], v, After(cases, i, v, st))
    ensures k == |cases| ==> ExecCases(fuel, cases, v, st) == Done(Normal, After(cases, k, v, st))
    ensures k < |cases| && Matches(cases[k].pat, v) ==>
      var st0 := After(cases, k, v, st);
      var st1 := MatchPat(cases[k].pat, v, st0).1;
      && (Linear(cases[k].pat) ==> Updates(st0, st1, Bound(cases[k].pat, v), Names(cases[k].pat)))
      && (cases[k].guard.None? || Eval(cases[k].guard.value, st1) == Some(VBool(true)) ==>
            ExecCases(fuel, cases, v, st) == ExecBlock(fuel, cases[k].body, st1))
  {
    hide MatchPat, Updates, Bound, Names, Linear, Matches, ExecBlock, Eval;
    CasesPassed(fuel, cases, k, v, st);
    if k < |cases| {
      MatchSucceeds(cases[k].pat, v, After(cases, k, v, st));
    }
    if k < |cases| && Linear(cases[k].pat) {
      MatchMeans(cases[k].pat, v, After(cases, k, v, st));
    }
  }

  lemma {:induction false} CasesPassed(fuel: nat, cases: seq<Case>, k: nat, v: Value, st: Store)
    requires k <= |cases| && forall i :: 0 <= i < k ==> NotEntered(cases[i], v, After(cases, i, v, st))
    ensures ExecCases(fuel, cases, v, st) == ExecCases(fuel, cases[k..], v, After(cases, k, v, st))
    decreases k
  {
    hide MatchPat, ExecBlock, Eval;
    if k > 0 {
      CasesPassed(fuel, cases, k - 1, v, st);
      assert NotEntered(cases[k - 1], v, After(cases, k - 1, v, st));
      assert cases[k - 1..][1..] == cases[k..];
    }
  }

  /** A case is passed over exactly when its pattern does not match or its guard is false. */
  lemma PassedOver(c: Case, v: Value, st: Store)
    ensures NotEntered(c, v, st) <==>
      (!Matches(c.pat, v) || (c.guard.Some? && Eval(c.guard.value, MatchPat(c.pat, v, st).1) == Some(VBool(false))))
  {
    MatchSucceeds(c.pat, v, st);
  }
}

/** `sorted(xs, key=f, reverse=r)`: the compiler rewrites the call to decorate,
    sort and undecorate (compiler/sorted_key.go), over the host's sort
    (builtins/host.go). Python promises a stable sort by key, in which equal keys
    keep their order also when reversed. The host compares by static type, and a
    literal type hides what it is a literal of: the rewrite is exactly as good as
    what the key's type lets it see. */
module SortedRewrite {
  import opened Boxing
  import opened Sequences
  import opened TypeLattice
  import opened JoinBounds
  import U = UnionJoin

  /** The orderable values; a float is a real, so NaN is excluded. */
  datatype Key =
    | KInt(i: int)
    | KFloat(f: real)
    | KBool(b: bool)
    | KStr(s: string)
    | KTuple(fields: seq<Key>)

  function Sort(k: Key): nat {
    match k case KInt(_) => 0 case KFloat(_) => 1 case KBool(_) => 2 case KStr(_) => 3 case KTuple(_) => 4
  }

  /** Python's order, completed to an order of all keys: tuples by the first field
      that differs. */
  predicate KeyLess(a: Key, b: Key)
    decreases a, 1
  {
    match (a, b)
    case (KInt(x), KInt(y)) => x < y
    case (KFloat(x), KFloat(y)) => x < y
    case (KBool(x), KBool(y)) => !x && y
    case (KStr(x), KStr(y)) => StringLess(x, y)
    case (KTuple(xs), KTuple(ys)) => KeysLess(xs, ys)
    case _ => Sort(a) < Sort(b)
  }

  predicate KeysLess(xs: seq<Key>, ys: seq<Key>)
    decreases xs, 0
  {
    if ys == [] then false
    else if xs == [] then true
    else if xs[0] != ys[0] then KeyLess(xs[0], ys[0])
    else KeysLess(xs[1..], ys[1..])
  }

  lemma {:induction false} KeyLessTotal(a: Key, b: Key)
    ensures KeyLess(a, b) || a == b || KeyLess(b, a)
    ensures !(KeyLess(a, b) && KeyLess(b, a)) && !KeyLess(a, a)
    decreases a, 1
  {
    match a
    case KTuple(xs) => KeysLessTotal(xs, if b.KTuple? then b.fields else xs);
    case KStr(x) => StringLessTotal(x, if b.KStr? then b.s else x);
    case _ =>
  }

  lemma {:induction false} KeysLessTotal(xs: seq<Key>, ys: seq<Key>)
    ensures KeysLess(xs, ys) || xs == ys || KeysLess(ys, xs)
    ensures !(KeysLess(xs, ys) && KeysLess(ys, xs)) && !KeysLess(xs, xs)
    decreases xs, 0
  {
    if xs != [] {
      KeyLessTotal(xs[0], if ys == [] then xs[0] else ys[0]);
      KeysLessTotal(xs[1..], if ys == [] then xs[1..] else ys[1..]);
      assert xs == [xs[0]] + xs[1..] && (ys != [] ==> ys == [ys[0]] + ys[1..]);
    }
  }

  lemma {:induction false} KeyLessTrans(a: Key, b: Key, c: Key)
    requires KeyLess(a, b) && KeyLess(b, c)
    ensures KeyLess(a, c)
    decreases a, 1
  {
    if a.KTuple? && b.KTuple? && c.KTuple? {
      KeysLessTrans(a.fields, b.fields, c.fields);
    }
    if a.KStr? && b.KStr? && c.KStr? {
      StringLessTrans(a.s, b.s, c.s);
    }
  }

  lemma {:induction false} KeysLessTrans(xs: seq<Key>, ys: seq<Key>, zs: seq<Key>)
    requires KeysLess(xs, ys) && KeysLess(ys, zs)
    ensures KeysLess(xs, zs)
    decreases xs, 0
  {
    if xs != [] {
      if xs[0] == ys[0] == zs[0] {
        KeysLessTrans(xs[1..], ys[1..], zs[1..]);
      } else if xs[0] != ys[0] && ys[0] != zs[0] {
        KeyLessTrans(xs[0], ys[0], zs[0]);
        KeyLessTotal(xs[0], ys[0]);
      }
    }
  }

  // What the host compares.

  function KeyOf(v: LiteralValue): seq<Key> {
    match v
    case LInt(i) => [KInt(i)]
    case LBool(b) => [KBool(b)]
    case LStr(s) => [KStr(s)]
    case LNone => []
  }

  /** Which keys a static type describes. */
  predicate HasType(k: Key, t: Ty)
    decreases t
  {
    match t
    case Prim(PInt) => k.KInt?
    case Prim(PFloat) => k.KFloat?
    case Prim(PBool) => k.KBool?
    case Prim(PStr) => k.KStr?
    case Tuple(ts) => k.KTuple? && |k.fields| == |ts| && forall i :: 0 <= i < |ts| ==> HasType(k.fields[i], ts[i])
    case Literal(_, vs) => exists i :: 0 <= i < |vs| && KeyOf(vs[i]) == [k]
    case Union(ms) => exists i :: 0 <= i < |ms| && HasType(k, ms[i])
    case _ => false
  }

  predicate Scalar(t: Ty) {
    t == Int || t == Float || t == Prim(PBool) || t == Prim(PStr)
  }

  /** What the checker lets a key be: a type that erases to a scalar, or a tuple of
      such. */
  predicate Orderable(t: Ty, quote: string -> string)
    decreases t
  {
    if t.Tuple? then forall i :: 0 <= i < |t.elems| ==> Orderable(t.elems[i], quote)
    else Scalar(U.Erase(t, quote))
  }

  /** The host's comparison by element type: a tuple field by field, the first that
      is less either way decides; a scalar type by value; and any other type, a
      literal among them, tells no two values apart. */
  predicate BoxedLess(a: Key, b: Key, t: Ty)
    requires HasType(a, t) && HasType(b, t)
    decreases t, 1
  {
    match t
    case Tuple(ts) => LessFields(a.fields, b.fields, ts)
    case Prim(PInt) => a.i < b.i
    case Prim(PFloat) => a.f < b.f
    case Prim(PBool) => !a.b && b.b
    case Prim(PStr) => StringLess(a.s, b.s)
    case _ => false
  }

  predicate AllHave(xs: seq<Key>, ts: seq<Ty>) {
    |xs| == |ts| && forall i :: 0 <= i < |ts| ==> HasType(xs[i], ts[i])
  }

  predicate LessFields(xs: seq<Key>, ys: seq<Key>, ts: seq<Ty>)
    requires AllHave(xs, ts) && AllHave(ys, ts)
    decreases ts, 0
  {
    if ts == [] then false
    else if BoxedLess(xs[0], ys[0], ts[0]) then true
    else if BoxedLess(ys[0], xs[0], ts[0]) then false
    else LessFields(xs[1..], ys[1..], ts[1..])
  }

  /** The host erases the element type to find out whether it is a tuple. Erasing
      never makes or unmakes one. */
  lemma ErasesToTuple(t: Ty, quote: string -> string)
    requires WellFormed(t)
    ensures U.Erase(t, quote).Tuple? <==> t.Tuple?
    ensures t.Tuple? ==> U.Erase(t, quote) == t
  {
    hide Equal, U.NewUnion, U.Erase, WellFormed, U.Covered, U.From, U.Parts, U.Flatten;
    if t.Union? {
      var es, e := U.EraseAll(t.members, quote), U.Erase(t, quote);
      EraseUnion(t, quote);
      EraseMembers(t, quote);
      U.UnionNormal(es, quote);
      PartsDiffer(e);
      if e.Tuple? {
        SeveralMembers(t);
        MemberErases(t, es, e, 0, quote);
        MemberErases(t, es, e, 1, quote);
        MembersDiffer(t, e);
      }
    } else {
      EraseAtom(t, quote);
      if t.Literal? {
        BaseKinds(t);
      }
    }
  }

  lemma SeveralMembers(t: Ty)
    requires WellFormed(t) && t.Union?
    ensures |t.members| >= 2
  {
  }

  /** If a union erases to one tuple type, each member is that type. */
  lemma MemberErases(t: Ty, es: seq<Ty>, e: Ty, i: nat, quote: string -> string)
    requires WellFormed(t) && t.Union? && i < |t.members| && es == U.EraseAll(t.members, quote)
    requires U.AllWellFormed(es) && e.Tuple? && U.Covered(U.Flatten(es), [e])
    ensures Equal(t.members[i], e)
  {
    hide U.NewUnion, U.Erase, WellFormed, U.Flatten, U.Parts;
    MemberWellFormed(t, i);
    EraseAtom(t.members[i], quote);
    PartsDiffer(es[i]);
    U.NormalParts(es[i]);
    PartCovered(es, i, 0, e);
    if es[i].Union? {
      PartCovered(es, i, 1, e);
      EqualSym(U.Parts(es[i])[1], e);
      EqualTrans(U.Parts(es[i])[0], e, U.Parts(es[i])[1]);
    }
    if t.members[i].Literal? {
      BaseKinds(t.members[i]);
    }
  }

  lemma PartCovered(es: seq<Ty>, i: nat, k: nat, e: Ty)
    requires i < |es| && k < |U.Parts(es[i])| && U.Covered(U.Flatten(es), [e])
    ensures Equal(U.Parts(es[i])[k], e)
  {
    hide Equal;
    PartsInFlat(es, i, U.Parts(es[i])[k]);
    var a :| 0 <= a < |U.Flatten(es)| && U.Flatten(es)[a] == U.Parts(es[i])[k];
    assert Among(U.Flatten(es)[a], [e]);
  }

  lemma MembersDiffer(t: Ty, e: Ty)
    requires WellFormed(t) && t.Union?
    ensures !(Equal(t.members[0], e) && Equal(t.members[1], e))
  {
    hide Equal;
    if Equal(t.members[0], e) && Equal(t.members[1], e) {
      EqualSym(t.members[1], e);
      EqualTrans(t.members[0], e, t.members[1]);
    }
  }

  // What a type lets the host see of a key.

  function Visible(k: Key, t: Ty): Key
    requires HasType(k, t)
    decreases t, 1
  {
    match t
    case Tuple(ts) => KTuple(VisibleFields(k.fields, ts))
    case Prim(_) => k
    case _ => KTuple([])
  }

  function VisibleFields(xs: seq<Key>, ts: seq<Ty>): (r: seq<Key>)
    requires AllHave(xs, ts)
    ensures |r| == |xs|
    decreases ts, 0
  {
    if ts == [] then [] else [Visible(xs[0], ts[0])] + VisibleFields(xs[1..], ts[1..])
  }

  /** The host's comparison is Python's, of what is visible. */
  lemma {:induction false} SeesVisible(a: Key, b: Key, t: Ty)
    requires HasType(a, t) && HasType(b, t)
    ensures BoxedLess(a, b, t) <==> KeyLess(Visible(a, t), Visible(b, t))
    decreases t, 1
  {
    match t
    case Tuple(ts) => SeesVisibleFields(a.fields, b.fields, ts);
    case _ =>
  }

  lemma {:induction false} SeesVisibleFields(xs: seq<Key>, ys: seq<Key>, ts: seq<Ty>)
    requires AllHave(xs, ts) && AllHave(ys, ts)
    ensures LessFields(xs, ys, ts) <==> KeysLess(VisibleFields(xs, ts), VisibleFields(ys, ts))
    decreases ts, 0
  {
    if ts != [] {
      SeesVisible(xs[0], ys[0], ts[0]);
      SeesVisible(ys[0], xs[0], ts[0]);
      KeyLessTotal(Visible(xs[0], ts[0]), Visible(ys[0], ts[0]));
      SeesVisibleFields(xs[1..], ys[1..], ts[1..]);
    }
  }

  /** Some component is hidden that can take two values: a literal type of several,
      or a union. */
  ghost predicate Blurs(t: Ty)
    decreases t
  {
    match t
    case Tuple(ts) => exists i :: 0 <= i < |ts| && Blurs(ts[i])
    case Prim(_) => false
    case _ => exists a, b :: HasType(a, t) && HasType(b, t) && a != b
  }

  /** Without such a component the host sees keys apart, */
  lemma {:induction false} ClearView(a: Key, b: Key, t: Ty)
    requires HasType(a, t) && HasType(b, t) && !Blurs(t)
    ensures Visible(a, t) == Visible(b, t) <==> a == b
    ensures KeyLess(Visible(a, t), Visible(b, t)) <==> KeyLess(a, b)
    decreases t, 1
  {
    match t
    case Tuple(ts) => ClearViewFields(a.fields, b.fields, ts);
    case Prim(_) =>
    case _ => KeyLessTotal(a, b);
  }

  lemma {:induction false} ClearViewFields(xs: seq<Key>, ys: seq<Key>, ts: seq<Ty>)
    requires AllHave(xs, ts) && AllHave(ys, ts) && forall i :: 0 <= i < |ts| ==> !Blurs(ts[i])
    ensures VisibleFields(xs, ts) == VisibleFields(ys, ts) <==> xs == ys
    ensures KeysLess(VisibleFields(xs, ts), VisibleFields(ys, ts)) <==> KeysLess(xs, ys)
    decreases ts, 0
  {
    hide KeyLess, Visible, HasType, Blurs;
    if ts != [] {
      ClearView(xs[0], ys[0], ts[0]);
      ClearViewFields(xs[1..], ys[1..], ts[1..]);
      assert xs == [xs[0]] + xs[1..] && ys == [ys[0]] + ys[1..];
      var vs, ws := VisibleFields(xs, ts), VisibleFields(ys, ts);
      assert vs[1..] == VisibleFields(xs[1..], ts[1..]) && ws[1..] == VisibleFields(ys[1..], ts[1..]);
      assert vs == [vs[0]] + vs[1..] && ws == [ws[0]] + ws[1..];
    }
  }

  /** An orderable type has a value, */
  lemma {:induction false} Inhabited(t: Ty, quote: string -> string) returns (k: Key)
    requires WellFormed(t) && Orderable(t, quote)
    ensures HasType(k, t)
    decreases t
  {
    hide U.NewUnion;
    match t
    case Tuple(ts) =>
      var ks := InhabitedAll(ts, quote);
      k := KTuple(ks);
    case Union(ms) =>
      ErasesTo(t, U.Erase(t, quote).p, quote);
      U.NormalParts(t);
      assert Refines(U.Parts(t)[0], U.Erase(t, quote).p);
      EraseAtom(ms[0], quote);
      k := Inhabited(ms[0], quote);
      assert HasType(k, ms[0]);
    case Literal(_, vs) =>
      EraseAtom(t, quote);
      k := FirstValue(t);
    case Prim(PInt) => k := KInt(0);
    case Prim(PFloat) => k := KFloat(0.0);
    case Prim(PBool) => k := KBool(false);
    case Prim(PStr) => k := KStr("");
  }

  lemma FirstValue(t: Ty) returns (k: Key)
    requires t.Literal? && WellFormed(t) && Scalar(t.base)
    ensures HasType(k, t)
  {
    hide Bases, HasBase;
    BasesAre(t.values, BaseOf(t.values[0]));
    HasOwnBase(t.values);
    assert KeyOf(t.values[0]) != [];
    k := KeyOf(t.values[0])[0];
  }

  lemma {:induction false} InhabitedAll(ts: seq<Ty>, quote: string -> string) returns (ks: seq<Key>)
    requires forall i :: 0 <= i < |ts| ==> WellFormed(ts[i]) && Orderable(ts[i], quote)
    ensures AllHave(ks, ts)
    decreases ts
  {
    if ts == [] {
      ks := [];
    } else {
      var k := Inhabited(ts[0], quote);
      var rest := InhabitedAll(ts[1..], quote);
      ks := [k] + rest;
    }
  }

  /** and with a blurred component two that look alike. */
  lemma {:induction false} Alike(t: Ty, quote: string -> string) returns (a: Key, b: Key)
    requires WellFormed(t) && Orderable(t, quote) && Blurs(t)
    ensures HasType(a, t) && HasType(b, t) && Visible(a, t) == Visible(b, t) && KeyLess(a, b)
    decreases t
  {
    if t.Tuple? {
      var ts := t.elems;
      var i :| 0 <= i < |ts| && Blurs(ts[i]);
      var ks := InhabitedAll(ts, quote);
      var x, y := Alike(ts[i], quote);
      a, b := KTuple(ks[i := x]), KTuple(ks[i := y]);
      AlikeFields(ks, ts, i, x, y);
    } else {
      a, b :| HasType(a, t) && HasType(b, t) && a != b;
      KeyLessTotal(a, b);
      if KeyLess(b, a) {
        a, b := b, a;
      }
    }
  }

  lemma {:induction false} AlikeFields(ks: seq<Key>, ts: seq<Ty>, i: nat, x: Key, y: Key)
    requires AllHave(ks, ts) && i < |ts| && HasType(x, ts[i]) && HasType(y, ts[i])
    requires Visible(x, ts[i]) == Visible(y, ts[i]) && KeyLess(x, y)
    ensures VisibleFields(ks[i := x], ts) == VisibleFields(ks[i := y], ts) && KeysLess(ks[i := x], ks[i := y])
    decreases ts
  {
    KeyLessTotal(x, y);
    if i > 0 {
      AlikeFields(ks[1..], ts[1..], i - 1, x, y);
      assert ks[i := x][1..] == ks[1..][i - 1 := x] && ks[i := y][1..] == ks[1..][i - 1 := y];
    } else {
      assert ks[i := x][1..] == ks[i := y][1..] == ks[1..];
    }
  }

  // The same, read off the type.

  /** Some component is a union, or a literal type of several values. */
  predicate Hides(t: Ty)
    decreases t
  {
    match t
    case Tuple(ts) => exists i :: 0 <= i < |ts| && Hides(ts[i])
    case Literal(_, vs) => |vs| >= 2
    case Union(_) => true
    case _ => false
  }

  predicate OnceEach(t: Ty) {
    t.Literal? ==> forall i, j :: 0 <= i < j < |t.values| ==> t.values[i] != t.values[j]
  }

  /** As the constructors of the package build literals: each value once. */
  predicate NoRepeats(t: Ty)
    decreases t
  {
    match t
    case Tuple(ts) => forall i :: 0 <= i < |ts| ==> NoRepeats(ts[i])
    case Union(ms) => forall i :: 0 <= i < |ms| ==> OnceEach(ms[i])
    case _ => OnceEach(t)
  }

  /** On the types the checker builds, such a component is what blurs. */
  lemma {:induction false} BlursIsHides(t: Ty, quote: string -> string)
    requires WellFormed(t) && Orderable(t, quote) && NoRepeats(t)
    ensures Blurs(t) <==> Hides(t)
    decreases t
  {
    hide U.NewUnion, U.Erase, HasType;
    match t
    case Tuple(ts) =>
      forall i | 0 <= i < |ts| ensures Blurs(ts[i]) <==> Hides(ts[i]) {
        BlursIsHides(ts[i], quote);
      }
    case Literal(_, vs) =>
      EraseAtom(t, quote);
      LiteralBlurs(t);
    case Union(ms) =>
      assert Scalar(U.Erase(t, quote)) && U.Erase(t, quote).Prim?;
      var p := U.Erase(t, quote).p;
      ErasesTo(t, p, quote);
      U.NormalParts(t);
      assert Refines(U.Parts(t)[0], p) && Refines(U.Parts(t)[1], p);
      var a, b := UnionBlurs(t, p);
      assert HasType(a, t) && HasType(b, t);
    case Prim(_) =>
    case _ => EraseAtom(t, quote);
  }

  lemma ValueKey(t: Ty, i: nat)
    requires t.Literal? && WellFormed(t) && Scalar(t.base) && i < |t.values|
    ensures |KeyOf(t.values[i])| == 1 && HasType(KeyOf(t.values[i])[0], t)
  {
    hide Bases, HasBase;
    BasesAre(t.values, BaseOf(t.values[i]));
    assert HasBase(t.values, BaseOf(t.values[i])) by { HasBaseAt(t.values, i); }
    var k := KeyOf(t.values[i]);
    assert |k| == 1;
    assert KeyOf(t.values[i]) == [k[0]];
  }

  lemma HasBaseAt(vs: seq<LiteralValue>, i: nat)
    requires i < |vs|
    ensures HasBase(vs, BaseOf(vs[i]))
  {
  }

  lemma LiteralBlurs(t: Ty)
    requires t.Literal? && WellFormed(t) && Scalar(t.base) && OnceEach(t)
    ensures Blurs(t) <==> |t.values| >= 2
  {
    var vs := t.values;
    ValueKey(t, 0);
    if |vs| >= 2 {
      ValueKey(t, 1);
      assert KeyOf(vs[0])[0] != KeyOf(vs[1])[0];
    } else {
      forall a, b | HasType(a, t) && HasType(b, t) ensures a == b {
        assert [a] == KeyOf(vs[0]) == [b];
      }
    }
  }

  /** Two members of a union of one primitive type and literals of it take two values. */
  lemma UnionBlurs(t: Ty, p: Primitive) returns (a: Key, b: Key)
    requires t.Union? && WellFormed(t) && Scalar(Prim(p)) && NoRepeats(t)
    requires Refines(t.members[0], p) && Refines(t.members[1], p)
    ensures HasType(a, t) && HasType(b, t) && a != b
  {
    var m, n := t.members[0], t.members[1];
    assert !Equal(m, n);
    if m == Prim(p) || n == Prim(p) {
      a, b := TwoKeys(p);
    } else {
      hide HasType;
      a, b := LiteralsDiffer(m, n);
    }
    MemberKeys(t, a);
    MemberKeys(t, b);
  }

  lemma MemberKeys(t: Ty, k: Key)
    requires t.Union? && |t.members| >= 2
    ensures HasType(k, t.members[0]) || HasType(k, t.members[1]) ==> HasType(k, t)
  {
  }

  lemma OtherValue(vs: seq<LiteralValue>, ws: seq<LiteralValue>) returns (i: nat)
    requires |vs| == 1 && ws != [] && vs != ws && forall i, j :: 0 <= i < j < |ws| ==> ws[i] != ws[j]
    ensures i < |ws| && ws[i] != vs[0]
  {
    assert vs == [vs[0]];
    i := if ws[0] == vs[0] then 1 else 0;
  }

  lemma LiteralsDiffer(m: Ty, n: Ty) returns (a: Key, b: Key)
    requires m.Literal? && n.Literal? && !Equal(m, n) && OnceEach(m) && OnceEach(n)
    requires WellFormed(m) && WellFormed(n) && Scalar(m.base) && Scalar(n.base)
    ensures HasType(a, m) && (HasType(b, m) || HasType(b, n)) && a != b
  {
    hide HasType;
    ValueKey(m, 0);
    a := KeyOf(m.values[0])[0];
    if |m.values| >= 2 {
      ValueKey(m, 1);
      b := KeyOf(m.values[1])[0];
    } else {
      var i := OtherValue(m.values, n.values);
      ValueKey(n, i);
      b := KeyOf(n.values[i])[0];
    }
  }

  lemma TwoKeys(p: Primitive) returns (a: Key, b: Key)
    requires Scalar(Prim(p))
    ensures HasType(a, Prim(p)) && HasType(b, Prim(p)) && a != b
  {
    match p
    case PInt => a, b := KInt(0), KInt(1);
    case PFloat => a, b := KFloat(0.0), KFloat(1.0);
    case PBool => a, b := KBool(false), KBool(true);
    case PStr => a, b := KStr(""), KStr("a");
  }

  // Stable sorting. A sort is described by where each element comes from.

  /** Element `i` belongs before element `j`: it is smaller, or larger when
      reversed, or equal and it came first. */
  predicate Precedes(ks: seq<Key>, reverse: bool, i: nat, j: nat)
    requires i < |ks| && j < |ks|
  {
    (if reverse then KeyLess(ks[j], ks[i]) else KeyLess(ks[i], ks[j])) || (ks[i] == ks[j] && i < j)
  }

  predicate Indices(order: seq<nat>, n: nat) {
    && (forall a :: 0 <= a < |order| ==> order[a] < n)
    && (forall a, b :: 0 <= a < b < |order| ==> order[a] != order[b])
  }

  /** `order` lists every index once. */
  predicate Permutes(order: seq<nat>, n: nat) {
    Indices(order, n) && forall i: nat :: i < n ==> i in order
  }

  /** The permutation of a stable sort: each index before those it precedes. */
  predicate StableOrder(ks: seq<Key>, reverse: bool, order: seq<nat>) {
    && Permutes(order, |ks|)
    && (forall a, b :: 0 <= a < b < |order| ==> Precedes(ks, reverse, order[a], order[b]))
  }

  lemma PrecedesTotal(ks: seq<Key>, reverse: bool, i: nat, j: nat)
    requires i < |ks| && j < |ks|
    ensures i != j ==> Precedes(ks, reverse, i, j) || Precedes(ks, reverse, j, i)
    ensures !(Precedes(ks, reverse, i, j) && Precedes(ks, reverse, j, i))
  {
    KeyLessTotal(ks[i], ks[j]);
  }

  lemma PrecedesTrans(ks: seq<Key>, reverse: bool, i: nat, j: nat, k: nat)
    requires i < |ks| && j < |ks| && k < |ks|
    requires Precedes(ks, reverse, i, j) && Precedes(ks, reverse, j, k)
    ensures Precedes(ks, reverse, i, k)
  {
    if reverse {
      if KeyLess(ks[j], ks[i]) && KeyLess(ks[k], ks[j]) { KeyLessTrans(ks[k], ks[j], ks[i]); }
    } else {
      if KeyLess(ks[i], ks[j]) && KeyLess(ks[j], ks[k]) { KeyLessTrans(ks[i], ks[j], ks[k]); }
    }
  }

  lemma HasFirst(q: seq<nat>)
    requires q != []
    ensures q[0] in q
  {
  }

  /** There is at most one stable order, so a stable sort is determined by its
      promise, whichever algorithm computes it. */
  lemma {:induction false} StableOrderUnique(ks: seq<Key>, reverse: bool, p: seq<nat>, q: seq<nat>)
    requires Indices(p, |ks|) && Indices(q, |ks|)
    requires forall i :: i in p <==> i in q
    requires forall a, b :: 0 <= a < b < |p| ==> Precedes(ks, reverse, p[a], p[b])
    requires forall a, b :: 0 <= a < b < |q| ==> Precedes(ks, reverse, q[a], q[b])
    ensures p == q
    decreases p
  {
    hide Precedes;
    if p == [] {
      if q != [] {
        HasFirst(q);
      }
    } else {
      assert p[0] in q;
      var k :| 0 <= k < |q| && q[k] == p[0];
      assert q[0] in p;
      var j :| 0 <= j < |p| && p[j] == q[0];
      PrecedesTotal(ks, reverse, p[0], q[0]);
      assert p[0] == q[0];
      forall i ensures i in p[1..] <==> i in q[1..] {
        assert i in p[1..] <==> i in p && i != p[0];
        assert i in q[1..] <==> i in q && i != q[0];
      }
      StableOrderUnique(ks, reverse, p[1..], q[1..]);
      assert p == [p[0]] + p[1..] && q == [q[0]] + q[1..];
    }
  }

  lemma OneStableOrder(ks: seq<Key>, reverse: bool, p: seq<nat>, q: seq<nat>)
    requires StableOrder(ks, reverse, p) && StableOrder(ks, reverse, q)
    ensures p == q
  {
    hide Precedes;
    forall i ensures i in p <==> i in q {
      assert i in p ==> i < |ks|;
      assert i in q ==> i < |ks|;
    }
    StableOrderUnique(ks, reverse, p, q);
  }

  /** The stable order, by insertion. */
  function Insert(ks: seq<Key>, reverse: bool, i: nat, order: seq<nat>): seq<nat>
    requires i < |ks| && Indices(order, |ks|)
    decreases order
  {
    if order == [] then [i]
    else if Precedes(ks, reverse, i, order[0]) then [i] + order
    else [order[0]] + Insert(ks, reverse, i, order[1..])
  }

  lemma {:induction false} InsertKeeps(ks: seq<Key>, reverse: bool, i: nat, order: seq<nat>)
    requires i < |ks| && Indices(order, |ks|) && i !in order
    requires forall a, b :: 0 <= a < b < |order| ==> Precedes(ks, reverse, order[a], order[b])
    ensures var r := Insert(ks, reverse, i, order);
            && Indices(r, |ks|) && (forall j :: j in r <==> j == i || j in order)
            && (forall a, b :: 0 <= a < b < |r| ==> Precedes(ks, reverse, r[a], r[b]))
    decreases order
  {
    hide Precedes;
    if order != [] {
      PrecedesTotal(ks, reverse, i, order[0]);
      if Precedes(ks, reverse, i, order[0]) {
        forall b | 0 <= b < |order| ensures Precedes(ks, reverse, i, order[b]) {
          if b > 0 { PrecedesTrans(ks, reverse, i, order[0], order[b]); }
        }
      } else {
        InsertKeeps(ks, reverse, i, order[1..]);
        var rest := Insert(ks, reverse, i, order[1..]);
        forall b | 0 <= b < |rest| ensures Precedes(ks, reverse, order[0], rest[b]) && order[0] != rest[b] {
          assert rest[b] in rest;
          if rest[b] != i {
            var c :| 0 <= c < |order[1..]| && order[1..][c] == rest[b];
            assert order[c + 1] == rest[b];
          }
        }
        assert forall j :: j in order <==> j == order[0] || j in order[1..];
      }
    }
  }

  function Stable(ks: seq<Key>, reverse: bool, n: nat): (order: seq<nat>)
    requires n <= |ks|
    ensures Indices(order, |ks|) && forall i: nat :: i in order <==> i < n
    ensures forall a, b :: 0 <= a < b < |order| ==> Precedes(ks, reverse, order[a], order[b])
  {
    if n == 0 then []
    else
      var order := Stable(ks, reverse, n - 1);
      InsertKeeps(ks, reverse, n - 1, order);
      Insert(ks, reverse, n - 1, order)
  }

  function StableSort(ks: seq<Key>, reverse: bool): (order: seq<nat>)
    ensures StableOrder(ks, reverse, order)
  {
    Stable(ks, reverse, |ks|)
  }

  // The host's sort.

  predicate AllTyped(ks: seq<Key>, t: Ty) {
    forall i :: 0 <= i < |ks| ==> HasType(ks[i], t)
  }

  function VisibleAll(ks: seq<Key>, t: Ty): (r: seq<Key>)
    requires AllTyped(ks, t)
    ensures |r| == |ks|
  {
    seq(|ks|, i requires 0 <= i < |ks| => Visible(ks[i], t))
  }

  /** What `sort.SliceStable` is asked for: the comparison, or its converse. */
  predicate Asked(ks: seq<Key>, t: Ty, reverse: bool, i: nat, j: nat)
    requires AllTyped(ks, t) && i < |ks| && j < |ks|
  {
    if reverse then BoxedLess(ks[j], ks[i], t) else BoxedLess(ks[i], ks[j], t)
  }

  /** And what it promises: nothing stands before what is less, and what compares
      neither way keeps its order. */
  predicate HostPromise(ks: seq<Key>, t: Ty, reverse: bool, order: seq<nat>)
    requires AllTyped(ks, t)
  {
    && Permutes(order, |ks|)
    && (forall a, b :: 0 <= a < b < |order| ==> !Asked(ks, t, reverse, order[b], order[a]))
    && (forall a, b :: 0 <= a < b < |order| ==> Asked(ks, t, reverse, order[a], order[b]) || order[a] < order[b])
  }

  lemma AskedIs(ks: seq<Key>, t: Ty, reverse: bool, i: nat, j: nat)
    requires AllTyped(ks, t) && i < |ks| && j < |ks|
    ensures !Asked(ks, t, reverse, j, i) && (Asked(ks, t, reverse, i, j) || i < j) <==>
      Precedes(VisibleAll(ks, t), reverse, i, j)
  {
    SeesVisible(ks[i], ks[j], t);
    SeesVisible(ks[j], ks[i], t);
    KeyLessTotal(Visible(ks[i], t), Visible(ks[j], t));
  }

  /** The promise is kept by one order alone, the stable order of what is visible. */
  lemma HostSorts(ks: seq<Key>, t: Ty, reverse: bool, order: seq<nat>)
    requires AllTyped(ks, t)
    ensures HostPromise(ks, t, reverse, order) <==> order == StableSort(VisibleAll(ks, t), reverse)
  {
    hide Asked, Precedes, VisibleAll;
    if Permutes(order, |ks|) {
      forall a, b | 0 <= a < b < |order|
        ensures !Asked(ks, t, reverse, order[b], order[a])
          && (Asked(ks, t, reverse, order[a], order[b]) || order[a] < order[b])
          <==> Precedes(VisibleAll(ks, t), reverse, order[a], order[b])
      {
        AskedIs(ks, t, reverse, order[a], order[b]);
      }
      assert HostPromise(ks, t, reverse, order) <==> StableOrder(VisibleAll(ks, t), reverse, order);
      if StableOrder(VisibleAll(ks, t), reverse, order) {
        OneStableOrder(VisibleAll(ks, t), reverse, order, StableSort(VisibleAll(ks, t), reverse));
      }
    }
  }

  /** The host's `sorted`: the list rearranged by that sort. */
  function SortedHost(ks: seq<Key>, t: Ty, reverse: bool): seq<Key>
    requires AllTyped(ks, t)
  {
    Pick(ks, StableSort(VisibleAll(ks, t), reverse))
  }

  // Lists of integers that are kept as words, each of which is boxed when read.

  predicate HeldAsWords(t: Ty) {
    t == Int || (t.Literal? && t.base == Int)
  }

  function Copied(k: Key, words: bool): Key {
    if words && k.KInt? then KInt(Boxed(k.i)) else k
  }

  function CopiedAll(ks: seq<Key>, words: bool): (r: seq<Key>)
    ensures |r| == |ks|
  {
    seq(|ks|, i requires 0 <= i < |ks| => Copied(ks[i], words))
  }

  predicate AllFit(ks: seq<Key>) {
    forall i :: 0 <= i < |ks| ==> (ks[i].KInt? ==> Inline(ks[i].i))
  }

  /** What `sorted` returns for a list that is kept as words, or as boxes: copies of
      the elements, in the stable order of what the comparison sees of the copies. */
  function HostSorted(ks: seq<Key>, t: Ty, words: bool, reverse: bool): seq<Key>
    requires AllTyped(ks, t)
  {
    Pick(CopiedAll(ks, words), StableSort(CopiedAll(VisibleAll(ks, t), words), reverse))
  }

  /** At element type int those copies are keys like any others, so that is the one
      order the host's sort promises. */
  lemma CopiesSorted(ks: seq<Key>, words: bool, reverse: bool, order: seq<nat>)
    requires AllTyped(ks, Int)
    ensures AllTyped(CopiedAll(ks, words), Int)
    ensures HostPromise(CopiedAll(ks, words), Int, reverse, order) <==>
      order == StableSort(CopiedAll(VisibleAll(ks, Int), words), reverse)
  {
    hide HostPromise, StableSort;
    var cs := CopiedAll(ks, words);
    assert VisibleAll(cs, Int) == CopiedAll(VisibleAll(ks, Int), words);
    HostSorts(cs, Int, reverse, order);
  }

  lemma CopiedFit(ks: seq<Key>, words: bool)
    ensures CopiedAll(ks, words) == ks <==> (words ==> AllFit(ks))
  {
    if CopiedAll(ks, words) == ks && words {
      forall i | 0 <= i < |ks| && ks[i].KInt? ensures Inline(ks[i].i) {
        assert CopiedAll(ks, words)[i] == KInt(Boxed(ks[i].i));
      }
    }
  }

  lemma VisibleFit(ks: seq<Key>, t: Ty)
    requires AllTyped(ks, t) && HeldAsWords(t) && AllFit(ks)
    ensures AllFit(VisibleAll(ks, t))
  {
  }

  /** Without words that are cut short the host's `sorted` is the stable sort of what
      is visible; with one, the list returned is no rearrangement of the elements. */
  lemma CopiesExact(ks: seq<Key>, t: Ty, words: bool, reverse: bool)
    requires AllTyped(ks, t) && (words ==> HeldAsWords(t))
    ensures (words ==> AllFit(ks)) ==> HostSorted(ks, t, words, reverse) == SortedHost(ks, t, reverse)
    ensures HostSorted(ks, t, words, reverse) == Pick(ks, StableSort(ks, reverse)) ==> words ==> AllFit(ks)
  {
    hide StableSort, HeldAsWords, AllFit, AllTyped;
    CopiedFit(ks, words);
    if words ==> AllFit(ks) {
      if words {
        VisibleFit(ks, t);
      }
      CopiedFit(VisibleAll(ks, t), words);
    }
    PickFit(ks, StableSort(ks, reverse));
    if words {
      CopiesFit(ks);
      PickFit(CopiedAll(ks, true), StableSort(CopiedAll(VisibleAll(ks, t), true), reverse));
    }
  }

  lemma CopiesFit(ks: seq<Key>)
    ensures AllFit(CopiedAll(ks, true))
  {
  }

  lemma PickFit(ks: seq<Key>, order: seq<nat>)
    requires Permutes(order, |ks|)
    ensures AllFit(Pick(ks, order)) <==> AllFit(ks)
  {
    if AllFit(Pick(ks, order)) {
      forall i | 0 <= i < |ks| && ks[i].KInt? ensures Inline(ks[i].i) {
        assert (i as nat) in order;
        var a :| 0 <= a < |order| && order[a] == i;
        assert Pick(ks, order)[a] == ks[i];
      }
    }
  }

  /** `sorted([2**48, 1])` is [-2^48, 1]. */
  lemma LargeIntCutShort()
    ensures AllTyped([KInt(INLINE_MAX + 1), KInt(1)], Int)
    ensures HostSorted([KInt(INLINE_MAX + 1), KInt(1)], Int, true, false) == [KInt(INLINE_MIN), KInt(1)]
  {
    hide StableSort;
    var ks := [KInt(INLINE_MAX + 1), KInt(1)];
    var cs := CopiedAll(ks, true);
    assert cs == [KInt(INLINE_MIN), KInt(1)];
    assert CopiedAll(VisibleAll(ks, Int), true) == cs;
    PairOrder(cs, 0, 1);
  }

  // The rewrite.

  /** How `reverse` is written: a literal is decided when compiling. */
  datatype Reverse = Written(value: bool) | Computed

  predicate Agrees(form: Reverse, reverse: bool) {
    form.Written? ==> form.value == reverse
  }

  function Signed(form: Reverse, reverse: bool, i: int): int {
    match form
    case Written(true) => -i
    case Written(false) => i
    case Computed => if reverse then -i else i
  }

  /** `[(f(x[i]), +-i) for i in range(len(x))]`. */
  function Decorate(ks: seq<Key>, form: Reverse, reverse: bool): (r: seq<Key>)
    ensures |r| == |ks|
  {
    seq(|ks|, i requires 0 <= i < |ks| => KTuple([ks[i], KInt(Signed(form, reverse, i))]))
  }

  /** `[x[+-pair[1]] for pair in pairs]`, with Python's negative indices. */
  function Undecorate<T>(xs: seq<T>, pairs: seq<Key>, form: Reverse, reverse: bool): (r: seq<T>)
    requires forall a :: 0 <= a < |pairs| ==>
      pairs[a].KTuple? && |pairs[a].fields| == 2 && pairs[a].fields[1].KInt?
      && 0 <= Signed(form, reverse, pairs[a].fields[1].i) < |xs|
  {
    seq(|pairs|, a requires 0 <= a < |pairs| => xs[Signed(form, reverse, pairs[a].fields[1].i)])
  }

  /** The static type of the pairs: the key function's result is not erased. */
  function PairType(t: Ty): Ty {
    Tuple([t, Int])
  }

  lemma DecorateTyped(ks: seq<Key>, t: Ty, form: Reverse, reverse: bool)
    requires AllTyped(ks, t)
    ensures AllTyped(Decorate(ks, form, reverse), PairType(t))
  {
  }

  lemma VisiblePair(k: Key, x: int, t: Ty)
    requires HasType(k, t) && HasType(KTuple([k, KInt(x)]), PairType(t))
    ensures Visible(KTuple([k, KInt(x)]), PairType(t)) == KTuple([Visible(k, t), KInt(x)])
  {
    var xs, ts := [k, KInt(x)], [t, Int];
    assert xs[1..] == [KInt(x)] && ts[1..] == [Int];
    assert VisibleFields([KInt(x)], [Int]) == [KInt(x)] by {
      assert [KInt(x)][1..] == [] && [Int][1..] == [];
    }
  }

  lemma PairLess(a: Key, b: Key, x: int, y: int)
    ensures KeyLess(KTuple([a, KInt(x)]), KTuple([b, KInt(y)])) <==> KeyLess(a, b) || (a == b && x < y)
  {
    var xs, ys := [a, KInt(x)], [b, KInt(y)];
    KeyLessTotal(a, b);
    assert xs[1..] == [KInt(x)] && ys[1..] == [KInt(y)];
    assert KeysLess([KInt(x)], [KInt(y)]) <==> x < y by {
      assert [KInt(x)][1..] == [] && [KInt(y)][1..] == [];
    }
  }

  /** Decorated elements compare as the visible keys, and then by original position. */
  lemma DecoratedLess(a: Key, b: Key, x: int, y: int, t: Ty)
    requires HasType(a, t) && HasType(b, t)
    requires HasType(KTuple([a, KInt(x)]), PairType(t)) && HasType(KTuple([b, KInt(y)]), PairType(t))
    ensures BoxedLess(KTuple([a, KInt(x)]), KTuple([b, KInt(y)]), PairType(t)) <==>
      BoxedLess(a, b, t) || (!BoxedLess(b, a, t) && x < y)
  {
    hide BoxedLess, Visible, KeyLess;
    SeesVisible(KTuple([a, KInt(x)]), KTuple([b, KInt(y)]), PairType(t));
    SeesVisible(a, b, t);
    SeesVisible(b, a, t);
    VisiblePair(a, x, t);
    VisiblePair(b, y, t);
    PairLess(Visible(a, t), Visible(b, t), x, y);
    KeyLessTotal(Visible(a, t), Visible(b, t));
  }

  lemma DecoratedPrecedes(ks: seq<Key>, t: Ty, form: Reverse, reverse: bool, i: nat, j: nat)
    requires AllTyped(ks, t) && i < |ks| && j < |ks| && Agrees(form, reverse)
    requires AllTyped(Decorate(ks, form, reverse), PairType(t))
    ensures Precedes(VisibleAll(Decorate(ks, form, reverse), PairType(t)), reverse, i, j) <==>
      Precedes(VisibleAll(ks, t), reverse, i, j)
  {
    hide KeyLess, Visible, HasType;
    var x, y := Signed(form, reverse, i), Signed(form, reverse, j);
    var ds := Decorate(ks, form, reverse);
    assert ds[i] == KTuple([ks[i], KInt(x)]) && ds[j] == KTuple([ks[j], KInt(y)]);
    VisiblePair(ks[i], x, t);
    VisiblePair(ks[j], y, t);
    PairLess(Visible(ks[i], t), Visible(ks[j], t), x, y);
    PairLess(Visible(ks[j], t), Visible(ks[i], t), y, x);
    KeyLessTotal(Visible(ks[i], t), Visible(ks[j], t));
    if KTuple([Visible(ks[i], t), KInt(x)]) == KTuple([Visible(ks[j], t), KInt(y)]) {
      assert [Visible(ks[i], t), KInt(x)][1] == [Visible(ks[j], t), KInt(y)][1];
    }
  }

  lemma SameOrder(ks: seq<Key>, t: Ty, form: Reverse, reverse: bool)
    requires AllTyped(ks, t) && Agrees(form, reverse)
    ensures AllTyped(Decorate(ks, form, reverse), PairType(t))
    ensures StableSort(VisibleAll(Decorate(ks, form, reverse), PairType(t)), reverse) ==
      StableSort(VisibleAll(ks, t), reverse)
  {
    hide Precedes, VisibleAll, HasType;
    DecorateTyped(ks, t, form, reverse);
    var ds := VisibleAll(Decorate(ks, form, reverse), PairType(t));
    var p, q := StableSort(ds, reverse), StableSort(VisibleAll(ks, t), reverse);
    forall a, b | 0 <= a < b < |p| ensures Precedes(VisibleAll(ks, t), reverse, p[a], p[b]) {
      DecoratedPrecedes(ks, t, form, reverse, p[a], p[b]);
    }
    OneStableOrder(VisibleAll(ks, t), reverse, p, q);
  }

  /** What the rewritten call returns for the list `xs` with keys `ks` of type `t`. */
  function Rewritten<T>(xs: seq<T>, ks: seq<Key>, t: Ty, form: Reverse, reverse: bool): seq<T>
    requires |xs| == |ks| && AllTyped(ks, t) && Agrees(form, reverse)
  {
    SameOrder(ks, t, form, reverse);
    Undecorate(xs, SortedHost(Decorate(ks, form, reverse), PairType(t), reverse), form, reverse)
  }

  /** The rewrite is the stable sort by what the type shows of the keys. */
  lemma RewriteIsStableSort<T>(xs: seq<T>, ks: seq<Key>, t: Ty, form: Reverse, reverse: bool)
    requires |xs| == |ks| && AllTyped(ks, t) && Agrees(form, reverse)
    ensures Rewritten(xs, ks, t, form, reverse) == Pick(xs, StableSort(VisibleAll(ks, t), reverse))
  {
    SameOrder(ks, t, form, reverse);
  }

  /** A type that blurs nothing shows the order of the keys. */
  lemma ClearOrder(ks: seq<Key>, t: Ty, reverse: bool)
    requires AllTyped(ks, t) && !Blurs(t)
    ensures StableSort(VisibleAll(ks, t), reverse) == StableSort(ks, reverse)
  {
    hide KeyLess, Visible, HasType, Blurs;
    var p, q := StableSort(VisibleAll(ks, t), reverse), StableSort(ks, reverse);
    forall a, b | 0 <= a < b < |p| ensures Precedes(ks, reverse, p[a], p[b]) {
      ClearView(ks[p[a]], ks[p[b]], t);
      ClearView(ks[p[b]], ks[p[a]], t);
      assert Precedes(VisibleAll(ks, t), reverse, p[a], p[b]);
    }
    OneStableOrder(ks, reverse, p, q);
  }

  /** For the key types the checker accepts: the rewritten call is the stable sort by
      key, on every list and in both directions, if and only if no component of the
      key's type hides two values behind a literal type or a union. */
  lemma RewriteExact(t: Ty, quote: string -> string)
    requires WellFormed(t) && Orderable(t, quote)
    ensures (forall ks, form, reverse :: AllTyped(ks, t) && Agrees(form, reverse) ==>
      RewriteOrder(ks, t, form, reverse) == StableSort(ks, reverse))
      <==> !Blurs(t)
  {
    hide Blurs, Orderable, AllTyped, StableSort, VisibleAll;
    if Blurs(t) {
      var a, b := Alike(t, quote);
      NotSorted(a, b, t);
    } else {
      forall ks, form, reverse | AllTyped(ks, t) && Agrees(form, reverse)
        ensures RewriteOrder(ks, t, form, reverse) == StableSort(ks, reverse)
      {
        OrderOf(ks, t, form, reverse);
        ClearOrder(ks, t, reverse);
      }
    }
  }

  /** The order the rewrite puts a list in: what it makes of the list of indices. */
  function RewriteOrder(ks: seq<Key>, t: Ty, form: Reverse, reverse: bool): seq<nat>
    requires AllTyped(ks, t) && Agrees(form, reverse)
  {
    Rewritten(seq(|ks|, i requires 0 <= i => i), ks, t, form, reverse)
  }

  lemma OrderOf(ks: seq<Key>, t: Ty, form: Reverse, reverse: bool)
    requires AllTyped(ks, t) && Agrees(form, reverse)
    ensures RewriteOrder(ks, t, form, reverse) == StableSort(VisibleAll(ks, t), reverse)
  {
    hide AllTyped, Rewritten;
    RewriteIsStableSort(seq(|ks|, i requires 0 <= i => i), ks, t, form, reverse);
  }

  /** Two keys that look alike, the larger first, are left as they are. */
  lemma NotSorted(a: Key, b: Key, t: Ty)
    requires HasType(a, t) && HasType(b, t) && Visible(a, t) == Visible(b, t) && KeyLess(a, b)
    ensures AllTyped([b, a], t) && RewriteOrder([b, a], t, Written(false), false) == [0, 1]
    ensures StableSort([b, a], false) == [1, 0]
  {
    hide KeyLess, Visible, HasType, Rewritten;
    var ks := [b, a];
    OrderOf(ks, t, Written(false), false);
    KeyLessTotal(a, b);
    assert VisibleAll(ks, t) == [Visible(b, t), Visible(a, t)];
    PairOrder(VisibleAll(ks, t), 0, 1);
    PairOrder(ks, 1, 0);
  }

  lemma PairOrder(ks: seq<Key>, i: nat, j: nat)
    requires |ks| == 2 && i < 2 && j == 1 - i && Precedes(ks, false, i, j)
    ensures StableSort(ks, false) == [i, j]
  {
    hide Precedes;
    var order: seq<nat> := [i, j];
    assert order[0] == i && order[1] == j;
    OneStableOrder(ks, false, StableSort(ks, false), order);
  }

  lemma LiteralKeysAlike()
    ensures var t := ONE_OR_TWO;
      && HasType(KInt(1), t) && HasType(KInt(2), t) && Visible(KInt(1), t) == Visible(KInt(2), t)
      && KeyLess(KInt(1), KInt(2))
  {
    assert KeyOf(ONE_OR_TWO.values[0]) == [KInt(1)] && KeyOf(ONE_OR_TWO.values[1]) == [KInt(2)];
  }

  /** Keys 2 and 1 of type `Literal[1, 2]` are left in that order. */
  lemma LiteralKeysNotSorted(quote: string -> string)
    ensures WellFormed(ONE_OR_TWO) && Orderable(ONE_OR_TWO, quote) && AllTyped([KInt(2), KInt(1)], ONE_OR_TWO)
    ensures RewriteOrder([KInt(2), KInt(1)], ONE_OR_TWO, Written(false), false) == [0, 1]
    ensures StableSort([KInt(2), KInt(1)], false) == [1, 0]
  {
    hide Rewritten, StableSort, KeyLess, Visible, HasType, AllTyped, RewriteOrder, U.NewUnion, U.Erase;
    IntLiterals();
    EraseAtom(ONE_OR_TWO, quote);
    IntBase(ONE_OR_TWO.values);
    LiteralKeysAlike();
    NotSorted(KInt(1), KInt(2), ONE_OR_TWO);
  }

  /** Sorting without a key compares the elements the same way, and fails alike. Where
      it does not, a list kept as words is sorted exactly when each fits a box. */
  lemma HostExact(t: Ty, quote: string -> string)
    requires WellFormed(t) && Orderable(t, quote)
    ensures (forall ks, reverse :: AllTyped(ks, t) ==>
      StableSort(VisibleAll(ks, t), reverse) == StableSort(ks, reverse))
      <==> !Blurs(t)
    ensures !Blurs(t) ==> forall ks, words, reverse :: AllTyped(ks, t) && (words ==> HeldAsWords(t)) ==>
      (HostSorted(ks, t, words, reverse) == Pick(ks, StableSort(ks, reverse)) <==> (words ==> AllFit(ks)))
  {
    hide Blurs, Orderable, AllTyped, StableSort, VisibleAll, HostSorted, AllFit, HeldAsWords;
    if Blurs(t) {
      var a, b := Alike(t, quote);
      NotSorted(a, b, t);
      OrderOf([b, a], t, Written(false), false);
    } else {
      forall ks, reverse | AllTyped(ks, t) ensures StableSort(VisibleAll(ks, t), reverse) == StableSort(ks, reverse) {
        ClearOrder(ks, t, reverse);
      }
      forall ks, words, reverse | AllTyped(ks, t) && (words ==> HeldAsWords(t))
        ensures HostSorted(ks, t, words, reverse) == Pick(ks, StableSort(ks, reverse)) <==> (words ==> AllFit(ks))
      {
        ClearOrder(ks, t, reverse);
        CopiesExact(ks, t, words, reverse);
      }
    }
  }

  /** When it sorts, the result is a permutation of the list, by key ascending or
      descending, in which equal keys keep their order either way. */
  lemma RewriteSorts<T>(xs: seq<T>, ks: seq<Key>, t: Ty, form: Reverse, reverse: bool) returns (order: seq<nat>)
    requires |xs| == |ks| && AllTyped(ks, t) && Agrees(form, reverse) && !Blurs(t)
    ensures var r := Rewritten(xs, ks, t, form, reverse);
            && Permutes(order, |xs|) && r == Pick(xs, order)
            && (forall a, b :: 0 <= a < b < |r| ==>
                  && !(if reverse then KeyLess(ks[order[a]], ks[order[b]]) else KeyLess(ks[order[b]], ks[order[a]]))
                  && (ks[order[a]] == ks[order[b]] ==> order[a] < order[b]))
  {
    hide KeyLess, Rewritten, HasType, Blurs, VisibleAll;
    RewriteIsStableSort(xs, ks, t, form, reverse);
    ClearOrder(ks, t, reverse);
    order := StableSort(ks, reverse);
    forall a, b | 0 <= a < b < |order|
      ensures !(if reverse then KeyLess(ks[order[a]], ks[order[b]]) else KeyLess(ks[order[b]], ks[order[a]]))
      ensures ks[order[a]] == ks[order[b]] ==> order[a] < order[b]
    {
      assert Precedes(ks, reverse, order[a], order[b]);
      KeyLessTotal(ks[order[a]], ks[order[b]]);
    }
  }
}

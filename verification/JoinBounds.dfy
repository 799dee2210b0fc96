/** When the join of two types bounds them and when it is least
    (types/types.go), and what that makes of the return type inferred for a
    function (compiler/check_decl.go). Both fail for some literal types, and the
    conditions here are exact. */
module JoinBounds {
  import opened TypeLattice
  import opened UnionJoin

  // Erasing literals.

  /** A primitive type, or a literal of its values. */
  predicate Refines(m: Ty, p: Primitive) {
    m == Prim(p) || (m.Literal? && m.base == Prim(p))
  }

  /** Every part of the type erases to `p`. */
  predicate AllRefine(t: Ty, p: Primitive) {
    forall i :: 0 <= i < |Parts(t)| ==> Refines(Parts(t)[i], p)
  }

  /** The literal bases erase to themselves. */
  lemma KindsErase(bs: seq<Ty>, quote: string -> string)
    requires forall i :: 0 <= i < |bs| ==> LiteralKind(bs[i])
    ensures EraseAll(bs, quote) == bs
  {
  }

  /** Erasing a union of several bases leaves one. */
  lemma ErasedBases(t: Ty, quote: string -> string)
    requires WellFormed(t) && t.Union? && forall i :: 0 <= i < |t.members| ==> LiteralKind(t.members[i])
    ensures WellFormed(Erase(t, quote)) && Erase(t, quote).Union?
  {
    hide Show, Equal, NewUnion, SortByName;
    var ms := t.members;
    KindsErase(ms, quote);
    FlattenAtoms(ms);
    UnionNormal(ms, quote);
    var e := NewUnion(ms, quote);
    NormalParts(e);
    if !e.Union? {
      CoveredByOne(ms, e, 0, 1);
    }
  }

  lemma CoveredByOne(flat: seq<Ty>, j: Ty, i: nat, k: nat)
    requires Covered(flat, [j]) && i < |flat| && k < |flat|
    ensures Equal(flat[i], flat[k])
  {
    hide Equal;
    assert Among(flat[i], [j]) && Among(flat[k], [j]);
    EqualSym(flat[k], j);
    EqualTrans(flat[i], j, flat[k]);
  }

  lemma BaseKinds(t: Ty)
    requires t.Literal? && WellFormed(t)
    ensures LiteralKind(t.base) || (t.base.Union? && WellFormed(t.base))
    ensures t.base.Union? ==> forall i :: 0 <= i < |t.base.members| ==> LiteralKind(t.base.members[i])
  {
    hide HasBase, Equal;
    var vs := t.values;
    BaseIsPlain(vs);
    if t.base.Union? {
      var bs := Bases(vs);
      forall i | 0 <= i < |bs| ensures LiteralKind(bs[i]) {
        BasesAre(vs, bs[i]);
        KindOfBase(vs, bs[i]);
      }
      DifferentBases(vs);
    }
  }

  lemma DifferentBases(vs: seq<LiteralValue>)
    ensures Distinct(Bases(vs))
  {
    hide HasBase;
  }

  /** What a type other than a union erases to. */
  lemma EraseAtom(t: Ty, quote: string -> string)
    requires WellFormed(t) && !t.Union?
    ensures WellFormed(Erase(t, quote)) && (t != Any ==> Erase(t, quote) != Any)
    ensures !t.Literal? ==> Erase(t, quote) == t
    ensures t.Literal? ==> if t.base.Union? then Erase(t, quote).Union? else Erase(t, quote) == t.base
  {
    hide Equal, NewUnion;
    if t.Literal? {
      BaseKinds(t);
      if t.base.Union? {
        ErasedBases(t.base, quote);
      }
    }
  }

  lemma EraseMembers(t: Ty, quote: string -> string)
    requires WellFormed(t) && t.Union?
    ensures AllWellFormed(EraseAll(t.members, quote)) && Flatten(EraseAll(t.members, quote)) != []
    ensures Any !in Flatten(EraseAll(t.members, quote))
  {
    hide NewUnion, Equal;
    var es := EraseAll(t.members, quote);
    forall i | 0 <= i < |es| ensures WellFormed(es[i]) && es[i] != Any {
      EraseAtom(t.members[i], quote);
    }
    NoAnyInside(es);
    FlattenSome(es);
  }

  lemma {:induction false} NoAnyInside(es: seq<Ty>)
    requires AllWellFormed(es) && forall i :: 0 <= i < |es| ==> es[i] != Any
    ensures Any !in Flatten(es)
    decreases es
  {
    if es != [] {
      NormalParts(es[0]);
      NoAnyInside(es[1..]);
    }
  }

  lemma FlattenSome(es: seq<Ty>)
    requires es != [] && AllWellFormed(es)
    ensures Flatten(es) != []
  {
    NormalParts(es[0]);
  }

  lemma {:induction false} PartsInFlat(es: seq<Ty>, i: nat, t: Ty)
    requires i < |es| && t in Parts(es[i])
    ensures t in Flatten(es)
    decreases es
  {
    if i > 0 {
      PartsInFlat(es[1..], i - 1, t);
    }
  }

  lemma {:induction false} FlatFromParts(es: seq<Ty>, t: Ty) returns (i: nat)
    requires t in Flatten(es)
    ensures i < |es| && t in Parts(es[i])
    decreases es
  {
    if t in Parts(es[0]) {
      i := 0;
    } else {
      i := FlatFromParts(es[1..], t);
      i := i + 1;
    }
  }

  /** A type erases to a primitive exactly when every part of it does. */
  lemma ErasesTo(t: Ty, p: Primitive, quote: string -> string)
    requires WellFormed(t) && p != PAny && p != PInvalid
    ensures Erase(t, quote) == Prim(p) <==> AllRefine(t, p)
  {
    hide Equal, NewUnion, Erase, WellFormed, Parts;
    if t.Union? {
      UnionErasesTo(t, p, quote);
    } else {
      EraseAtom(t, quote);
      PartsDiffer(t);
      assert Parts(t)[0] == t;
    }
  }

  lemma UnionErasesTo(t: Ty, p: Primitive, quote: string -> string)
    requires WellFormed(t) && t.Union? && p != PAny && p != PInvalid
    ensures Erase(t, quote) == Prim(p) <==> AllRefine(t, p)
  {
    hide Equal, NewUnion, Erase, WellFormed, Covered, From, Flatten;
    NormalParts(t);
    var es := EraseAll(t.members, quote);
    var e := Erase(t, quote);
    EraseUnion(t, quote);
    EraseMembers(t, quote);
    UnionNormal(es, quote);
    PartsDiffer(e);
    forall i | 0 <= i < |es| ensures es[i] == Prim(p) <==> Refines(t.members[i], p) {
      MemberWellFormed(t, i);
      EraseAtom(t.members[i], quote);
    }
    if e == Prim(p) {
      forall i | 0 <= i < |es| ensures es[i] == Prim(p) {
        ErasedPart(es, i, p);
      }
    }
    if AllRefine(t, p) {
      OnePart(es, e, p);
    }
  }

  lemma MemberWellFormed(t: Ty, i: nat)
    requires WellFormed(t) && t.Union? && i < |t.members|
    ensures WellFormed(t.members[i]) && Atomic(t.members[i])
  {
  }

  lemma EraseUnion(t: Ty, quote: string -> string)
    requires t.Union?
    ensures Erase(t, quote) == NewUnion(EraseAll(t.members, quote), quote)
  {
  }

  /** The parts of a union are not all one type. */
  lemma PartsDiffer(t: Ty)
    requires WellFormed(t)
    ensures t.Union? ==> |Parts(t)| >= 2 && Parts(t)[0] != Parts(t)[1]
    ensures !t.Union? ==> Parts(t) == [t]
  {
    NormalParts(t);
    if t.Union? {
      EqualRefl(t.members[0]);
    }
  }

  /** If all the flattened members are one primitive, so is each. */
  lemma ErasedPart(es: seq<Ty>, i: nat, p: Primitive)
    requires AllWellFormed(es) && i < |es| && Covered(Flatten(es), [Prim(p)])
    ensures es[i] == Prim(p)
  {
    hide WellFormed;
    forall k | 0 <= k < |Parts(es[i])| ensures Parts(es[i])[k] == Prim(p) {
      PartsInFlat(es, i, Parts(es[i])[k]);
      var a :| 0 <= a < |Flatten(es)| && Flatten(es)[a] == Parts(es[i])[k];
      assert Among(Flatten(es)[a], [Prim(p)]);
    }
    PartsDiffer(es[i]);
    assert Parts(es[i])[0] == Prim(p);
  }

  lemma OnePart(es: seq<Ty>, e: Ty, p: Primitive)
    requires WellFormed(e) && From(Parts(e), Flatten(es)) && forall i :: 0 <= i < |es| ==> es[i] == Prim(p)
    ensures e == Prim(p)
  {
    hide WellFormed, Parts;
    PartsDiffer(e);
    FlattenAtoms(es);
    forall i | 0 <= i < |Parts(e)| ensures Parts(e)[i] == Prim(p) {
      assert Parts(e)[i] in es;
    }
  }

  /** No literal is a `float`. */
  lemma OnlyFloat(t: Ty)
    requires WellFormed(t)
    ensures AllRefine(t, PFloat) <==> t == Float
  {
    hide WellFormed, Parts;
    PartsDiffer(t);
    FloatParts();
    forall i | 0 <= i < |Parts(t)| && Refines(Parts(t)[i], PFloat) ensures Parts(t)[i] == Float {
      PartWellFormed(t, i);
      if Parts(t)[i].Literal? {
        BaseKinds(Parts(t)[i]);
      }
    }
    assert t.Union? ==> !(Refines(Parts(t)[0], PFloat) && Refines(Parts(t)[1], PFloat));
    assert Refines(Parts(t)[0], PFloat) ==> Parts(t)[0] == Float;
  }

  predicate IntLike(t: Ty) {
    AllRefine(t, PInt)
  }

  /** What promotes to `float` when it meets one. */
  predicate Number(t: Ty) {
    IntLike(t) || t == Float
  }

  predicate Promotes(a: Ty, b: Ty) {
    (IntLike(a) && b == Float) || (a == Float && IntLike(b))
  }

  lemma PrimitiveEqual(t: Ty, p: Primitive)
    ensures (Equal(t, Prim(p)) <==> t == Prim(p)) && (Equal(Prim(p), t) <==> t == Prim(p))
  {
  }

  // The cases of the join.

  lemma PairParts(a: Ty, b: Ty)
    ensures Flatten([a, b]) == Parts(a) + Parts(b)
  {
    assert [a, b][1..] == [b];
    assert Flatten([b]) == Parts(b) + Flatten([]);
    assert Flatten([a, b]) == Parts(a) + Flatten([b]);
  }

  lemma JoinCases(a: Ty, b: Ty, quote: string -> string)
    requires WellFormed(a) && WellFormed(b)
    ensures
      var j := Join(a, b, quote);
      if Equal(a, b) then j == a
      else if a == Any || b == Any then j == Any
      else if Promotes(a, b) then j == Float
      else WellFormed(j) && j.Union? && Covered(Parts(a) + Parts(b), Parts(j)) && From(Parts(j), Parts(a) + Parts(b))
  {
    hide Show, NewUnion, Equal, Flatten, Erase, Parts, AllRefine;
    PrimitiveEqual(a, PAny);
    PrimitiveEqual(b, PAny);
    PrimitiveEqual(Erase(a, quote), PInt);
    PrimitiveEqual(Erase(a, quote), PFloat);
    PrimitiveEqual(Erase(b, quote), PInt);
    PrimitiveEqual(Erase(b, quote), PFloat);
    ErasesTo(a, PInt, quote);
    ErasesTo(a, PFloat, quote);
    ErasesTo(b, PInt, quote);
    ErasesTo(b, PFloat, quote);
    OnlyFloat(a);
    OnlyFloat(b);
    if !Equal(a, b) && a != Any && b != Any && !Promotes(a, b) {
      JoinUnion(a, b, quote);
    }
  }

  lemma JoinUnion(a: Ty, b: Ty, quote: string -> string)
    requires WellFormed(a) && WellFormed(b) && !Equal(a, b) && a != Any && b != Any
    ensures var j := NewUnion([a, b], quote);
      WellFormed(j) && j.Union? && Covered(Parts(a) + Parts(b), Parts(j)) && From(Parts(j), Parts(a) + Parts(b))
  {
    hide Show, NewUnion, Equal, Flatten, Parts, Covered, From, WellFormed;
    var flat := Parts(a) + Parts(b);
    PairParts(a, b);
    FlattenSome([a, b]);
    NoAnyInside([a, b]);
    UnionNormal([a, b], quote);
    var j := NewUnion([a, b], quote);
    PartsDiffer(j);
    var i, k := PairDiffers(a, b);
    if !j.Union? {
      CoveredByOne(flat, j, i, k);
    }
  }

  lemma PairDiffers(a: Ty, b: Ty) returns (i: nat, k: nat)
    requires WellFormed(a) && WellFormed(b) && !Equal(a, b)
    ensures var flat := Parts(a) + Parts(b); i < |flat| && k < |flat| && !Equal(flat[i], flat[k])
  {
    hide Equal;
    NormalParts(a);
    NormalParts(b);
    if a.Union? {
      i, k := 0, 1;
    } else if b.Union? {
      i, k := 1, 2;
    } else {
      i, k := 0, 1;
    }
  }

  // Flowing into unions, part by part.

  /** A type flows into a union when each of its parts is admitted. */
  lemma PartsInto(t: Ty, c: Ty)
    requires WellFormed(t) && c.Union? && forall i :: 0 <= i < |Parts(t)| ==> Admits(c.members, Parts(t)[i])
    ensures AssignableTo(t, c)
  {
    NormalParts(t);
    if !t.Union? {
      assert Parts(t)[0] == t;
      if t.Prim? && t.p == PInvalid {
        assert false;
      }
    }
  }

  /** And only then, unless it is `Any`. */
  lemma PartAdmitted(t: Ty, c: Ty, m: Ty)
    requires WellFormed(t) && WellFormed(c) && c.Union? && AssignableTo(t, c) && m in Parts(t)
    ensures Admits(c.members, m)
  {
    NormalParts(t);
    if t.Union? {
      var i :| 0 <= i < |t.members| && t.members[i] == m;
      if Equal(t, c) {
        assert EqualAll(t.members, c.members);
        EqualSym(t.members[i], c.members[i]);
      } else {
        PrimitiveEqual(c, PAny);
        assert Admits(c.members, t.members[i]);
      }
    } else {
      PrimitiveEqual(c, PAny);
      PrimitiveEqual(c, PFloat);
    }
  }

  /** An operand flows into a union that covers its parts. */
  lemma CoveredInto(t: Ty, flat: seq<Ty>, j: Ty)
    requires WellFormed(t) && j.Union? && WellFormed(j) && Covered(flat, Parts(j)) && From(Parts(t), flat)
    ensures AssignableTo(t, j)
  {
    hide Equal;
    NormalParts(j);
    forall i | 0 <= i < |Parts(t)| ensures Admits(j.members, Parts(t)[i]) {
      var k :| 0 <= k < |flat| && flat[k] == Parts(t)[i];
      assert Among(flat[k], j.members);
      var m :| 0 <= m < |j.members| && Equal(flat[k], j.members[m]);
      EqualSym(flat[k], j.members[m]);
    }
    PartsInto(t, j);
  }

  /** Integers and their literals flow into a union with `float` in it. */
  lemma IntLikeInto(t: Ty, c: Ty)
    requires WellFormed(t) && WellFormed(c) && c.Union? && IntLike(t) && Float in c.members
    ensures AssignableTo(t, c)
  {
    hide LiteralBase;
    var k :| 0 <= k < |c.members| && c.members[k] == Float;
    forall i | 0 <= i < |Parts(t)| ensures Admits(c.members, Parts(t)[i]) {
      NumberInto(Parts(t)[i]);
    }
    PartsInto(t, c);
  }

  lemma NumberInto(m: Ty)
    requires Refines(m, PInt)
    ensures AssignableTo(m, Float)
  {
  }

  /** Below a type that erases to `int` there is nothing else. */
  lemma BelowIntLike(t: Ty, f: Ty)
    requires WellFormed(t) && WellFormed(f) && AssignableTo(t, f) && IntLike(f)
    ensures IntLike(t)
  {
    hide WellFormed, Parts, AssignableTo;
    PartsDiffer(f);
    if f.Union? {
      forall i | 0 <= i < |Parts(t)| ensures Refines(Parts(t)[i], PInt) {
        PartWellFormed(t, i);
        PartAdmitted(t, f, Parts(t)[i]);
        BelowIntMember(Parts(t)[i], f);
      }
    } else {
      assert Parts(f)[0] == f;
      BelowIntAtom(t, f);
      PartsDiffer(t);
    }
  }

  lemma PartWellFormed(t: Ty, i: nat)
    requires WellFormed(t) && i < |Parts(t)|
    ensures WellFormed(Parts(t)[i])
  {
    NormalParts(t);
  }

  lemma BelowIntMember(m: Ty, f: Ty)
    requires WellFormed(m) && WellFormed(f) && f.Union? && IntLike(f) && Admits(f.members, m)
    ensures Refines(m, PInt)
  {
    hide Equal, AssignableTo;
    NormalParts(f);
    var k :| 0 <= k < |f.members| && (Equal(f.members[k], m) || AssignableTo(m, f.members[k]));
    assert Refines(Parts(f)[k], PInt);
    MemberWellFormed(f, k);
    if Equal(f.members[k], m) {
      EqualSym(f.members[k], m);
      EqualAssignable(m, f.members[k]);
    }
    BelowIntAtom(m, f.members[k]);
  }

  lemma EqualAssignable(a: Ty, b: Ty)
    requires WellFormed(a) && WellFormed(b) && Equal(a, b)
    ensures AssignableTo(a, b)
  {
    AssignableRefl(b);
    EqualSym(a, b);
    EqualSource(b, a, b);
  }

  lemma BelowIntAtom(m: Ty, f: Ty)
    requires WellFormed(m) && WellFormed(f) && AssignableTo(m, f) && Refines(f, PInt)
    ensures Refines(m, PInt) && !m.Union?
  {
    hide LiteralBase, Bases, HasBase;
    PrimitiveEqual(m, PInt);
    PrimitiveEqual(f, PInt);
    if f.Literal? {
      FewerValues(m, f);
    } else if m.Literal? {
      LiteralInto(m, f);
    }
  }

  // The fold that infers a return type.

  /** The join of all return types, from the left. */
  function FoldJoin(ts: seq<Ty>, quote: string -> string): Ty
    requires ts != []
    decreases ts
  {
    if |ts| == 1 then ts[0] else Join(FoldJoin(ts[..|ts| - 1], quote), ts[|ts| - 1], quote)
  }

  /** What the fold keeps of every return it has seen. */
  predicate Held(t: Ty, f: Ty) {
    AssignableTo(t, f) || (f == Float && IntLike(t))
  }

  lemma JoinWellFormed(a: Ty, b: Ty, quote: string -> string)
    requires WellFormed(a) && WellFormed(b)
    ensures WellFormed(Join(a, b, quote))
  {
    hide Join, Equal, AllRefine;
    JoinCases(a, b, quote);
    AnyIsWellFormed();
  }

  /** One more join: the new operand is held, */
  lemma JoinHoldsNew(f: Ty, y: Ty, quote: string -> string)
    requires WellFormed(f) && WellFormed(y)
    ensures Held(y, Join(f, y, quote))
  {
    hide Join, Equal, WellFormed, Covered, From, AllRefine, AssignableTo;
    JoinCases(f, y, quote);
    if Equal(f, y) {
      EqualSym(f, y);
      EqualAssignable(y, f);
    } else if f == Any || y == Any {
      AnyIsTop(y);
    } else if Promotes(f, y) {
      if y == Float {
        FloatIntoFloat();
      }
    } else {
      FromRight(Parts(f), Parts(y));
      CoveredInto(y, Parts(f) + Parts(y), Join(f, y, quote));
    }
  }

  lemma FloatParts()
    ensures Parts(Float) == [Float] && Parts(Any) == [Any]
  {
  }

  lemma FloatIntoFloat()
    ensures AssignableTo(Float, Float)
  {
  }

  lemma FromRight(x: seq<Ty>, y: seq<Ty>)
    ensures From(x, x + y) && From(y, x + y)
  {
  }

  /** and what was held before still is. */
  lemma JoinHoldsOld(t: Ty, f: Ty, y: Ty, quote: string -> string)
    requires WellFormed(t) && WellFormed(f) && WellFormed(y) && Held(t, f)
    ensures Held(t, Join(f, y, quote))
  {
    hide Join, Equal, WellFormed, Covered, From, AllRefine, AssignableTo, Parts;
    var j := Join(f, y, quote);
    JoinCases(f, y, quote);
    if Equal(f, y) {
    } else if f == Any || y == Any {
      AnyIsTop(t);
    } else if Promotes(f, y) {
      if AssignableTo(t, f) && f != Float {
        BelowIntLike(t, f);
      }
    } else {
      FromRight(Parts(f), Parts(y));
      if AssignableTo(t, f) {
        CoveredInto(f, Parts(f) + Parts(y), j);
        AssignableTrans(t, f, j);
      } else {
        FloatParts();
        FloatInside(Parts(f) + Parts(y), j);
        IntLikeInto(t, j);
      }
    }
  }

  lemma FloatInside(flat: seq<Ty>, j: Ty)
    requires WellFormed(j) && j.Union? && Covered(flat, Parts(j)) && Float in flat
    ensures Float in j.members
  {
    NormalParts(j);
    var k :| 0 <= k < |flat| && flat[k] == Float;
    assert Among(flat[k], Parts(j));
    var m :| 0 <= m < |Parts(j)| && Equal(flat[k], Parts(j)[m]);
    PrimitiveEqual(Parts(j)[m], PFloat);
  }

  /** Every return is held by the inferred type. */
  lemma {:induction false} FoldHolds(ts: seq<Ty>, quote: string -> string)
    requires ts != [] && AllWellFormed(ts)
    ensures WellFormed(FoldJoin(ts, quote))
    ensures forall i :: 0 <= i < |ts| ==> Held(ts[i], FoldJoin(ts, quote))
    decreases ts
  {
    hide Join, WellFormed, Held;
    if |ts| == 1 {
      HeldSelf(ts[0]);
    } else {
      var n := |ts| - 1;
      var f := FoldJoin(ts[..n], quote);
      FoldHolds(ts[..n], quote);
      JoinWellFormed(f, ts[n], quote);
      JoinHoldsNew(f, ts[n], quote);
      forall i | 0 <= i < n ensures Held(ts[i], FoldJoin(ts, quote)) {
        assert ts[..n][i] == ts[i];
        JoinHoldsOld(ts[i], f, ts[n], quote);
      }
    }
  }

  lemma HeldSelf(t: Ty)
    requires WellFormed(t)
    ensures Held(t, t)
  {
    AssignableRefl(t);
  }

  predicate AllNumbers(ts: seq<Ty>) {
    forall i :: 0 <= i < |ts| ==> Number(ts[i])
  }

  predicate AllEqual(ts: seq<Ty>) {
    forall i :: 0 <= i < |ts| ==> Equal(ts[i], ts[0])
  }

  /** A part of some return. */
  predicate Comes(p: Ty, ts: seq<Ty>) {
    exists i :: 0 <= i < |ts| && p in Parts(ts[i])
  }

  predicate AllCome(ps: seq<Ty>, ts: seq<Ty>) {
    forall k :: 0 <= k < |ps| ==> Comes(ps[k], ts)
  }

  /** Numbers fold to a number. */
  lemma {:induction false} NumbersFold(ts: seq<Ty>, quote: string -> string)
    requires ts != [] && AllWellFormed(ts) && AllNumbers(ts)
    ensures if Float in ts then FoldJoin(ts, quote) == Float else IntLike(FoldJoin(ts, quote))
    decreases ts
  {
    hide Join, WellFormed, AllRefine, Equal, Parts, Covered, From;
    if |ts| > 1 {
      var n := |ts| - 1;
      var f, y := FoldJoin(ts[..n], quote), ts[n];
      assert ts == ts[..n] + [y];
      NumbersFold(ts[..n], quote);
      FoldHolds(ts[..n], quote);
      JoinCases(f, y, quote);
      NumbersDiffer(f, y);
      if !Equal(f, y) && !Promotes(f, y) {
        IntLikeUnion(f, y, Join(f, y, quote));
      }
    }
  }

  /** Equal numbers are of one sort, and none is `Any`. */
  lemma NumbersDiffer(f: Ty, y: Ty)
    requires WellFormed(f) && WellFormed(y) && Number(f) && Number(y)
    ensures f != Any && y != Any
    ensures Equal(f, y) ==> (f == Float <==> y == Float)
    ensures f == y ==> Equal(f, y)
    ensures !(IntLike(f) && f == Float)
  {
    PrimitiveEqual(y, PFloat);
    PrimitiveEqual(f, PFloat);
    EqualRefl(f);
    assert Parts(Float)[0] == Float && Parts(Any)[0] == Any;
  }

  lemma IntLikeUnion(f: Ty, y: Ty, j: Ty)
    requires IntLike(f) && IntLike(y) && From(Parts(j), Parts(f) + Parts(y))
    ensures IntLike(j)
  {
    hide Parts;
    forall i | 0 <= i < |Parts(j)| ensures Refines(Parts(j)[i], PInt) {
      assert Parts(j)[i] in Parts(f) + Parts(y);
      if Parts(j)[i] in Parts(f) {
        var k :| 0 <= k < |Parts(f)| && Parts(f)[k] == Parts(j)[i];
      } else {
        var k :| 0 <= k < |Parts(y)| && Parts(y)[k] == Parts(j)[i];
      }
    }
  }

  /** What the inferred type looks like. */
  ghost predicate Shape(ts: seq<Ty>, f: Ty) {
    || (f == Any && Any in ts)
    || (f == Float && Float in ts && AllNumbers(ts))
    || (ts != [] && f == ts[0] && AllEqual(ts))
    || (f.Union? && Any !in ts && AllCome(Parts(f), ts))
  }

  lemma {:induction false} FoldShape(ts: seq<Ty>, quote: string -> string)
    requires ts != [] && AllWellFormed(ts)
    ensures Shape(ts, FoldJoin(ts, quote))
    decreases ts
  {
    hide Join, WellFormed, Shape, Held, Equal;
    if |ts| == 1 {
      EqualRefl(ts[0]);
      OneShape(ts);
    } else {
      var n := |ts| - 1;
      var f := FoldJoin(ts[..n], quote);
      FoldShape(ts[..n], quote);
      FoldHolds(ts[..n], quote);
      assert ts == ts[..n] + [ts[n]];
      ShapeStep(ts[..n], f, ts[n], quote);
    }
  }

  lemma OneShape(ts: seq<Ty>)
    requires |ts| == 1 && Equal(ts[0], ts[0])
    ensures Shape(ts, ts[0])
  {
  }

  lemma ShapeStep(ts: seq<Ty>, f: Ty, y: Ty, quote: string -> string)
    requires ts != [] && AllWellFormed(ts) && WellFormed(f) && WellFormed(y) && Shape(ts, f)
    requires forall i :: 0 <= i < |ts| ==> Held(ts[i], f)
    ensures Shape(ts + [y], Join(f, y, quote))
  {
    hide Join, WellFormed, Equal, Parts, Covered, From, AllRefine, Comes, Held;
    var us, j := ts + [y], Join(f, y, quote);
    assert us[|ts|] == y && forall i :: 0 <= i < |ts| ==> us[i] == ts[i];
    JoinCases(f, y, quote);
    if Equal(f, y) {
      ShapeSame(ts, f, y);
    } else if f == Any || y == Any {
      assert Any in us by {
        if y != Any { AnyShape(ts); }
      }
    } else if Promotes(f, y) {
      FloatShape(ts, f, y);
    } else {
      NoAnyYet(ts, f);
      ComesLater(ts, f, y);
      forall k | 0 <= k < |Parts(j)| ensures Comes(Parts(j)[k], us) {
        JoinedComes(f, y, j, us, k);
      }
    }
  }

  lemma JoinedComes(f: Ty, y: Ty, j: Ty, us: seq<Ty>, k: nat)
    requires From(Parts(j), Parts(f) + Parts(y)) && AllCome(Parts(f), us) && us != [] && us[|us| - 1] == y
    requires k < |Parts(j)|
    ensures Comes(Parts(j)[k], us)
  {
    hide Parts, Comes;
    var p := Parts(j)[k];
    assert p in Parts(f) + Parts(y);
    if p in Parts(f) {
      var i :| 0 <= i < |Parts(f)| && Parts(f)[i] == p;
      assert Comes(Parts(f)[i], us);
    } else {
      ComesLast(p, us);
    }
  }

  lemma ComesLast(p: Ty, us: seq<Ty>)
    requires us != [] && p in Parts(us[|us| - 1])
    ensures Comes(p, us)
  {
  }

  /** `Any` is the inferred type only when it is a return type. */
  lemma AnyShape(ts: seq<Ty>)
    requires Shape(ts, Any)
    ensures Any in ts
  {
  }

  lemma NoAnyYet(ts: seq<Ty>, f: Ty)
    requires Shape(ts, f) && f != Any
    ensures Any !in ts
  {
    assert Parts(Any)[0] == Any && !Number(Any);
    forall k | 0 <= k < |ts| ensures ts[k] == Any ==> !AllNumbers(ts) && (AllEqual(ts) ==> ts[0] == Any) {
      PrimitiveEqual(ts[0], PAny);
    }
  }

  /** Every part of the fold so far is a part of a return. */
  lemma ComesLater(ts: seq<Ty>, f: Ty, y: Ty)
    requires ts != [] && Shape(ts, f) && f != Any
    ensures AllCome(Parts(f), ts + [y])
  {
    hide Equal, AllNumbers;
    var us := ts + [y];
    forall k | 0 <= k < |Parts(f)| ensures Comes(Parts(f)[k], us) {
      if f in ts {
        var i :| 0 <= i < |ts| && ts[i] == f;
        assert us[i] == f;
      } else {
        assert Comes(Parts(f)[k], ts);
        var i :| 0 <= i < |ts| && Parts(f)[k] in Parts(ts[i]);
        assert us[i] == ts[i];
      }
    }
  }

  lemma ShapeSame(ts: seq<Ty>, f: Ty, y: Ty)
    requires ts != [] && Shape(ts, f) && Equal(f, y) && WellFormed(f) && WellFormed(y)
    ensures Shape(ts + [y], f)
  {
    hide Parts, WellFormed;
    var us := ts + [y];
    assert forall i :: 0 <= i < |ts| ==> us[i] == ts[i];
    EqualSym(f, y);
    PrimitiveEqual(y, PFloat);
    PrimitiveEqual(y, PAny);
    if f == Any || f == Float {
    } else if f.Union? && Any !in ts && AllCome(Parts(f), ts) {
      ComesLater(ts, f, y);
    }
  }

  lemma FloatShape(ts: seq<Ty>, f: Ty, y: Ty)
    requires ts != [] && AllWellFormed(ts) && WellFormed(f) && WellFormed(y) && Shape(ts, f) && Promotes(f, y)
    requires forall i :: 0 <= i < |ts| ==> Held(ts[i], f)
    ensures Shape(ts + [y], Float)
  {
    hide Parts, AllRefine, AssignableTo, WellFormed;
    var us := ts + [y];
    if y == Float {
      NumbersDiffer(f, y);
      assert us[|ts|] == Float;
      forall i | 0 <= i < |ts| ensures Number(ts[i]) {
        BelowIntLike(ts[i], f);
      }
    } else {
      NumbersDiffer(f, y);
      FloatSeen(ts);
    }
  }

  lemma FloatSeen(ts: seq<Ty>)
    requires ts != [] && Shape(ts, Float)
    ensures Float in ts && AllNumbers(ts)
  {
    hide AllRefine;
    if AllEqual(ts) && ts[0] == Float {
      forall i | 0 <= i < |ts| ensures Number(ts[i]) {
        PrimitiveEqual(ts[i], PFloat);
      }
    }
  }

  // When every return flows into the inferred type.

  /** Only integers, integer literals and `float`, with a union of literals and
      `float` among them: the inferred type is `float`, which no union flows into. */
  predicate MixesUnionWithFloat(ts: seq<Ty>) {
    Float in ts && AllNumbers(ts) && exists i :: 0 <= i < |ts| && ts[i].Union?
  }

  lemma FoldBounds(ts: seq<Ty>, quote: string -> string)
    requires ts != [] && AllWellFormed(ts)
    ensures (forall i :: 0 <= i < |ts| ==> AssignableTo(ts[i], FoldJoin(ts, quote))) <==> !MixesUnionWithFloat(ts)
  {
    hide FoldJoin, WellFormed, AssignableTo, AllRefine, Shape;
    var f := FoldJoin(ts, quote);
    FoldHolds(ts, quote);
    FoldShape(ts, quote);
    if MixesUnionWithFloat(ts) {
      NumbersFold(ts, quote);
      var i :| 0 <= i < |ts| && ts[i].Union?;
      NoUnionIntoFloat(ts[i]);
    } else if f == Float {
      FloatSeen(ts);
      forall i | 0 <= i < |ts| ensures AssignableTo(ts[i], f) {
        assert Number(ts[i]) && !ts[i].Union?;
        NumberIntoFloat(ts[i]);
      }
    }
  }

  lemma NoUnionIntoFloat(t: Ty)
    requires t.Union?
    ensures !AssignableTo(t, Float)
  {
  }

  lemma NumberIntoFloat(t: Ty)
    requires WellFormed(t) && Number(t) && !t.Union?
    ensures AssignableTo(t, Float)
  {
    PartsDiffer(t);
    if t != Float {
      assert Refines(Parts(t)[0], PInt);
      NumberInto(t);
    }
  }

  // When it is the least such type.

  /** One literal type, or one primitive type, has room for all the returns. */
  predicate OneFamily(ts: seq<Ty>) {
    (forall i :: 0 <= i < |ts| ==> ts[i].Literal?) ||
    exists p: Primitive :: FamilyOf(ts, p)
  }

  predicate FamilyOf(ts: seq<Ty>, p: Primitive) {
    forall i :: 0 <= i < |ts| ==> Refines(ts[i], p)
  }

  ghost predicate Bounds(c: Ty, ts: seq<Ty>) {
    WellFormed(c) && forall i :: 0 <= i < |ts| ==> AssignableTo(ts[i], c)
  }

  lemma FoldLeast(ts: seq<Ty>, quote: string -> string)
    requires ts != [] && AllWellFormed(ts)
    ensures (forall c :: Bounds(c, ts) ==> AssignableTo(FoldJoin(ts, quote), c)) <==> AllEqual(ts) || !OneFamily(ts)
  {
    hide FoldJoin, Bounds, AssignableTo, AllEqual, OneFamily, WellFormed;
    if AllEqual(ts) || !OneFamily(ts) {
      forall c | Bounds(c, ts) ensures AssignableTo(FoldJoin(ts, quote), c) {
        FoldBelow(ts, c, quote);
      }
    } else {
      var c := RoomFor(ts);
      FoldNotBelow(ts, c, quote);
    }
  }

  lemma FoldBelow(ts: seq<Ty>, c: Ty, quote: string -> string)
    requires ts != [] && AllWellFormed(ts) && Bounds(c, ts) && (AllEqual(ts) || !OneFamily(ts))
    ensures AssignableTo(FoldJoin(ts, quote), c)
  {
    hide FoldJoin, AssignableTo, WellFormed, OneFamily, Parts, AllNumbers, Equal;
    var f := FoldJoin(ts, quote);
    FoldHolds(ts, quote);
    FoldShape(ts, quote);
    if f in ts {
      var i :| 0 <= i < |ts| && ts[i] == f;
    } else if c == Any {
      AnyIsTop(f);
    } else if c.Union? {
      UnionBelow(ts, f, c);
    } else if AllEqual(ts) {
      AllEqualFold(ts, quote);
    } else {
      SmallBound(ts, c, quote);
    }
  }

  lemma {:induction false} AllEqualFold(ts: seq<Ty>, quote: string -> string)
    requires ts != [] && AllWellFormed(ts) && AllEqual(ts)
    ensures FoldJoin(ts, quote) == ts[0]
    decreases ts
  {
    hide Equal, WellFormed;
    if |ts| > 1 {
      var n := |ts| - 1;
      AllEqualFold(ts[..n], quote);
      assert ts[n] != Invalid && ts[0] != Invalid by {
        NotInvalid(ts[n]);
        NotInvalid(ts[0]);
      }
      EqualSym(ts[n], ts[0]);
    }
  }

  lemma NotInvalid(t: Ty)
    requires WellFormed(t)
    ensures t != Invalid
  {
  }

  /** A union made of parts of the returns is below every union above them. */
  lemma UnionBelow(ts: seq<Ty>, f: Ty, c: Ty)
    requires AllWellFormed(ts) && Bounds(c, ts) && c.Union? && WellFormed(f) && AllCome(Parts(f), ts)
    ensures AssignableTo(f, c)
  {
    hide AssignableTo, WellFormed, Parts, Admits;
    forall k | 0 <= k < |Parts(f)| ensures Admits(c.members, Parts(f)[k]) {
      assert Comes(Parts(f)[k], ts);
      var i :| 0 <= i < |ts| && Parts(f)[k] in Parts(ts[i]);
      PartAdmitted(ts[i], c, Parts(f)[k]);
    }
    PartsInto(f, c);
  }

  /** A bound that is neither a union nor `Any` leaves few return types: equal
      ones, or one family, or numbers with `float`. */
  lemma SmallBound(ts: seq<Ty>, c: Ty, quote: string -> string)
    requires ts != [] && AllWellFormed(ts) && Bounds(c, ts) && c != Any && !c.Union?
    ensures AllEqual(ts) || OneFamily(ts) || FoldJoin(ts, quote) in ts
  {
    hide FoldJoin, AssignableTo, WellFormed, Parts, AllRefine, Equal;
    if c.Literal? {
      forall i | 0 <= i < |ts| ensures ts[i].Literal? {
        BelowLiteral(ts[i], c);
      }
    } else if c == Float {
      forall i | 0 <= i < |ts| ensures Number(ts[i]) && (ts[i] == Float || Refines(ts[i], PInt)) {
        BelowFloat(ts[i]);
      }
      if Float in ts {
        NumbersFold(ts, quote);
      } else {
        assert FamilyOf(ts, PInt);
      }
    } else if c.Prim? {
      forall i | 0 <= i < |ts| ensures Refines(ts[i], c.p) {
        BelowPrimitive(ts[i], c);
      }
      assert FamilyOf(ts, c.p);
    } else {
      forall i | 0 <= i < |ts| ensures Equal(ts[i], ts[0]) {
        BelowOther(ts[i], c);
        BelowOther(ts[0], c);
        EqualSym(ts[0], c);
        EqualTrans(ts[i], c, ts[0]);
      }
    }
  }

  lemma BelowLiteral(t: Ty, c: Ty)
    requires WellFormed(t) && c.Literal? && AssignableTo(t, c)
    ensures t.Literal?
  {
  }

  lemma BelowFloat(t: Ty)
    requires WellFormed(t) && AssignableTo(t, Float)
    ensures Number(t) && (t == Float || Refines(t, PInt))
  {
    PrimitiveEqual(t, PFloat);
    PrimitiveEqual(t, PInt);
    PartsDiffer(t);
    if t.Literal? {
      LiteralInto(t, Float);
    }
  }

  lemma BelowPrimitive(t: Ty, c: Ty)
    requires WellFormed(t) && WellFormed(c) && c.Prim? && c != Any && c != Float && AssignableTo(t, c)
    ensures Refines(t, c.p)
  {
    PrimitiveEqual(t, c.p);
    if t.Literal? {
      LiteralInto(t, c);
    }
  }

  lemma BelowOther(t: Ty, c: Ty)
    requires WellFormed(t) && WellFormed(c) && !c.Prim? && !c.Union? && !c.Literal? && AssignableTo(t, c)
    ensures Equal(t, c)
  {
    hide LiteralBase;
    if t.Literal? {
      LiteralInto(t, c);
      BaseKinds(t);
    }
  }

  function AllValues(ts: seq<Ty>): seq<LiteralValue>
    requires forall i :: 0 <= i < |ts| ==> ts[i].Literal?
    decreases ts
  {
    if ts == [] then [] else ts[0].values + AllValues(ts[1..])
  }

  lemma {:induction false} ValuesIn(ts: seq<Ty>, i: nat)
    requires i < |ts| && forall k :: 0 <= k < |ts| ==> ts[k].Literal?
    ensures Contains(AllValues(ts), ts[i].values)
    decreases ts
  {
    if i > 0 {
      ValuesIn(ts[1..], i - 1);
    }
  }

  /** A bound with room for one family, which is no union. */
  lemma RoomFor(ts: seq<Ty>) returns (c: Ty)
    requires ts != [] && AllWellFormed(ts) && OneFamily(ts) && !AllEqual(ts)
    ensures Bounds(c, ts) && !c.Union? && c != Any && Any !in ts && Float !in ts
  {
    hide LiteralBase;
    if forall i :: 0 <= i < |ts| ==> ts[i].Literal? {
      var vs := AllValues(ts);
      ValuesIn(ts, 0);
      c := Literal(LiteralBase(vs), vs);
      assert ts[0].values[0] in vs;
      forall i | 0 <= i < |ts| ensures AssignableTo(ts[i], c) {
        ValuesIn(ts, i);
      }
    } else {
      var p: Primitive :| FamilyOf(ts, p);
      c := Prim(p);
      FamilyHasLiteral(ts, p);
    }
  }

  /** Different types of one family: one of them is a literal. */
  lemma FamilyHasLiteral(ts: seq<Ty>, p: Primitive)
    requires ts != [] && AllWellFormed(ts) && !AllEqual(ts) && FamilyOf(ts, p)
    ensures LiteralKind(Prim(p)) && Bounds(Prim(p), ts)
  {
    hide LiteralBase, Equal, AssignableTo;
    var k :| 0 <= k < |ts| && !Equal(ts[k], ts[0]);
    EqualRefl(ts[0]);
    assert Refines(ts[k], p) && Refines(ts[0], p);
    if ts[k].Literal? {
      BaseKinds(ts[k]);
    } else {
      BaseKinds(ts[0]);
    }
    forall i | 0 <= i < |ts| ensures AssignableTo(ts[i], Prim(p)) {
      RefinesInto(ts[i], p);
    }
  }

  lemma RefinesInto(m: Ty, p: Primitive)
    requires Refines(m, p) && LiteralKind(Prim(p))
    ensures AssignableTo(m, Prim(p))
  {
  }

  lemma FoldNotBelow(ts: seq<Ty>, c: Ty, quote: string -> string)
    requires ts != [] && AllWellFormed(ts) && !AllEqual(ts) && Bounds(c, ts) && !c.Union? && c != Any
    requires Any !in ts && Float !in ts
    ensures !AssignableTo(FoldJoin(ts, quote), c)
  {
    hide FoldJoin;
    FoldShape(ts, quote);
  }

  // Two operands.

  lemma PairFold(a: Ty, b: Ty, quote: string -> string)
    ensures FoldJoin([a, b], quote) == Join(a, b, quote)
  {
    assert [a, b][..1] == [a];
  }

  /** Both operands flow into their join, unless a union of integers and their
      literals meets `float`. */
  lemma JoinUpper(a: Ty, b: Ty, quote: string -> string)
    requires WellFormed(a) && WellFormed(b)
    ensures AssignableTo(a, Join(a, b, quote)) && AssignableTo(b, Join(a, b, quote)) <==>
      !(Promotes(a, b) && (a.Union? || b.Union?))
  {
    hide Join, AssignableTo, AllRefine, WellFormed;
    var ts := [a, b];
    PairFold(a, b, quote);
    FoldBounds(ts, quote);
    assert ts[0] == a && ts[1] == b;
    assert MixesUnionWithFloat(ts) <==> Promotes(a, b) && (a.Union? || b.Union?);
  }

  /** The join is below every type both operands flow into, unless the operands
      are two literals, or a literal and its base. */
  lemma JoinLeast(a: Ty, b: Ty, quote: string -> string)
    requires WellFormed(a) && WellFormed(b)
    ensures (forall c :: WellFormed(c) && AssignableTo(a, c) && AssignableTo(b, c) ==>
      AssignableTo(Join(a, b, quote), c)) <==>
      Equal(a, b) ||
      !((a.Literal? && b.Literal?) || (a.Literal? && b.Prim? && a.base == b) || (b.Literal? && a.Prim? && b.base == a))
  {
    hide Join, AssignableTo, WellFormed, LiteralBase;
    var ts := [a, b];
    PairFold(a, b, quote);
    FoldLeast(ts, quote);
    assert ts[0] == a && ts[1] == b;
    forall c ensures Bounds(c, ts) <==> WellFormed(c) && AssignableTo(a, c) && AssignableTo(b, c) {
    }
    EqualRefl(a);
    assert AllEqual(ts) <==> Equal(a, b) by {
      if Equal(a, b) { EqualSym(a, b); }
      if Equal(b, a) { EqualSym(b, a); }
    }
    if !Equal(a, b) {
      PairFamily(a, b);
    }
  }

  lemma PairFamily(a: Ty, b: Ty)
    requires WellFormed(a) && WellFormed(b) && !Equal(a, b)
    ensures OneFamily([a, b]) <==>
      (a.Literal? && b.Literal?) || (a.Literal? && b.Prim? && a.base == b) || (b.Literal? && a.Prim? && b.base == a)
  {
    hide LiteralBase;
    var ts := [a, b];
    assert ts[0] == a && ts[1] == b;
    EqualRefl(a);
    if a.Literal? && b.Prim? && a.base == b {
      assert FamilyOf(ts, b.p);
    }
    if b.Literal? && a.Prim? && b.base == a {
      assert FamilyOf(ts, a.p);
    }
    if p: Primitive :| FamilyOf(ts, p) {
      assert Refines(ts[0], p) && Refines(ts[1], p);
    }
  }

  const ONE: Ty := Literal(Int, [LInt(1)])
  const TWO: Ty := Literal(Int, [LInt(2)])
  const ONE_OR_TWO: Ty := Literal(Int, [LInt(1), LInt(2)])

  lemma IntBase(vs: seq<LiteralValue>)
    requires vs != [] && forall i :: 0 <= i < |vs| ==> vs[i].LInt?
    ensures LiteralBase(vs) == Int
  {
    assert BaseOf(vs[0]) == Int;
    assert !HasBase(vs, Prim(PNone)) && !HasBase(vs, Prim(PBool)) && !HasBase(vs, Prim(PStr)) && HasBase(vs, Int);
  }

  lemma IntLiterals()
    ensures WellFormed(ONE) && WellFormed(TWO) && WellFormed(ONE_OR_TWO) && !Equal(ONE, TWO)
    ensures AssignableTo(ONE, ONE_OR_TWO) && AssignableTo(TWO, ONE_OR_TWO)
  {
    hide LiteralBase;
    IntBase(ONE.values);
    IntBase(TWO.values);
    IntBase(ONE_OR_TWO.values);
    assert ONE.values[0] != TWO.values[0];
  }

  lemma IntLiteralUnion()
    ensures WellFormed(Union([ONE, TWO])) && IntLike(Union([ONE, TWO]))
  {
    hide LiteralBase;
    IntLiterals();
    var ms := [ONE, TWO];
    assert Distinct(ms) && forall i :: 0 <= i < |ms| ==> Atomic(ms[i]) && WellFormed(ms[i]);
    NormalParts(Union(ms));
  }

  /** Not least: both literals flow into `Literal[1, 2]`, their join does not. */
  lemma JoinOfLiteralsNotLeast(quote: string -> string)
    ensures AssignableTo(ONE, ONE_OR_TWO) && AssignableTo(TWO, ONE_OR_TWO)
    ensures !AssignableTo(Join(ONE, TWO, quote), ONE_OR_TWO)
  {
    hide Join, IntLike, WellFormed;
    IntLiterals();
    JoinCases(ONE, TWO, quote);
  }

  /** Not an upper bound: a union of integer literals joined with `float` is
      `float`, which the union does not flow into. */
  lemma JoinOfLiteralUnionNotUpper(quote: string -> string)
    ensures Join(Union([ONE, TWO]), Float, quote) == Float && !AssignableTo(Union([ONE, TWO]), Float)
  {
    hide Join, IntLike, WellFormed;
    IntLiteralUnion();
    FloatWellFormed();
    JoinCases(Union([ONE, TWO]), Float, quote);
  }

  lemma FloatWellFormed()
    ensures WellFormed(Float)
  {
  }

  // The order of the returns.

  /** The inferred type does not depend on the order, or the repetition, of the
      returns, up to mutual assignability. */
  lemma FoldOrderFree(ts: seq<Ty>, us: seq<Ty>, quote: string -> string)
    requires ts != [] && us != [] && AllWellFormed(ts) && AllWellFormed(us) && From(ts, us) && From(us, ts)
    ensures AssignableTo(FoldJoin(ts, quote), FoldJoin(us, quote))
      && AssignableTo(FoldJoin(us, quote), FoldJoin(ts, quote))
  {
    FoldInto(ts, us, quote);
    FoldInto(us, ts, quote);
  }

  lemma FoldInto(ts: seq<Ty>, us: seq<Ty>, quote: string -> string)
    requires ts != [] && us != [] && AllWellFormed(ts) && AllWellFormed(us) && From(ts, us) && From(us, ts)
    ensures AssignableTo(FoldJoin(ts, quote), FoldJoin(us, quote))
  {
    hide AssignableTo, FoldJoin, WellFormed, Shape, Equal, Parts, AllRefine;
    var f, g := FoldJoin(ts, quote), FoldJoin(us, quote);
    FoldHolds(ts, quote);
    FoldHolds(us, quote);
    FoldShape(us, quote);
    FoldShape(ts, quote);
    if g == Any {
      AnyIsTop(f);
    } else if g == Float {
      FloatSeen(us);
      SameNumbers(us, ts);
      NumbersFold(ts, quote);
      FloatIntoFloat();
    } else {
      NoAnyYet(us, g);
      forall i | 0 <= i < |ts| ensures AssignableTo(ts[i], g) {
        var k :| 0 <= k < |us| && us[k] == ts[i];
        assert Held(us[k], g);
      }
      IntoBound(ts, us, f, g, quote);
    }
  }

  lemma SameNumbers(us: seq<Ty>, ts: seq<Ty>)
    requires From(ts, us) && From(us, ts) && Float in us && AllNumbers(us)
    ensures Float in ts && AllNumbers(ts)
  {
    hide AllRefine;
    var k :| 0 <= k < |us| && us[k] == Float;
    forall i | 0 <= i < |ts| ensures Number(ts[i]) {
      var m :| 0 <= m < |us| && us[m] == ts[i];
    }
  }

  lemma IntoBound(ts: seq<Ty>, us: seq<Ty>, f: Ty, g: Ty, quote: string -> string)
    requires ts != [] && us != [] && AllWellFormed(ts) && AllWellFormed(us) && From(ts, us) && From(us, ts)
    requires f == FoldJoin(ts, quote) && g == FoldJoin(us, quote) && Shape(ts, f) && Shape(us, g)
    requires WellFormed(f) && g != Any && g != Float && Any !in us && Bounds(g, ts)
    ensures AssignableTo(f, g)
  {
    hide AssignableTo, FoldJoin, WellFormed, Equal, Parts, AllNumbers;
    if f in ts {
      var i :| 0 <= i < |ts| && ts[i] == f;
    } else if g.Union? {
      UnionBelow(ts, f, g);
    } else {
      SameEqual(us, ts);
      AllEqualFold(ts, quote);
    }
  }

  lemma SameEqual(us: seq<Ty>, ts: seq<Ty>)
    requires ts != [] && us != [] && From(ts, us) && AllEqual(us)
    ensures AllEqual(ts)
  {
    hide Equal;
    forall i | 0 <= i < |ts| ensures Equal(ts[i], ts[0]) {
      var a :| 0 <= a < |us| && us[a] == ts[i];
      var b :| 0 <= b < |us| && us[b] == ts[0];
      EqualSym(us[b], us[0]);
      EqualTrans(us[a], us[0], us[b]);
    }
  }

  method InferReturn(returns_: seq<Ty>, quote: string -> string) returns (r: Ty)
    ensures r == if returns_ == [] then Prim(PNone) else FoldJoin(returns_, quote)
  {
    if |returns_| == 0 {
      return Prim(PNone);
    }
    r := returns_[0];
    for i := 1 to |returns_|
      invariant r == FoldJoin(returns_[..i], quote)
    {
      assert returns_[..i + 1][..i] == returns_[..i];
      r := Join(r, returns_[i], quote);
    }
    assert returns_[..|returns_|] == returns_;
  }
}

/** The source-level types with their equality, assignability and join
    (types/types.go). */
module TypeLattice {

  datatype Primitive = PInvalid | PInt | PFloat | PBool | PStr | PBytes | PEllipsis | PNone | PAny | PTypeAlias | PCode

  datatype LiteralValue = LInt(i: int) | LBool(b: bool) | LStr(s: string) | LNone

  datatype Field = Field(name: string, typ: Ty)

  datatype Ty =
    | Prim(p: Primitive)
    | List(elem: Ty)
    | Dict(key: Ty, value: Ty)
    | SetOf(elem: Ty)
    | Tuple(elems: seq<Ty>)
    | Class(name: string, fields: seq<Field>)
    | Iterator(elem: Ty)
    | Callable(params: seq<Ty>, ret: Ty)
    | Literal(base: Ty, values: seq<LiteralValue>)
    | Module(name: string)
    | Union(members: seq<Ty>)

  const Invalid: Ty := Prim(PInvalid)
  const Int: Ty := Prim(PInt)
  const Float: Ty := Prim(PFloat)
  const Any: Ty := Prim(PAny)

  // Equality: a class is its name, a literal its values.

  predicate Equal(a: Ty, b: Ty)
    decreases a, 1
  {
    match (a, b)
    case (Prim(p), Prim(q)) => p == q
    case (List(x), List(y)) => Equal(x, y)
    case (Dict(k, v), Dict(l, w)) => Equal(k, l) && Equal(v, w)
    case (SetOf(x), SetOf(y)) => Equal(x, y)
    case (Tuple(xs), Tuple(ys)) => EqualAll(xs, ys)
    case (Class(n, _), Class(m, _)) => n == m
    case (Iterator(x), Iterator(y)) => Equal(x, y)
    case (Callable(ps, r), Callable(qs, s)) => EqualAll(ps, qs) && Equal(r, s)
    case (Literal(_, vs), Literal(_, ws)) => vs == ws
    case (Module(n), Module(m)) => n == m
    case (Union(xs), Union(ys)) => EqualAll(xs, ys)
    case _ => false
  }

  predicate EqualAll(xs: seq<Ty>, ys: seq<Ty>)
    decreases xs, 0
  {
    |xs| == |ys| && forall i :: 0 <= i < |xs| ==> Equal(xs[i], ys[i])
  }

  lemma {:induction false} EqualRefl(a: Ty)
    ensures Equal(a, a)
    decreases a
  {
    match a
    case List(x) => EqualRefl(x);
    case Dict(k, v) => EqualRefl(k); EqualRefl(v);
    case SetOf(x) => EqualRefl(x);
    case Iterator(x) => EqualRefl(x);
    case Tuple(xs) => forall i | 0 <= i < |xs| ensures Equal(xs[i], xs[i]) { EqualRefl(xs[i]); }
    case Callable(ps, r) =>
      EqualRefl(r);
      forall i | 0 <= i < |ps| ensures Equal(ps[i], ps[i]) { EqualRefl(ps[i]); }
    case Union(xs) => forall i | 0 <= i < |xs| ensures Equal(xs[i], xs[i]) { EqualRefl(xs[i]); }
    case _ =>
  }

  lemma {:induction false} EqualSym(a: Ty, b: Ty)
    requires Equal(a, b)
    ensures Equal(b, a)
    decreases a
  {
    match a
    case List(x) => EqualSym(x, b.elem);
    case Dict(k, v) => EqualSym(k, b.key); EqualSym(v, b.value);
    case SetOf(x) => EqualSym(x, b.elem);
    case Iterator(x) => EqualSym(x, b.elem);
    case Tuple(xs) => forall i | 0 <= i < |xs| ensures Equal(b.elems[i], xs[i]) { EqualSym(xs[i], b.elems[i]); }
    case Callable(ps, r) =>
      EqualSym(r, b.ret);
      forall i | 0 <= i < |ps| ensures Equal(b.params[i], ps[i]) { EqualSym(ps[i], b.params[i]); }
    case Union(xs) => forall i | 0 <= i < |xs| ensures Equal(b.members[i], xs[i]) { EqualSym(xs[i], b.members[i]); }
    case _ =>
  }

  lemma {:induction false} EqualTrans(a: Ty, b: Ty, c: Ty)
    requires Equal(a, b) && Equal(b, c)
    ensures Equal(a, c)
    decreases a
  {
    match a
    case List(x) => EqualTrans(x, b.elem, c.elem);
    case Dict(k, v) => EqualTrans(k, b.key, c.key); EqualTrans(v, b.value, c.value);
    case SetOf(x) => EqualTrans(x, b.elem, c.elem);
    case Iterator(x) => EqualTrans(x, b.elem, c.elem);
    case Tuple(xs) =>
      forall i | 0 <= i < |xs| ensures Equal(xs[i], c.elems[i]) { EqualTrans(xs[i], b.elems[i], c.elems[i]); }
    case Callable(ps, r) =>
      EqualTrans(r, b.ret, c.ret);
      forall i | 0 <= i < |ps| ensures Equal(ps[i], c.params[i]) { EqualTrans(ps[i], b.params[i], c.params[i]); }
    case Union(xs) =>
      forall i | 0 <= i < |xs| ensures Equal(xs[i], c.members[i]) { EqualTrans(xs[i], b.members[i], c.members[i]); }
    case _ =>
  }

  /** `Equal` may be read from either side and along chains. */
  lemma EqualCongruent(a: Ty, b: Ty)
    requires Equal(a, b)
    ensures forall c :: Equal(a, c) <==> Equal(b, c)
    ensures forall c :: Equal(c, a) <==> Equal(c, b)
  {
    EqualSym(a, b);
    forall c ensures Equal(a, c) <==> Equal(b, c) {
      if Equal(a, c) { EqualTrans(b, a, c); }
      if Equal(b, c) { EqualTrans(a, b, c); }
    }
    forall c ensures Equal(c, a) <==> Equal(c, b) {
      if Equal(c, a) { EqualTrans(c, a, b); }
      if Equal(c, b) { EqualTrans(c, b, a); }
    }
  }

  // Normal unions.

  predicate Among(t: Ty, ts: seq<Ty>) {
    exists i :: 0 <= i < |ts| && Equal(t, ts[i])
  }

  predicate Distinct(ts: seq<Ty>) {
    forall i, j :: 0 <= i < j < |ts| ==> !Equal(ts[i], ts[j])
  }

  /** What may stand in a union: neither a union, nor `Any`, nor `Invalid`. */
  predicate Atomic(t: Ty) {
    !t.Union? && t != Any && t != Invalid
  }

  function BaseOf(v: LiteralValue): Ty {
    match v
    case LInt(_) => Prim(PInt)
    case LBool(_) => Prim(PBool)
    case LStr(_) => Prim(PStr)
    case LNone => Prim(PNone)
  }

  predicate HasBase(vs: seq<LiteralValue>, t: Ty) {
    exists j :: 0 <= j < |vs| && BaseOf(vs[j]) == t
  }

  function OneIf(b: bool, t: Ty): seq<Ty> {
    if b then [t] else []
  }

  /** The bases of literal values, each once, in the order of their names. */
  function Bases(vs: seq<LiteralValue>): seq<Ty> {
    OneIf(HasBase(vs, Prim(PNone)), Prim(PNone)) + OneIf(HasBase(vs, Prim(PBool)), Prim(PBool))
    + OneIf(HasBase(vs, Int), Int) + OneIf(HasBase(vs, Prim(PStr)), Prim(PStr))
  }

  function LiteralBase(vs: seq<LiteralValue>): Ty {
    if |Bases(vs)| == 0 then Invalid else if |Bases(vs)| == 1 then Bases(vs)[0] else Union(Bases(vs))
  }

  /** What the constructors of the package build: normal unions of atomic types,
      literals with the base of their values, and no `Invalid` anywhere. */
  predicate WellFormed(t: Ty)
    decreases t
  {
    match t
    case Prim(p) => p != PInvalid
    case List(x) => WellFormed(x)
    case Dict(k, v) => WellFormed(k) && WellFormed(v)
    case SetOf(x) => WellFormed(x)
    case Tuple(xs) => forall i :: 0 <= i < |xs| ==> WellFormed(xs[i])
    case Class(_, _) => true
    case Iterator(x) => WellFormed(x)
    case Callable(ps, r) => WellFormed(r) && forall i :: 0 <= i < |ps| ==> WellFormed(ps[i])
    case Literal(b, vs) => vs != [] && b == LiteralBase(vs)
    case Module(_) => true
    case Union(ms) =>
      && |ms| >= 2 && Distinct(ms)
      && forall i :: 0 <= i < |ms| ==> Atomic(ms[i]) && WellFormed(ms[i])
  }

  // Assignability.

  predicate Contains(vs: seq<LiteralValue>, ws: seq<LiteralValue>) {
    forall i :: 0 <= i < |ws| ==> ws[i] in vs
  }

  predicate AssignableTo(src: Ty, dst: Ty)
    decreases src, dst, 1
  {
    if src == Invalid || dst == Invalid then false
    else if Equal(src, dst) then true
    else if Equal(src, Int) && Equal(dst, Float) then true
    else if dst.Literal? then src.Literal? && Contains(dst.values, src.values)
    else if src.Literal? then
      if dst.Union? then Admits(dst.members, src) else AssignableTo(src.base, dst)
    else if Equal(dst, Any) then true
    else if dst.Union? then
      if src.Union? then forall i :: 0 <= i < |src.members| ==> Admits(dst.members, src.members[i])
      else Admits(dst.members, src)
    else false
  }

  predicate Admits(members: seq<Ty>, t: Ty)
    decreases t, members, 0
  {
    exists i :: 0 <= i < |members| && (Equal(members[i], t) || AssignableTo(t, members[i]))
  }

  lemma AssignableRefl(a: Ty)
    requires a != Invalid
    ensures AssignableTo(a, a)
  {
    EqualRefl(a);
  }

  lemma BasesAre(vs: seq<LiteralValue>, t: Ty)
    ensures t in Bases(vs) <==> HasBase(vs, t)
  {
    if HasBase(vs, t) {
      var j :| 0 <= j < |vs| && BaseOf(vs[j]) == t;
      assert t == Prim(PNone) || t == Prim(PBool) || t == Int || t == Prim(PStr);
    }
  }

  predicate LiteralKind(t: Ty) {
    t == Prim(PNone) || t == Prim(PBool) || t == Int || t == Prim(PStr)
  }

  lemma BaseIsPlain(vs: seq<LiteralValue>)
    requires vs != []
    ensures LiteralKind(LiteralBase(vs)) || LiteralBase(vs).Union?
  {
    hide HasBase;
    BasesAre(vs, BaseOf(vs[0]));
    HasOwnBase(vs);
    if |Bases(vs)| == 1 {
      BasesAre(vs, Bases(vs)[0]);
      KindOfBase(vs, Bases(vs)[0]);
    }
  }

  lemma HasOwnBase(vs: seq<LiteralValue>)
    requires vs != []
    ensures HasBase(vs, BaseOf(vs[0]))
  {
  }

  lemma KindOfBase(vs: seq<LiteralValue>, t: Ty)
    requires HasBase(vs, t)
    ensures LiteralKind(t)
  {
  }

  /** A literal type flows into a plain type as its one base does. */
  lemma LiteralInto(a: Ty, dst: Ty)
    requires a.Literal? && WellFormed(a) && !dst.Literal? && !dst.Union? && dst != Invalid
    ensures AssignableTo(a, dst) <==> dst == Any || a.base == dst || (a.base == Int && dst == Float)
    ensures a.base != Any && a.base != Invalid && a.base != Float && (a.base.Prim? || a.base.Union?)
  {
    hide Bases, HasBase, LiteralBase;
    BaseIsPlain(a.values);
    PlainInto(a.base, dst);
  }

  lemma PlainInto(t: Ty, dst: Ty)
    requires (LiteralKind(t) || t.Union?) && !dst.Literal? && !dst.Union? && dst != Invalid
    ensures AssignableTo(t, dst) <==> dst == Any || t == dst || (t == Int && dst == Float)
  {
  }

  /** Fewer values have no other base. */
  lemma FewerValues(a: Ty, b: Ty)
    requires a.Literal? && WellFormed(a) && b.Literal? && WellFormed(b) && Contains(b.values, a.values)
      && !b.base.Union?
    ensures a.base == b.base
  {
    forall t ensures HasBase(a.values, t) ==> t == b.base {
      if HasBase(a.values, t) {
        var j :| 0 <= j < |a.values| && BaseOf(a.values[j]) == t;
        assert a.values[j] in b.values;
        BasesAre(b.values, t);
      }
    }
    BasesAre(a.values, BaseOf(a.values[0]));
    var t := BaseOf(a.values[0]);
    assert HasBase(a.values, t);
  }

  /** Every well-formed type flows into `Any`. */
  lemma AnyIsTop(a: Ty)
    requires WellFormed(a)
    ensures AssignableTo(a, Any)
  {
    if a.Literal? {
      LiteralInto(a, Any);
    }
  }

  /** Replacing the source by an equal type changes nothing. */
  lemma {:induction false} EqualSource(a: Ty, b: Ty, dst: Ty)
    requires Equal(a, b) && WellFormed(a) && WellFormed(b) && AssignableTo(a, dst)
    ensures AssignableTo(b, dst)
    decreases a, dst
  {
    EqualCongruent(a, b);
    if !Equal(a, dst) && !(Equal(a, Int) && Equal(dst, Float)) && dst.Union? {
      if a.Union? {
        forall i | 0 <= i < |b.members| ensures Admits(dst.members, b.members[i]) {
          var k :| 0 <= k < |dst.members| && (Equal(dst.members[k], a.members[i]) || AssignableTo(a.members[i],
                dst.members[k]));
          EqualSourceAt(a.members[i], b.members[i], dst, k);
        }
      } else {
        var k :| 0 <= k < |dst.members| && (Equal(dst.members[k], a) || AssignableTo(a, dst.members[k]));
        EqualSourceAt(a, b, dst, k);
      }
    }
  }

  lemma {:induction false} EqualSourceAt(a: Ty, b: Ty, dst: Ty, k: nat)
    requires Equal(a, b) && WellFormed(a) && WellFormed(b) && dst.Union? && k < |dst.members|
    requires Equal(dst.members[k], a) || AssignableTo(a, dst.members[k])
    ensures Admits(dst.members, b)
    decreases a, dst, 0
  {
    if Equal(dst.members[k], a) {
      EqualTrans(dst.members[k], a, b);
    } else {
      EqualSource(a, b, dst.members[k]);
    }
  }

  /** And so does replacing the destination. */
  lemma {:induction false} EqualTarget(a: Ty, b: Ty, c: Ty)
    requires Equal(b, c) && WellFormed(b) && WellFormed(c) && AssignableTo(a, b)
    ensures AssignableTo(a, c)
    decreases a, b
  {
    EqualCongruent(b, c);
    if !Equal(a, b) && !(Equal(a, Int) && Equal(b, Float)) {
      if a.Literal? && !b.Literal? && !b.Union? {
        EqualTarget(a.base, b, c);
      } else if b.Union? {
        if a.Union? {
          forall i | 0 <= i < |a.members| ensures Admits(c.members, a.members[i]) {
            EqualTargetAdmits(a.members[i], b, c);
          }
        } else {
          EqualTargetAdmits(a, b, c);
        }
      }
    }
  }

  lemma {:induction false} EqualTargetAdmits(a: Ty, b: Ty, c: Ty)
    requires b.Union? && Equal(b, c) && WellFormed(b) && WellFormed(c) && Admits(b.members, a)
    ensures Admits(c.members, a)
    decreases a, b, 0
  {
    var k :| 0 <= k < |b.members| && (Equal(b.members[k], a) || AssignableTo(a, b.members[k]));
    if Equal(b.members[k], a) {
      EqualSym(b.members[k], c.members[k]);
      EqualTrans(c.members[k], b.members[k], a);
    } else {
      EqualTarget(a, b.members[k], c.members[k]);
    }
  }

  /** Assignability does not tell equal types apart. */
  lemma AssignableRespectsEqual(a: Ty, a': Ty, b: Ty, b': Ty)
    requires WellFormed(a) && WellFormed(a') && WellFormed(b) && WellFormed(b') && Equal(a, a') && Equal(b, b')
    ensures AssignableTo(a, b) <==> AssignableTo(a', b')
  {
    if AssignableTo(a, b) {
      EqualSource(a, a', b);
      EqualTarget(a', b, b');
    }
    if AssignableTo(a', b') {
      EqualSym(a, a');
      EqualSym(b, b');
      EqualSource(a', a, b');
      EqualTarget(a, b', b);
    }
  }

  // Transitivity.

  /** `a` flows into `b` and `b` into a member of the union `c`. */
  lemma {:induction false} ThroughMember(a: Ty, b: Ty, c: Ty, k: nat)
    requires WellFormed(a) && WellFormed(b) && WellFormed(c) && c.Union? && k < |c.members|
    requires AssignableTo(a, b) && (Equal(c.members[k], b) || AssignableTo(b, c.members[k]))
    ensures AssignableTo(a, c.members[k])
    decreases a, b, c, 0
  {
    if Equal(c.members[k], b) {
      EqualSym(c.members[k], b);
      EqualTarget(a, b, c.members[k]);
    } else {
      AssignableTrans(a, b, c.members[k]);
    }
  }

  /** A member of a union, or anything that flows into one, flows into the union. */
  lemma AdmitsMember(a: Ty, c: Ty, k: nat)
    requires WellFormed(a) && WellFormed(c) && c.Union? && k < |c.members| && AssignableTo(a, c.members[k]) && !a.Union?
    ensures AssignableTo(a, c) && Admits(c.members, a)
  {
  }

  /** A union flows into nothing atomic. */
  lemma UnionIntoAtomic(a: Ty, b: Ty)
    requires a.Union? && Atomic(b)
    ensures !AssignableTo(a, b)
  {
  }

  lemma {:induction false} AssignableTrans(a: Ty, b: Ty, c: Ty)
    requires WellFormed(a) && WellFormed(b) && WellFormed(c)
    requires AssignableTo(a, b) && AssignableTo(b, c)
    ensures AssignableTo(a, c)
    decreases a, b, c, 3
  {
    if Equal(a, b) {
      EqualSym(a, b);
      EqualSource(b, a, c);
    } else if Equal(b, c) {
      EqualTarget(a, b, c);
    } else if c == Any {
      AnyIsTop(a);
    } else if c.Literal? {
    } else if c.Union? {
      TransIntoUnion(a, b, c);
    } else if b.Literal? {
      LiteralInto(b, c);
      FewerValues(a, b);
      LiteralInto(a, c);
    } else if a.Literal? {
      LiteralInto(a, b);
      LiteralInto(a, c);
    }
  }

  lemma {:induction false} TransIntoUnion(a: Ty, b: Ty, c: Ty)
    requires WellFormed(a) && WellFormed(b) && WellFormed(c) && c.Union?
    requires AssignableTo(a, b) && AssignableTo(b, c) && !Equal(a, b) && !Equal(b, c)
    ensures AssignableTo(a, c)
    decreases a, b, c, 2
  {
    if b.Union? {
      if a.Union? {
        forall i | 0 <= i < |a.members| ensures Admits(c.members, a.members[i]) {
          TransThroughUnion(a.members[i], b, c);
        }
      } else {
        TransThroughUnion(a, b, c);
      }
    } else {
      var k :| 0 <= k < |c.members| && (Equal(c.members[k], b) || AssignableTo(b, c.members[k]));
      ThroughMember(a, b, c, k);
      if a.Union? {
        UnionIntoAtomic(a, c.members[k]);
      }
      AdmitsMember(a, c, k);
    }
  }

  lemma {:induction false} TransThroughUnion(a: Ty, b: Ty, c: Ty)
    requires WellFormed(a) && !a.Union? && WellFormed(b) && WellFormed(c) && b.Union? && c.Union?
    requires Admits(b.members, a) && forall i :: 0 <= i < |b.members| ==> Admits(c.members, b.members[i])
    ensures Admits(c.members, a) && AssignableTo(a, c)
    decreases a, b, c, 1
  {
    var j :| 0 <= j < |b.members| && (Equal(b.members[j], a) || AssignableTo(a, b.members[j]));
    if Equal(b.members[j], a) {
      EqualSym(b.members[j], a);
    }
    assert AssignableTo(a, b.members[j]);
    assert Admits(c.members, b.members[j]);
    var k :| 0 <= k < |c.members| && (Equal(c.members[k], b.members[j]) || AssignableTo(b.members[j], c.members[k]));
    ThroughMember(a, b.members[j], c, k);
    AdmitsMember(a, c, k);
  }
}

/** How unions and literals are normalised and how types are joined
    (types/types.go), and the fold that infers a return type
    (compiler/check_decl.go). */
module UnionJoin {
  import opened Sequences
  import opened TypeLattice

  // Printed names and their order.

  function Digits(n: nat): string
    decreases n
  {
    if n < 10 then [('0' as int + n) as char] else Digits(n / 10) + [('0' as int + n % 10) as char]
  }

  /** `quote` stands for Go's quoting of a string literal. */
  function ShowValue(v: LiteralValue, quote: string -> string): string {
    match v
    case LInt(i) => if i < 0 then "-" + Digits(-i) else Digits(i)
    case LBool(b) => if b then "True" else "False"
    case LStr(s) => quote(s)
    case LNone => "None"
  }

  function Joined(parts: seq<string>, sep: string): string
    decreases parts
  {
    if parts == [] then "" else if |parts| == 1 then parts[0] else parts[0] + sep + Joined(parts[1..], sep)
  }

  function PrimitiveName(p: Primitive): string {
    match p
    case PInvalid => "<invalid>"
    case PInt => "int"
    case PFloat => "float"
    case PBool => "bool"
    case PStr => "str"
    case PBytes => "bytes"
    case PEllipsis => "EllipsisType"
    case PNone => "None"
    case PAny => "Any"
    case PTypeAlias => "typing.TypeAlias"
    case PCode => "code"
  }

  function Show(t: Ty, quote: string -> string): string
    decreases t, 1
  {
    match t
    case Prim(p) => PrimitiveName(p)
    case List(e) => "list[" + Show(e, quote) + "]"
    case Dict(k, v) => "dict[" + Show(k, quote) + ", " + Show(v, quote) + "]"
    case SetOf(e) => "set[" + Show(e, quote) + "]"
    case Tuple(es) => "tuple[" + Joined(ShowAll(es, quote), ", ") + (if |es| == 1 then "," else "") + "]"
    case Class(n, _) => if n == "" then "<class>" else n
    case Iterator(e) => "Iterator[" + Show(e, quote) + "]"
    case Callable(ps, r) => "Callable[[" + Joined(ShowAll(ps, quote), ", ") + "], " + Show(r, quote) + "]"
    case Literal(_, vs) =>
      if vs == [] then "Literal[<invalid>]"
      else "Literal[" + Joined(seq(|vs|, i requires 0 <= i < |vs| => ShowValue(vs[i], quote)), ", ") + "]"
    case Module(n) => if n == "" then "<module>" else "module " + n
    case Union(ms) => if ms == [] then "<invalid>" else Joined(ShowAll(ms, quote), " | ")
  }

  function ShowAll(ts: seq<Ty>, quote: string -> string): (r: seq<string>)
    ensures |r| == |ts| && forall i :: 0 <= i < |ts| ==> r[i] == Show(ts[i], quote)
    decreases ts, 0
  {
    if ts == [] then [] else [Show(ts[0], quote)] + ShowAll(ts[1..], quote)
  }

  /** Types the checker holds equal print alike. */
  lemma {:induction false} EqualShow(a: Ty, b: Ty, quote: string -> string)
    requires Equal(a, b)
    ensures Show(a, quote) == Show(b, quote)
    decreases a, 1
  {
    match a
    case List(e) => EqualShow(e, b.elem, quote);
    case Dict(k, v) => EqualShow(k, b.key, quote); EqualShow(v, b.value, quote);
    case SetOf(e) => EqualShow(e, b.elem, quote);
    case Tuple(es) => EqualShowAll(es, b.elems, quote);
    case Iterator(e) => EqualShow(e, b.elem, quote);
    case Callable(ps, r) => EqualShowAll(ps, b.params, quote); EqualShow(r, b.ret, quote);
    case Union(ms) => EqualShowAll(ms, b.members, quote);
    case _ =>
  }

  lemma {:induction false} EqualShowAll(xs: seq<Ty>, ys: seq<Ty>, quote: string -> string)
    requires EqualAll(xs, ys)
    ensures ShowAll(xs, quote) == ShowAll(ys, quote)
    decreases xs, 0
  {
    if xs != [] {
      EqualShow(xs[0], ys[0], quote);
      EqualShowAll(xs[1..], ys[1..], quote);
    }
  }

  // Sorting by printed name.

  function Insert(t: Ty, ts: seq<Ty>, quote: string -> string): (r: seq<Ty>)
    decreases ts
  {
    if ts == [] then [t]
    else if StringLess(Show(t, quote), Show(ts[0], quote)) then [t] + ts
    else [ts[0]] + Insert(t, ts[1..], quote)
  }

  function SortByName(ts: seq<Ty>, quote: string -> string): seq<Ty>
    decreases ts
  {
    if ts == [] then [] else Insert(ts[|ts| - 1], SortByName(ts[..|ts| - 1], quote), quote)
  }

  predicate Ascending(ts: seq<Ty>, quote: string -> string) {
    forall i, j :: 0 <= i < j < |ts| ==> !StringLess(Show(ts[j], quote), Show(ts[i], quote))
  }

  lemma {:induction false} InsertMultiset(t: Ty, ts: seq<Ty>, quote: string -> string)
    ensures multiset(Insert(t, ts, quote)) == multiset(ts) + multiset{t}
    decreases ts
  {
    hide Show, StringLess;
    if ts != [] {
      assert ts == [ts[0]] + ts[1..];
      InsertMultiset(t, ts[1..], quote);
    }
  }

  predicate NoneBefore(x: string, ts: seq<Ty>, quote: string -> string) {
    forall j :: 0 <= j < |ts| ==> !StringLess(Show(ts[j], quote), x)
  }

  lemma {:induction false} InsertNoneBefore(x: string, t: Ty, ts: seq<Ty>, quote: string -> string)
    requires NoneBefore(x, ts, quote) && !StringLess(Show(t, quote), x)
    ensures NoneBefore(x, Insert(t, ts, quote), quote)
    decreases ts
  {
    hide Show, StringLess;
    if ts != [] {
      InsertNoneBefore(x, t, ts[1..], quote);
    }
  }

  lemma {:induction false} InsertAscending(t: Ty, ts: seq<Ty>, quote: string -> string)
    requires Ascending(ts, quote)
    ensures Ascending(Insert(t, ts, quote), quote)
    decreases ts
  {
    hide Show, StringLess;
    if ts != [] {
      if StringLess(Show(t, quote), Show(ts[0], quote)) {
        forall j | 0 <= j < |ts| ensures !StringLess(Show(ts[j], quote), Show(t, quote)) {
          StringLessTotal(Show(t, quote), Show(ts[0], quote));
          if StringLess(Show(ts[j], quote), Show(t, quote)) {
            StringLessTrans(Show(ts[j], quote), Show(t, quote), Show(ts[0], quote));
          }
        }
      } else {
        InsertAscending(t, ts[1..], quote);
        InsertNoneBefore(Show(ts[0], quote), t, ts[1..], quote);
        var rest := Insert(t, ts[1..], quote);
        assert forall j :: 0 <= j < |rest| ==> !StringLess(Show(rest[j], quote), Show(ts[0], quote));
      }
    }
  }

  lemma {:induction false} SortKeeps(ts: seq<Ty>, quote: string -> string)
    ensures multiset(SortByName(ts, quote)) == multiset(ts) && Ascending(SortByName(ts, quote), quote)
    ensures |SortByName(ts, quote)| == |ts|
    decreases ts
  {
    if ts != [] {
      var n := |ts| - 1;
      assert ts == ts[..n] + [ts[n]];
      SortKeeps(ts[..n], quote);
      InsertMultiset(ts[n], SortByName(ts[..n], quote), quote);
      InsertAscending(ts[n], SortByName(ts[..n], quote), quote);
    }
    assert |multiset(SortByName(ts, quote))| == |multiset(ts)|;
  }

  lemma AmongTail(x: Ty, ts: seq<Ty>)
    requires ts != []
    ensures Among(x, ts[1..]) ==> Among(x, ts)
  {
    assert forall i :: 0 <= i < |ts[1..]| ==> ts[1..][i] == ts[i + 1];
  }

  lemma {:induction false} InsertApart(x: Ty, t: Ty, ts: seq<Ty>, quote: string -> string)
    requires !Among(x, ts) && !Equal(x, t)
    ensures !Among(x, Insert(t, ts, quote))
    decreases ts
  {
    hide Show, StringLess, Equal;
    if ts != [] {
      AmongTail(x, ts);
      InsertApart(x, t, ts[1..], quote);
    }
  }

  lemma {:induction false} InsertDistinct(t: Ty, ts: seq<Ty>, quote: string -> string)
    requires Distinct(ts) && !Among(t, ts)
    ensures Distinct(Insert(t, ts, quote))
    decreases ts
  {
    hide Show, StringLess, Equal;
    if ts != [] {
      if StringLess(Show(t, quote), Show(ts[0], quote)) {
        assert forall j :: 0 <= j < |ts| ==> !Equal(t, ts[j]);
      } else {
        var tail := ts[1..];
        assert forall j :: 0 <= j < |tail| ==> tail[j] == ts[j + 1];
        InsertDistinct(t, tail, quote);
        if Equal(ts[0], t) { EqualSym(ts[0], t); }
        InsertApart(ts[0], t, tail, quote);
        var rest := Insert(t, tail, quote);
        assert forall j :: 0 <= j < |rest| ==> !Equal(ts[0], rest[j]);
      }
    }
  }

  lemma {:induction false} SortDistinct(ts: seq<Ty>, quote: string -> string)
    requires Distinct(ts)
    ensures Distinct(SortByName(ts, quote))
    decreases ts
  {
    if ts != [] {
      var n := |ts| - 1;
      SortDistinct(ts[..n], quote);
      SortKeeps(ts[..n], quote);
      var rest := SortByName(ts[..n], quote);
      if Among(ts[n], rest) {
        var j :| 0 <= j < |rest| && Equal(ts[n], rest[j]);
        assert rest[j] in multiset(rest);
        var k :| 0 <= k < n && ts[..n][k] == rest[j];
        EqualSym(ts[n], ts[k]);
      }
      InsertDistinct(ts[n], rest, quote);
    }
  }

  // Unions.

  function Parts(t: Ty): seq<Ty>
    decreases t, 1
  {
    if t.Union? then Flatten(t.members) else [t]
  }

  function Flatten(ms: seq<Ty>): seq<Ty>
    decreases ms, 0
  {
    if ms == [] then [] else Parts(ms[0]) + Flatten(ms[1..])
  }

  datatype Scanned = Poisoned | Absorbed | Kept(uniq: seq<Ty>)

  /** Drops repeated members; the first `Invalid` or `Any` decides. */
  function Scan(flat: seq<Ty>, uniq: seq<Ty>): Scanned
    decreases flat
  {
    if flat == [] then Kept(uniq)
    else if flat[0] == Invalid then Poisoned
    else if Equal(flat[0], Any) then Absorbed
    else Scan(flat[1..], if Among(flat[0], uniq) then uniq else uniq + [flat[0]])
  }

  function NewUnion(ms: seq<Ty>, quote: string -> string): Ty {
    match Scan(Flatten(ms), [])
    case Poisoned => Invalid
    case Absorbed => Any
    case Kept(uniq) =>
      if |uniq| == 0 then Invalid else if |uniq| == 1 then uniq[0] else Union(SortByName(uniq, quote))
  }

  /** Each of `xs` has an equal in `ys`. */
  predicate Covered(xs: seq<Ty>, ys: seq<Ty>) {
    forall i :: 0 <= i < |xs| ==> Among(xs[i], ys)
  }

  predicate From(us: seq<Ty>, f: seq<Ty>) {
    forall i :: 0 <= i < |us| ==> us[i] in f
  }

  predicate Clean(ts: seq<Ty>) {
    forall i :: 0 <= i < |ts| ==> Atomic(ts[i])
  }

  /** Without `Invalid` and `Any` the scan keeps one of each. */
  lemma {:induction false} ScanKeeps(flat: seq<Ty>, uniq: seq<Ty>)
    requires Clean(flat) && Distinct(uniq)
    ensures Scan(flat, uniq).Kept?
    ensures var r := Scan(flat, uniq).uniq;
            Distinct(r) && uniq <= r && Covered(flat, r)
            && (uniq == [] ==> From(r, flat)) && forall i :: |uniq| <= i < |r| ==> r[i] in flat
    decreases flat
  {
    hide Equal;
    if flat != [] {
      var t := flat[0];
      OnlyAny(t);
      var u := if Among(t, uniq) then uniq else uniq + [t];
      ScanStep(t, uniq);
      ScanKeeps(flat[1..], u);
      var r := Scan(flat[1..], u).uniq;
      AmongMore(t, u, r);
      assert forall i :: 1 <= i < |flat| ==> flat[i] == flat[1..][i - 1];
    }
  }

  lemma OnlyAny(t: Ty)
    ensures Equal(t, Any) <==> t == Any
  {
  }

  lemma ScanStep(t: Ty, uniq: seq<Ty>)
    requires Distinct(uniq)
    ensures var u := if Among(t, uniq) then uniq else uniq + [t]; Distinct(u) && Among(t, u)
  {
    EqualRefl(t);
    if !Among(t, uniq) {
      var u := uniq + [t];
      assert u[|uniq|] == t;
      forall i | 0 <= i < |uniq| ensures !Equal(u[i], t) {
        if Equal(u[i], t) { EqualSym(u[i], t); }
      }
    }
  }

  lemma AmongMore(t: Ty, u: seq<Ty>, r: seq<Ty>)
    requires Among(t, u) && u <= r
    ensures Among(t, r)
  {
    var i :| 0 <= i < |u| && Equal(t, u[i]);
    assert r[i] == u[i];
  }

  /** Poisoning and absorbing: the first of `Invalid` and `Any` wins. */
  lemma {:induction false} ScanStops(flat: seq<Ty>, uniq: seq<Ty>, k: nat)
    requires k < |flat| && Clean(flat[..k]) && (flat[k] == Invalid || flat[k] == Any)
    ensures Scan(flat, uniq) == if flat[k] == Invalid then Poisoned else Absorbed
    decreases flat
  {
    OnlyAny(flat[0]);
    if k > 0 {
      assert flat[..k][0] == flat[0];
      assert flat[1..][..k - 1] == flat[..k][1..];
      ScanStops(flat[1..], if Among(flat[0], uniq) then uniq else uniq + [flat[0]], k - 1);
    }
  }

  predicate AllWellFormed(ts: seq<Ty>) {
    forall i :: 0 <= i < |ts| ==> WellFormed(ts[i])
  }

  /** The flattened members of well-formed types are well formed and atomic or `Any`. */
  lemma {:induction false} FlattenWellFormed(ms: seq<Ty>)
    requires AllWellFormed(ms)
    ensures AllWellFormed(Flatten(ms))
      && forall i :: 0 <= i < |Flatten(ms)| ==> Atomic(Flatten(ms)[i]) || Flatten(ms)[i] == Any
    decreases ms
  {
    if ms != [] {
      PartsWellFormed(ms[0]);
      FlattenWellFormed(ms[1..]);
    }
  }

  lemma {:induction false} FlattenAtoms(ms: seq<Ty>)
    requires forall i :: 0 <= i < |ms| ==> !ms[i].Union?
    ensures Flatten(ms) == ms
    decreases ms
  {
    if ms != [] {
      FlattenAtoms(ms[1..]);
    }
  }

  lemma PartsWellFormed(t: Ty)
    requires WellFormed(t)
    ensures Parts(t) == if t.Union? then t.members else [t]
    ensures AllWellFormed(Parts(t)) && forall i :: 0 <= i < |Parts(t)| ==> Atomic(Parts(t)[i]) || Parts(t)[i] == Any
  {
    if t.Union? {
      FlattenAtoms(t.members);
    }
  }

  /** `u` is a normal form of the members `flat`: well formed, so flat and without
      repetition, `Any` or `Invalid` inside, sorted, and made of those members. */
  predicate NormalOf(u: Ty, flat: seq<Ty>, quote: string -> string) {
    && WellFormed(u) && u != Any
    && Covered(flat, Parts(u)) && From(Parts(u), flat)
    && Ascending(Parts(u), quote)
  }

  lemma UnionNormal(ms: seq<Ty>, quote: string -> string)
    requires AllWellFormed(ms) && Flatten(ms) != []
    ensures if Any in Flatten(ms) then NewUnion(ms, quote) == Any else NormalOf(NewUnion(ms, quote), Flatten(ms), quote)
  {
    hide Show, Equal, NormalOf, Covered, Distinct, Flatten, WellFormed, SortByName;
    var flat := Flatten(ms);
    FlattenWellFormed(ms);
    if Any in flat {
      FirstAny(flat);
      ScanStops(flat, [], FirstAnyAt(flat));
    } else {
      assert Clean(flat);
      NothingTwice();
      ScanKeeps(flat, []);
      var uniq := Scan(flat, []).uniq;
      UniqNonEmpty(flat, uniq);
      if |uniq| == 1 {
        assert uniq == [uniq[0]];
        OneNormal(flat, uniq[0], quote);
      } else {
        UnionOfUniq(flat, uniq, quote);
      }
    }
  }

  lemma NothingTwice()
    ensures Distinct([])
  {
  }

  lemma OneNormal(flat: seq<Ty>, t: Ty, quote: string -> string)
    requires Clean(flat) && AllWellFormed(flat) && Covered(flat, [t]) && t in flat
    ensures NormalOf(t, flat, quote)
  {
    hide Show, Equal, Covered;
    var k :| 0 <= k < |flat| && flat[k] == t;
    assert Atomic(flat[k]);
    assert Parts(t) == [t];
  }

  lemma UniqNonEmpty(flat: seq<Ty>, uniq: seq<Ty>)
    requires flat != [] && Covered(flat, uniq)
    ensures uniq != []
  {
    assert Among(flat[0], uniq);
  }

  function FirstAnyAt(flat: seq<Ty>): (k: nat)
    requires Any in flat
    ensures k < |flat| && flat[k] == Any && Any !in flat[..k]
  {
    if flat[0] == Any then 0
    else
      var k := FirstAnyAt(flat[1..]) + 1;
      assert flat[..k] == [flat[0]] + flat[1..][..k - 1];
      k
  }

  lemma FirstAny(flat: seq<Ty>)
    requires Any in flat && forall i :: 0 <= i < |flat| ==> Atomic(flat[i]) || flat[i] == Any
    ensures Clean(flat[..FirstAnyAt(flat)])
  {
    var k := FirstAnyAt(flat);
    forall i | 0 <= i < k ensures Atomic(flat[..k][i]) {
      assert flat[..k][i] in flat[..k];
    }
  }

  lemma UnionOfUniq(flat: seq<Ty>, uniq: seq<Ty>, quote: string -> string)
    requires Clean(flat) && AllWellFormed(flat) && Distinct(uniq) && |uniq| >= 2 && Covered(flat, uniq)
      && From(uniq, flat)
    ensures NormalOf(Union(SortByName(uniq, quote)), flat, quote)
  {
    hide Show, Equal, Among, Distinct, Ascending, SortByName;
    var ms := SortByName(uniq, quote);
    SortKeeps(uniq, quote);
    SortDistinct(uniq, quote);
    SameElements(ms, uniq);
    forall i | 0 <= i < |ms| ensures Atomic(ms[i]) && WellFormed(ms[i]) && ms[i] in flat {
      var k :| 0 <= k < |uniq| && uniq[k] == ms[i];
      var a :| 0 <= a < |flat| && flat[a] == uniq[k];
    }
    FlattenAtoms(ms);
    CoveredSame(flat, uniq, ms);
  }

  lemma SameElements(ms: seq<Ty>, us: seq<Ty>)
    requires multiset(ms) == multiset(us)
    ensures From(ms, us) && From(us, ms)
  {
    forall i | 0 <= i < |ms| ensures ms[i] in us {
      assert ms[i] in multiset(ms);
    }
    forall i | 0 <= i < |us| ensures us[i] in ms {
      assert us[i] in multiset(us);
    }
  }

  lemma CoveredSame(flat: seq<Ty>, us: seq<Ty>, ms: seq<Ty>)
    requires Covered(flat, us) && From(us, ms)
    ensures Covered(flat, ms)
  {
    hide Equal;
    forall i | 0 <= i < |flat| ensures Among(flat[i], ms) {
      assert Among(flat[i], us);
      var j :| 0 <= j < |us| && Equal(flat[i], us[j]);
      var k :| 0 <= k < |ms| && ms[k] == us[j];
    }
  }

  // One normal form for one set of members.

  predicate Named(ts: seq<Ty>, quote: string -> string) {
    forall i, j :: 0 <= i < |ts| && 0 <= j < |ts| && Show(ts[i], quote) == Show(ts[j], quote) ==> Equal(ts[i], ts[j])
  }

  predicate Canonical(us: seq<Ty>, quote: string -> string) {
    Ascending(us, quote) && Distinct(us) && Named(us, quote)
  }

  lemma TailCanonical(us: seq<Ty>, quote: string -> string)
    requires us != [] && Canonical(us, quote)
    ensures Canonical(us[1..], quote)
  {
    hide Show, StringLess, Equal;
    assert forall i :: 0 <= i < |us[1..]| ==> us[1..][i] == us[i + 1];
  }

  /** Strictly sorted lists with the same members are equal member by member. */
  lemma {:induction false} SortedOnce(us: seq<Ty>, vs: seq<Ty>, quote: string -> string)
    requires Canonical(us, quote) && Canonical(vs, quote) && Covered(us, vs) && Covered(vs, us)
    ensures EqualAll(us, vs)
    decreases us
  {
    hide Equal, Canonical, Among;
    if us == [] {
      if vs != [] {
        assert Among(vs[0], us);
        NotAmongNone(vs[0]);
      }
    } else {
      HeadsEqual(us, vs, quote);
      EqualSym(us[0], vs[0]);
      TailsCovered(us, vs, quote);
      TailsCovered(vs, us, quote);
      TailCanonical(us, quote);
      TailCanonical(vs, quote);
      SortedOnce(us[1..], vs[1..], quote);
      assert forall i :: 1 <= i < |us| ==> us[i] == us[1..][i - 1] && vs[i] == vs[1..][i - 1];
    }
  }

  lemma NotAmongNone(t: Ty)
    ensures !Among(t, [])
  {
  }

  lemma LowestFirst(us: seq<Ty>, j: nat, quote: string -> string)
    requires j < |us| && Ascending(us, quote)
    ensures !StringLess(Show(us[j], quote), Show(us[0], quote))
  {
    hide Show;
    StringLessTotal(Show(us[0], quote), Show(us[0], quote));
  }

  lemma NamedAt(us: seq<Ty>, i: nat, j: nat, quote: string -> string)
    requires Named(us, quote) && i < |us| && j < |us| && Show(us[i], quote) == Show(us[j], quote)
    ensures Equal(us[i], us[j])
  {
  }

  lemma HeadsEqual(us: seq<Ty>, vs: seq<Ty>, quote: string -> string)
    requires us != [] && Canonical(us, quote) && Canonical(vs, quote) && Covered(us, vs) && Covered(vs, us)
    ensures vs != [] && Equal(us[0], vs[0])
  {
    hide Show, StringLess, Equal, Ascending, Distinct, Named;
    assert Among(us[0], vs);
    var k :| 0 <= k < |vs| && Equal(us[0], vs[k]);
    assert Among(vs[0], us);
    var j :| 0 <= j < |us| && Equal(vs[0], us[j]);
    EqualShow(us[0], vs[k], quote);
    EqualShow(vs[0], us[j], quote);
    StringLessTotal(Show(us[0], quote), Show(vs[0], quote));
    LowestFirst(vs, k, quote);
    LowestFirst(us, j, quote);
    NamedAt(vs, k, 0, quote);
    EqualTrans(us[0], vs[k], vs[0]);
  }

  lemma TailsCovered(us: seq<Ty>, vs: seq<Ty>, quote: string -> string)
    requires us != [] && vs != [] && Equal(us[0], vs[0]) && Covered(us, vs) && Canonical(us, quote)
    ensures Covered(us[1..], vs[1..])
  {
    hide Show, StringLess, Equal, Ascending, Named;
    forall i | 0 <= i < |us[1..]| ensures Among(us[1..][i], vs[1..]) {
      var t := us[i + 1];
      assert Among(t, vs);
      var k :| 0 <= k < |vs| && Equal(t, vs[k]);
      if k == 0 {
        EqualSym(t, vs[0]);
        EqualTrans(us[0], vs[0], t);
        assert false;
      }
      assert vs[1..][k - 1] == vs[k];
    }
  }

  /** `NewUnion` depends only on which members there are, not on their order,
      grouping or repetition, when no member is `Invalid` and distinct members
      print differently. */
  lemma SameMembersSameUnion(ms: seq<Ty>, ns: seq<Ty>, quote: string -> string)
    requires AllWellFormed(ms) && AllWellFormed(ns) && Flatten(ms) != [] && Flatten(ns) != []
    requires Covered(Flatten(ms), Flatten(ns)) && Covered(Flatten(ns), Flatten(ms))
    requires Named(Flatten(ms), quote) && Named(Flatten(ns), quote)
    ensures Equal(NewUnion(ms, quote), NewUnion(ns, quote))
  {
    hide Show, Equal, NewUnion, Flatten, Parts, Covered, Named, Ascending, Distinct, WellFormed, From, AllWellFormed,
         EqualAll, NormalOf;
    var f, g := Flatten(ms), Flatten(ns);
    UnionNormal(ms, quote);
    UnionNormal(ns, quote);
    if Any in f {
      AnyCovered(f, g);
      EqualRefl(Any);
    } else if Any in g {
      AnyCovered(g, f);
    } else {
      NormalOnce(NewUnion(ms, quote), NewUnion(ns, quote), f, g, quote);
    }
  }

  lemma NormalOnce(u: Ty, v: Ty, f: seq<Ty>, g: seq<Ty>, quote: string -> string)
    requires NormalOf(u, f, quote) && NormalOf(v, g, quote) && Covered(f, g) && Covered(g, f) && Named(f, quote)
      && Named(g, quote)
    ensures Equal(u, v)
  {
    hide Show, Equal, Parts, Covered, Named, Ascending, Distinct, WellFormed, From, EqualAll;
    NormalParts(u);
    NormalParts(v);
    NormalCovered(Parts(u), f, g, Parts(v));
    NormalCovered(Parts(v), g, f, Parts(u));
    NamedFewer(Parts(u), f, quote);
    NamedFewer(Parts(v), g, quote);
    SortedOnce(Parts(u), Parts(v), quote);
    PartsDecide(u, v);
  }

  lemma AnyCovered(f: seq<Ty>, g: seq<Ty>)
    requires Covered(f, g) && Any in f
    ensures Any in g
  {
    var i :| 0 <= i < |f| && f[i] == Any;
    assert Among(f[i], g);
  }

  lemma NormalParts(u: Ty)
    requires WellFormed(u)
    ensures Parts(u) == (if u.Union? then u.members else [u]) && Distinct(Parts(u))
  {
    PartsWellFormed(u);
  }

  lemma NormalCovered(us: seq<Ty>, f: seq<Ty>, g: seq<Ty>, vs: seq<Ty>)
    requires From(us, f) && Covered(f, g) && Covered(g, vs)
    ensures Covered(us, vs)
  {
    hide Equal;
    forall i | 0 <= i < |us| ensures Among(us[i], vs) {
      var a :| 0 <= a < |f| && f[a] == us[i];
      assert Among(f[a], g);
      var b :| 0 <= b < |g| && Equal(f[a], g[b]);
      assert Among(g[b], vs);
      var c :| 0 <= c < |vs| && Equal(g[b], vs[c]);
      EqualTrans(us[i], g[b], vs[c]);
    }
  }

  lemma NamedFewer(us: seq<Ty>, f: seq<Ty>, quote: string -> string)
    requires Named(f, quote) && From(us, f)
    ensures Named(us, quote)
  {
    hide Equal, Show;
    forall i, j | 0 <= i < |us| && 0 <= j < |us| && Show(us[i], quote) == Show(us[j], quote)
        ensures Equal(us[i], us[j]) {
      var a :| 0 <= a < |f| && f[a] == us[i];
      var b :| 0 <= b < |f| && f[b] == us[j];
    }
  }

  lemma PartsDecide(u: Ty, v: Ty)
    requires WellFormed(u) && WellFormed(v)
      && EqualAll(if u.Union? then u.members else [u], if v.Union? then v.members else [v])
    ensures Equal(u, v)
  {
    if !u.Union? {
      assert Equal([u][0], [v][0]);
    }
  }

  // When the order of the members does not matter.

  /** What the checker hands to `NewUnion`: well-formed types, and `Invalid` after
      an error. */
  predicate AllMembers(ms: seq<Ty>) {
    forall i :: 0 <= i < |ms| ==> WellFormed(ms[i]) || ms[i] == Invalid
  }

  /** The same members, in some other order, grouping or number. */
  predicate SameMembers(ms: seq<Ty>, ns: seq<Ty>) {
    AllMembers(ns) && Covered(Flatten(ms), Flatten(ns)) && Covered(Flatten(ns), Flatten(ms))
  }

  /** `NewUnion` depends on which members there are alone, exactly when not both
      `Any` and `Invalid` are among them and, in the absence of both, different
      members print differently. */
  lemma UnionOrderFree(ms: seq<Ty>, quote: string -> string)
    requires AllMembers(ms) && Flatten(ms) != []
    ensures var f := Flatten(ms);
      (forall ns :: SameMembers(ms, ns) ==> Equal(NewUnion(ms, quote), NewUnion(ns, quote))) <==>
      if Any in f || Invalid in f then !(Any in f && Invalid in f) else Named(f, quote)
  {
    hide Show, Equal, NewUnion, Flatten, SameMembers, Named, WellFormed;
    var f := Flatten(ms);
    if if Any in f || Invalid in f then !(Any in f && Invalid in f) else Named(f, quote) {
      forall ns | SameMembers(ms, ns) ensures Equal(NewUnion(ms, quote), NewUnion(ns, quote)) {
        OrderDoesNotDecide(ms, ns, quote);
      }
    } else {
      var x, y := OrderDecides(ms, quote);
      if Equal(NewUnion(ms, quote), NewUnion(x, quote)) && Equal(NewUnion(ms, quote), NewUnion(y, quote)) {
        EqualSym(NewUnion(ms, quote), NewUnion(x, quote));
        EqualTrans(NewUnion(x, quote), NewUnion(ms, quote), NewUnion(y, quote));
      }
    }
  }

  lemma OrderDoesNotDecide(ms: seq<Ty>, ns: seq<Ty>, quote: string -> string)
    requires AllMembers(ms) && Flatten(ms) != [] && SameMembers(ms, ns)
    requires var f := Flatten(ms); if Any in f || Invalid in f then !(Any in f && Invalid in f) else Named(f, quote)
    ensures Equal(NewUnion(ms, quote), NewUnion(ns, quote))
  {
    hide Show, Equal, NewUnion, Flatten, Covered, Named, WellFormed;
    var f, g := Flatten(ms), Flatten(ns);
    PrimitiveCovered(f, g, PAny);
    PrimitiveCovered(g, f, PAny);
    PrimitiveCovered(f, g, PInvalid);
    PrimitiveCovered(g, f, PInvalid);
    if Any in f || Invalid in f {
      StopDecides(ms, quote);
      StopDecides(ns, quote);
      EqualRefl(NewUnion(ms, quote));
    } else {
      NoneInvalid(ms);
      NoneInvalid(ns);
      CoveredSome(f, g);
      NamedSame(f, g, quote);
      SameMembersSameUnion(ms, ns, quote);
    }
  }

  lemma CoveredSome(f: seq<Ty>, g: seq<Ty>)
    requires f != [] && Covered(f, g)
    ensures g != []
  {
    assert Among(f[0], g);
  }

  lemma PrimitiveCovered(f: seq<Ty>, g: seq<Ty>, p: Primitive)
    requires Covered(f, g)
    ensures Prim(p) in f ==> Prim(p) in g
  {
    forall i | 0 <= i < |f| && f[i] == Prim(p) ensures Prim(p) in g {
      assert Among(f[i], g);
    }
  }

  lemma {:induction false} NoneInvalid(ms: seq<Ty>)
    requires AllMembers(ms) && Invalid !in Flatten(ms)
    ensures AllWellFormed(ms)
    decreases ms
  {
    if ms != [] {
      assert Parts(Invalid)[0] == Invalid;
      assert Parts(ms[0]) + Flatten(ms[1..]) == Flatten(ms);
      NoneInvalid(ms[1..]);
    }
  }

  /** The flattened members are atomic, `Any` or `Invalid`. */
  lemma {:induction false} FlattenKinds(ms: seq<Ty>)
    requires AllMembers(ms)
    ensures forall i :: 0 <= i < |Flatten(ms)| ==>
      Atomic(Flatten(ms)[i]) || Flatten(ms)[i] == Any || Flatten(ms)[i] == Invalid
    decreases ms
  {
    if ms != [] {
      if ms[0] != Invalid {
        PartsWellFormed(ms[0]);
      }
      FlattenKinds(ms[1..]);
    }
  }

  /** With one of `Any` and `Invalid` among the members, that one decides. */
  lemma StopDecides(ms: seq<Ty>, quote: string -> string)
    requires AllMembers(ms) && var f := Flatten(ms); (Any in f) != (Invalid in f)
    ensures NewUnion(ms, quote) == if Any in Flatten(ms) then Any else Invalid
  {
    hide Flatten, Equal, Show, Scan;
    FlattenKinds(ms);
    FirstStop(Flatten(ms));
  }

  lemma {:induction false} FirstStop(flat: seq<Ty>)
    requires forall i :: 0 <= i < |flat| ==> Atomic(flat[i]) || flat[i] == Any || flat[i] == Invalid
    requires (Any in flat) != (Invalid in flat)
    ensures Scan(flat, []) == if Any in flat then Absorbed else Poisoned
  {
    var stop := if Any in flat then Any else Invalid;
    var k :| 0 <= k < |flat| && flat[k] == stop;
    k := Earliest(flat, stop, k);
    forall i | 0 <= i < k ensures Atomic(flat[..k][i]) {
      assert flat[i] in flat && flat[i] != stop;
    }
    ScanStops(flat, [], k);
  }

  lemma {:induction false} Earliest(flat: seq<Ty>, t: Ty, k: nat) returns (e: nat)
    requires k < |flat| && flat[k] == t
    ensures e <= k && flat[e] == t && forall i :: 0 <= i < e ==> flat[i] != t
  {
    e := 0;
    while flat[e] != t
      invariant e <= k && forall i :: 0 <= i < e ==> flat[i] != t
      decreases k - e
    {
      e := e + 1;
    }
  }

  /** Members with the same printed names in both. */
  lemma NamedSame(f: seq<Ty>, g: seq<Ty>, quote: string -> string)
    requires Named(f, quote) && Covered(g, f)
    ensures Named(g, quote)
  {
    hide Show, Equal;
    forall i, j | 0 <= i < |g| && 0 <= j < |g| && Show(g[i], quote) == Show(g[j], quote) ensures Equal(g[i], g[j]) {
      assert Among(g[i], f) && Among(g[j], f);
      var a :| 0 <= a < |f| && Equal(g[i], f[a]);
      var b :| 0 <= b < |f| && Equal(g[j], f[b]);
      EqualShow(g[i], f[a], quote);
      EqualShow(g[j], f[b], quote);
      EqualTrans(g[i], f[a], f[b]);
      EqualSym(g[j], f[b]);
      EqualTrans(g[i], f[b], g[j]);
    }
  }

  /** Otherwise two orders of the same members give different types. */
  lemma OrderDecides(ms: seq<Ty>, quote: string -> string) returns (x: seq<Ty>, y: seq<Ty>)
    requires AllMembers(ms) && Flatten(ms) != []
    requires var f := Flatten(ms); if Any in f || Invalid in f then Any in f && Invalid in f else !Named(f, quote)
    ensures SameMembers(ms, x) && SameMembers(ms, y) && !Equal(NewUnion(x, quote), NewUnion(y, quote))
  {
    hide Show, Equal, NewUnion, Flatten, Covered;
    var f := Flatten(ms);
    if Any in f {
      x, y := [Any] + ms, [Invalid] + ms;
      InFront(ms, Any);
      InFront(ms, Invalid);
      FrontDecides(ms, quote);
    } else {
      var i, j :| 0 <= i < |f| && 0 <= j < |f| && Show(f[i], quote) == Show(f[j], quote) && !Equal(f[i], f[j]);
      NoneInvalid(ms);
      FlattenWellFormed(ms);
      x, y := [f[i]] + ([f[j]] + ms), [f[j]] + ([f[i]] + ms);
      InFront(ms, f[j]);
      InFront(ms, f[i]);
      InFrontAgain(ms, [f[j]] + ms, f[i]);
      InFrontAgain(ms, [f[i]] + ms, f[j]);
      AlikeDecide(ms, f[i], f[j], quote);
    }
  }

  /** Repeating a member in front leaves the members the same. */
  lemma InFront(ms: seq<Ty>, t: Ty)
    requires AllMembers(ms) && t in Flatten(ms) && !t.Union? && (WellFormed(t) || t == Invalid)
    ensures SameMembers(ms, [t] + ms) && Flatten([t] + ms) == [t] + Flatten(ms)
  {
    SelfCovered(Flatten(ms), Flatten(ms));
    InFrontAgain(ms, ms, t);
  }

  lemma InFrontAgain(ms: seq<Ty>, ns: seq<Ty>, t: Ty)
    requires SameMembers(ms, ns) && t in Flatten(ms) && !t.Union? && (WellFormed(t) || t == Invalid)
    ensures SameMembers(ms, [t] + ns) && Flatten([t] + ns) == [t] + Flatten(ns)
  {
    hide Equal, WellFormed, Flatten, Covered, Parts;
    FrontFlat(ns, t);
    CoveredFront(Flatten(ms), Flatten(ns), t);
  }

  lemma FrontFlat(ns: seq<Ty>, t: Ty)
    requires !t.Union?
    ensures Flatten([t] + ns) == [t] + Flatten(ns)
  {
    assert ([t] + ns)[1..] == ns;
    assert Parts(t) == [t];
  }

  lemma CoveredFront(f: seq<Ty>, g: seq<Ty>, t: Ty)
    requires Covered(f, g) && Covered(g, f) && t in f
    ensures Covered(f, [t] + g) && Covered([t] + g, f)
  {
    hide Equal;
    var h := [t] + g;
    forall i | 0 <= i < |f| ensures Among(f[i], h) {
      assert Among(f[i], g);
      var k :| 0 <= k < |g| && Equal(f[i], g[k]);
      assert h[k + 1] == g[k];
    }
    forall i | 0 <= i < |h| ensures Among(h[i], f) {
      if i == 0 {
        var k :| 0 <= k < |f| && f[k] == t;
        EqualRefl(t);
      } else {
        assert h[i] == g[i - 1];
      }
    }
  }

  lemma FrontDecides(ms: seq<Ty>, quote: string -> string)
    requires Flatten([Any] + ms) == [Any] + Flatten(ms) && Flatten([Invalid] + ms) == [Invalid] + Flatten(ms)
    ensures NewUnion([Any] + ms, quote) == Any && NewUnion([Invalid] + ms, quote) == Invalid && !Equal(Any, Invalid)
  {
    hide Show, Flatten;
    ScanStops([Any] + Flatten(ms), [], 0);
    ScanStops([Invalid] + Flatten(ms), [], 0);
  }

  lemma AnyAndInvalidDoNotCommute(quote: string -> string)
    ensures NewUnion([Any, Invalid], quote) == Any && NewUnion([Invalid, Any], quote) == Invalid
  {
    FlattenAtoms([Any, Invalid]);
    FlattenAtoms([Invalid, Any]);
    ScanStops([Any, Invalid], [], 0);
    ScanStops([Invalid, Any], [], 0);
  }

  /** Different members of one name keep the order they come in. */
  lemma AlikeDecide(ms: seq<Ty>, a: Ty, b: Ty, quote: string -> string)
    requires Clean(Flatten(ms)) && Atomic(a) && Atomic(b) && !Equal(a, b) && Show(a, quote) == Show(b, quote)
    requires Flatten([a] + ([b] + ms)) == [a] + ([b] + Flatten(ms))
    requires Flatten([b] + ([a] + ms)) == [b] + ([a] + Flatten(ms))
    ensures !Equal(NewUnion([a] + ([b] + ms), quote), NewUnion([b] + ([a] + ms), quote))
  {
    hide Show, Equal, Flatten, SortByName;
    if Equal(b, a) { EqualSym(b, a); }
    var us := ScanPair(Flatten(ms), a, b);
    var vs := ScanPair(Flatten(ms), b, a);
    SortDistinct(us, quote);
    SortDistinct(vs, quote);
    SortKeeps(us, quote);
    SortKeeps(vs, quote);
    SortStable(us, 0, 1, quote);
    SortStable(vs, 0, 1, quote);
    var s, t := SortByName(us, quote), SortByName(vs, quote);
    OppositeOrders(s, t, a, b);
    UnionsDiffer(s, t);
  }

  lemma ScanPair(flat: seq<Ty>, a: Ty, b: Ty) returns (us: seq<Ty>)
    requires Clean(flat) && Atomic(a) && Atomic(b) && !Equal(a, b) && !Equal(b, a)
    ensures Scan([a] + ([b] + flat), []) == Kept(us) && |us| >= 2 && us[0] == a && us[1] == b && Distinct(us)
  {
    hide Equal;
    OnlyAny(a);
    OnlyAny(b);
    assert ([a] + ([b] + flat))[1..] == [b] + flat && ([b] + flat)[1..] == flat;
    assert [] + [a] == [a] && [a] + [b] == [a, b];
    assert !Among(a, []) && !Among(b, [a]);
    assert Scan([a] + ([b] + flat), []) == Scan([b] + flat, [a]) == Scan(flat, [a, b]);
    ScanKeeps(flat, [a, b]);
    us := Scan(flat, [a, b]).uniq;
  }

  /** `x` stands before `y`. */
  predicate InOrder(ts: seq<Ty>, x: Ty, y: Ty) {
    exists p, q :: 0 <= p < q < |ts| && ts[p] == x && ts[q] == y
  }

  lemma StillIn(t: Ty, ts: seq<Ty>, x: Ty, quote: string -> string) returns (k: nat)
    requires x in ts || x == t
    ensures k < |Insert(t, ts, quote)| && Insert(t, ts, quote)[k] == x
  {
    hide Show, StringLess, Insert;
    var r := Insert(t, ts, quote);
    InsertMultiset(t, ts, quote);
    assert x in multiset(ts) + multiset{t};
    assert x in multiset(r);
    k :| 0 <= k < |r| && r[k] == x;
  }

  lemma {:induction false} InsertKeepsOrder(t: Ty, ts: seq<Ty>, x: Ty, y: Ty, quote: string -> string)
    requires InOrder(ts, x, y)
    ensures InOrder(Insert(t, ts, quote), x, y)
    decreases ts
  {
    hide Show, StringLess;
    var p, q :| 0 <= p < q < |ts| && ts[p] == x && ts[q] == y;
    var tail := ts[1..];
    if StringLess(Show(t, quote), Show(ts[0], quote)) {
      BothLater([t], ts, x, y);
    } else if p == 0 {
      assert tail[q - 1] == y;
      var k := StillIn(t, tail, y, quote);
      FirstAndLater(x, Insert(t, tail, quote), y, k);
    } else {
      assert tail[p - 1] == x && tail[q - 1] == y;
      InsertKeepsOrder(t, tail, x, y, quote);
      BothLater([ts[0]], Insert(t, tail, quote), x, y);
    }
  }

  lemma BothLater(front: seq<Ty>, ts: seq<Ty>, x: Ty, y: Ty)
    requires InOrder(ts, x, y)
    ensures InOrder(front + ts, x, y)
  {
    var p, q :| 0 <= p < q < |ts| && ts[p] == x && ts[q] == y;
    var r := front + ts;
    assert r[|front| + p] == x && r[|front| + q] == y;
  }

  lemma FirstAndLater(x: Ty, ts: seq<Ty>, y: Ty, k: nat)
    requires k < |ts| && ts[k] == y
    ensures InOrder([x] + ts, x, y)
  {
    var r := [x] + ts;
    assert r[0] == x && r[k + 1] == y;
  }

  /** A member goes behind those of its own name. */
  lemma {:induction false} InsertBehind(t: Ty, ts: seq<Ty>, x: Ty, quote: string -> string)
    requires Ascending(ts, quote) && x in ts && Show(x, quote) == Show(t, quote)
    ensures InOrder(Insert(t, ts, quote), x, t)
    decreases ts
  {
    hide Show, StringLess;
    var k :| 0 <= k < |ts| && ts[k] == x;
    StringLessTotal(Show(t, quote), Show(t, quote));
    assert !StringLess(Show(t, quote), Show(ts[0], quote));
    var tail := ts[1..];
    if k == 0 {
      var m := StillIn(t, tail, t, quote);
      FirstAndLater(x, Insert(t, tail, quote), t, m);
    } else {
      assert tail[k - 1] == x && forall i :: 0 <= i < |tail| ==> tail[i] == ts[i + 1];
      InsertBehind(t, tail, x, quote);
      BothLater([ts[0]], Insert(t, tail, quote), x, t);
    }
  }

  /** Sorting keeps the order of members of one name. */
  lemma {:induction false} SortStable(ts: seq<Ty>, a: nat, b: nat, quote: string -> string)
    requires a < b < |ts| && Show(ts[a], quote) == Show(ts[b], quote)
    ensures InOrder(SortByName(ts, quote), ts[a], ts[b])
    decreases ts
  {
    hide Show, Insert;
    var n := |ts| - 1;
    if b < n {
      SortStable(ts[..n], a, b, quote);
      InsertKeepsOrder(ts[n], SortByName(ts[..n], quote), ts[a], ts[b], quote);
    } else {
      SortKeeps(ts[..n], quote);
      assert ts[..n][a] in multiset(ts[..n]);
      assert ts[a] in multiset(SortByName(ts[..n], quote));
      InsertBehind(ts[n], SortByName(ts[..n], quote), ts[a], quote);
    }
  }

  lemma OppositeOrders(s: seq<Ty>, t: seq<Ty>, a: Ty, b: Ty)
    requires Distinct(s) && Distinct(t) && InOrder(s, a, b) && InOrder(t, b, a)
    ensures !EqualAll(s, t)
  {
    hide Equal;
    var p, q :| 0 <= p < q < |s| && s[p] == a && s[q] == b;
    var m, n :| 0 <= m < n < |t| && t[m] == b && t[n] == a;
    SameSpot(s, t, p, n);
    SameSpot(s, t, q, m);
  }

  lemma SameSpot(s: seq<Ty>, t: seq<Ty>, p: nat, n: nat)
    requires Distinct(t) && p < |s| && n < |t| && s[p] == t[n]
    ensures EqualAll(s, t) ==> p == n
  {
    hide Equal;
    if EqualAll(s, t) {
      EqualSym(s[p], t[p]);
    }
  }

  lemma UnionsDiffer(s: seq<Ty>, t: seq<Ty>)
    requires !EqualAll(s, t)
    ensures !Equal(Union(s), Union(t))
  {
  }

  /** A class that prints like a primitive type: which one comes first decides. */
  lemma AlikeNamesDoNotCommute(quote: string -> string)
    ensures var c := Class("int", []);
      NewUnion([Int, c], quote) == Union([Int, c]) && NewUnion([c, Int], quote) == Union([c, Int]) &&
      !Equal(Union([Int, c]), Union([c, Int]))
  {
    var c := Class("int", []);
    assert Show(Int, quote) == Show(c, quote) == "int";
    StringLessTotal("int", "int");
    FlattenAtoms([Int, c]);
    FlattenAtoms([c, Int]);
    TwoOfOneName(Int, c, quote);
    TwoOfOneName(c, Int, quote);
    assert !Equal([Int, c][0], [c, Int][0]);
  }

  lemma TwoOfOneName(a: Ty, b: Ty, quote: string -> string)
    requires Atomic(a) && Atomic(b) && !Equal(a, b) && !Equal(b, a) && Show(a, quote) == Show(b, quote)
    ensures NewUnion([a, b], quote) == Union([a, b])
  {
    hide Show, Equal, Scan, SortByName, Flatten, StringLess, Among, Parts;
    var s := [a, b];
    FlattenAtoms(s);
    assert [] + s == s;
    ScanDistinct([], s);
    AlikeAscending(s, quote);
    SortSorted(s, quote);
  }

  lemma AlikeAscending(s: seq<Ty>, quote: string -> string)
    requires |s| == 2 && Show(s[0], quote) == Show(s[1], quote)
    ensures Ascending(s, quote)
  {
    hide Show, StringLess;
    StringLessTotal(Show(s[0], quote), Show(s[1], quote));
  }

  // Normalising twice.

  /** Distinct members are all kept, in order. */
  lemma {:induction false} ScanDistinct(uniq: seq<Ty>, flat: seq<Ty>)
    requires Clean(flat) && Distinct(uniq + flat)
    ensures Scan(flat, uniq) == Kept(uniq + flat)
    decreases flat
  {
    hide Equal;
    if flat == [] {
      assert uniq + flat == uniq;
    } else {
      var all := uniq + flat;
      OnlyAny(flat[0]);
      forall i | 0 <= i < |uniq| ensures !Equal(flat[0], uniq[i]) {
        assert all[i] == uniq[i] && all[|uniq|] == flat[0];
        if Equal(flat[0], uniq[i]) { EqualSym(flat[0], uniq[i]); }
      }
      assert (uniq + [flat[0]]) + flat[1..] == all;
      ScanDistinct(uniq + [flat[0]], flat[1..]);
    }
  }

  lemma {:induction false} InsertLast(t: Ty, ts: seq<Ty>, quote: string -> string)
    requires forall i :: 0 <= i < |ts| ==> !StringLess(Show(t, quote), Show(ts[i], quote))
    ensures Insert(t, ts, quote) == ts + [t]
    decreases ts
  {
    hide Show, StringLess;
    if ts != [] {
      InsertLast(t, ts[1..], quote);
      assert [ts[0]] + (ts[1..] + [t]) == ts + [t];
    }
  }

  lemma {:induction false} SortSorted(ts: seq<Ty>, quote: string -> string)
    requires Ascending(ts, quote)
    ensures SortByName(ts, quote) == ts
    decreases ts
  {
    hide Show, StringLess, Insert;
    if ts != [] {
      var n := |ts| - 1;
      SortSorted(ts[..n], quote);
      InsertLast(ts[n], ts[..n], quote);
      assert ts[..n] + [ts[n]] == ts;
    }
  }

  lemma {:induction false} FlattenNoUnion(ms: seq<Ty>)
    ensures forall i :: 0 <= i < |Flatten(ms)| ==> !Flatten(ms)[i].Union?
    decreases ms
  {
    if ms != [] {
      if ms[0].Union? {
        FlattenNoUnion(ms[0].members);
      }
      FlattenNoUnion(ms[1..]);
      assert forall i :: 0 <= i < |Parts(ms[0])| ==> !Parts(ms[0])[i].Union?;
      assert Flatten(ms) == Parts(ms[0]) + Flatten(ms[1..]);
    }
  }

  /** Normalising twice is normalising once, for any members. */
  lemma NewUnionIdempotent(ms: seq<Ty>, quote: string -> string)
    ensures NewUnion([NewUnion(ms, quote)], quote) == NewUnion(ms, quote)
  {
    hide Show, Equal, Flatten, Scan, SortByName;
    var f := Flatten(ms);
    FlattenNoUnion(ms);
    AtomAlone(Any, quote);
    AtomAlone(Invalid, quote);
    if Scan(f, []).Kept? {
      var uniq := Scan(f, []).uniq;
      NothingTwice();
      KeptClean(f, []);
      if |uniq| == 1 {
        AtomAlone(uniq[0], quote);
      } else if |uniq| >= 2 {
        var s := SortByName(uniq, quote);
        SortKeeps(uniq, quote);
        SortDistinct(uniq, quote);
        SameElements(s, uniq);
        CleanSame(s, uniq);
        UnionAlone(s, quote);
      }
    }
  }

  lemma CleanSame(s: seq<Ty>, us: seq<Ty>)
    requires From(s, us) && Clean(us)
    ensures Clean(s)
  {
    forall i | 0 <= i < |s| ensures Atomic(s[i]) {
      var k :| 0 <= k < |us| && us[k] == s[i];
    }
  }

  lemma AtomAlone(t: Ty, quote: string -> string)
    requires !t.Union?
    ensures NewUnion([t], quote) == t
  {
    hide Show;
    FlattenAtoms([t]);
    OnlyAny(t);
    assert !Among(t, []);
    assert [t][1..] == [] && [] + [t] == [t];
    assert t != Invalid && t != Any ==> Scan([t], []) == Scan([], [t]);
  }

  lemma AloneFlat(s: seq<Ty>)
    requires Clean(s)
    ensures Flatten([Union(s)]) == s
  {
    FlattenAtoms(s);
    assert [Union(s)][1..] == [];
    assert Parts(Union(s)) == s;
  }

  lemma UnionAlone(s: seq<Ty>, quote: string -> string)
    requires |s| >= 2 && Clean(s) && Distinct(s) && Ascending(s, quote)
    ensures NewUnion([Union(s)], quote) == Union(s)
  {
    hide Show, Equal, Scan, SortByName;
    AloneFlat(s);
    assert [] + s == s;
    ScanDistinct([], s);
    SortSorted(s, quote);
  }

  /** Whatever a scan keeps is free of `Any`, `Invalid` and repetition. */
  lemma {:induction false} KeptClean(flat: seq<Ty>, uniq: seq<Ty>)
    requires Scan(flat, uniq).Kept? && Clean(uniq) && Distinct(uniq)
    requires forall i :: 0 <= i < |flat| ==> !flat[i].Union?
    ensures Clean(Scan(flat, uniq).uniq) && Distinct(Scan(flat, uniq).uniq)
    decreases flat
  {
    hide Equal;
    if flat != [] {
      OnlyAny(flat[0]);
      ScanStep(flat[0], uniq);
      KeptClean(flat[1..], if Among(flat[0], uniq) then uniq else uniq + [flat[0]]);
    }
  }

  lemma AnyIsWellFormed()
    ensures WellFormed(Any) && Parts(Any) == [Any]
  {
  }

  lemma SelfCovered(f: seq<Ty>, us: seq<Ty>)
    requires From(us, f)
    ensures Covered(us, f)
  {
    forall i | 0 <= i < |us| ensures Among(us[i], f) {
      EqualRefl(us[i]);
      var a :| 0 <= a < |f| && f[a] == us[i];
    }
  }

  // Join.

  function Erase(t: Ty, quote: string -> string): Ty
    decreases t, 1
  {
    match t
    case Literal(b, _) => Erase(b, quote)
    case Union(ms) => NewUnion(EraseAll(ms, quote), quote)
    case _ => t
  }

  function EraseAll(ts: seq<Ty>, quote: string -> string): (r: seq<Ty>)
    ensures |r| == |ts| && forall i :: 0 <= i < |ts| ==> r[i] == Erase(ts[i], quote)
    decreases ts, 0
  {
    if ts == [] then [] else [Erase(ts[0], quote)] + EraseAll(ts[1..], quote)
  }

  function Join(a: Ty, b: Ty, quote: string -> string): Ty {
    if a == Invalid then b
    else if b == Invalid then a
    else if Equal(a, b) then a
    else if Equal(a, Any) || Equal(b, Any) then Any
    else
      var ea, eb := Erase(a, quote), Erase(b, quote);
      if (Equal(ea, Int) && Equal(eb, Float)) || (Equal(ea, Float) && Equal(eb, Int)) then Float
      else NewUnion([a, b], quote)
  }

  // Literals.

  function InsertValue(v: LiteralValue, vs: seq<LiteralValue>, quote: string -> string): seq<LiteralValue>
    decreases vs
  {
    if vs == [] then [v]
    else if StringLess(ShowValue(v, quote), ShowValue(vs[0], quote)) then [v] + vs
    else [vs[0]] + InsertValue(v, vs[1..], quote)
  }

  function SortValues(vs: seq<LiteralValue>, quote: string -> string): seq<LiteralValue>
    decreases vs
  {
    if vs == [] then [] else InsertValue(vs[|vs| - 1], SortValues(vs[..|vs| - 1], quote), quote)
  }

  function OnceEach(vs: seq<LiteralValue>, uniq: seq<LiteralValue>): seq<LiteralValue>
    decreases vs
  {
    if vs == [] then uniq else OnceEach(vs[1..], if vs[0] in uniq then uniq else uniq + [vs[0]])
  }

  function BasesInOrder(vs: seq<LiteralValue>): (r: seq<Ty>)
    ensures |r| == |vs|
  {
    seq(|vs|, i requires 0 <= i < |vs| => BaseOf(vs[i]))
  }

  function NewLiteral(vs: seq<LiteralValue>, quote: string -> string): Ty {
    if vs == [] then Invalid
    else
      var uniq := SortValues(OnceEach(vs, []), quote);
      Literal(NewUnion(BasesInOrder(uniq), quote), uniq)
  }

  lemma {:induction false} InsertValueMultiset(v: LiteralValue, vs: seq<LiteralValue>, quote: string -> string)
    ensures multiset(InsertValue(v, vs, quote)) == multiset(vs) + multiset{v}
    decreases vs
  {
    hide StringLess, ShowValue;
    if vs != [] {
      assert vs == [vs[0]] + vs[1..];
      InsertValueMultiset(v, vs[1..], quote);
    }
  }

  lemma {:induction false} SortValuesMultiset(vs: seq<LiteralValue>, quote: string -> string)
    ensures multiset(SortValues(vs, quote)) == multiset(vs)
    decreases vs
  {
    if vs != [] {
      var n := |vs| - 1;
      assert vs == vs[..n] + [vs[n]];
      SortValuesMultiset(vs[..n], quote);
      InsertValueMultiset(vs[n], SortValues(vs[..n], quote), quote);
    }
  }

  lemma {:induction false} OnceEachKeeps(vs: seq<LiteralValue>, uniq: seq<LiteralValue>)
    ensures forall v :: v in OnceEach(vs, uniq) <==> v in vs || v in uniq
    ensures (forall v :: multiset(uniq)[v] <= 1) ==> forall v :: multiset(OnceEach(vs, uniq))[v] <= 1
    decreases vs
  {
    if vs != [] {
      assert forall v :: v in vs <==> v == vs[0] || v in vs[1..];
      OnceEachKeeps(vs[1..], if vs[0] in uniq then uniq else uniq + [vs[0]]);
    }
  }

  /** The names of the literal bases, in the order `Bases` lists them. */
  lemma BaseNamesAscend(quote: string -> string)
    ensures StringLess(Show(Prim(PNone), quote), Show(Prim(PBool), quote))
      && StringLess(Show(Prim(PBool), quote), Show(Int, quote))
    ensures StringLess(Show(Int, quote), Show(Prim(PStr), quote))
  {
    assert "None"[0] < "bool"[0] < "int"[0] < "str"[0];
  }

  function Rank(t: Ty): nat {
    if t == Prim(PNone) then 0 else if t == Prim(PBool) then 1 else if t == Int then 2 else 3
  }

  lemma RankBefore(a: Ty, b: Ty, quote: string -> string)
    requires LiteralKind(a) && LiteralKind(b) && Rank(a) < Rank(b)
    ensures StringLess(Show(a, quote), Show(b, quote)) && !StringLess(Show(b, quote), Show(a, quote)) && !Equal(a, b)
  {
    BaseNamesAscend(quote);
    assert "None"[0] < "bool"[0] < "int"[0] < "str"[0];
    StringLessTotal(Show(a, quote), Show(b, quote));
  }

  lemma BasesAscend(vs: seq<LiteralValue>, quote: string -> string)
    ensures Ascending(Bases(vs), quote) && Distinct(Bases(vs))
  {
    hide Show, HasBase, StringLess, Equal;
    var bs := Bases(vs);
    forall i, j | 0 <= i < j < |bs|
        ensures !StringLess(Show(bs[j], quote), Show(bs[i], quote)) && !Equal(bs[i], bs[j]) {
      RankBefore(bs[i], bs[j], quote);
    }
  }

  /** The base a literal gets from `NewUnion` is the canonical one, so `NewLiteral`
      builds well-formed types of exactly the given values, each once. */
  lemma NewLiteralWellFormed(vs: seq<LiteralValue>, quote: string -> string)
    requires vs != []
    ensures NewLiteral(vs, quote).Literal? && WellFormed(NewLiteral(vs, quote))
    ensures forall v :: v in NewLiteral(vs, quote).values <==> v in vs
    ensures forall v :: multiset(NewLiteral(vs, quote).values)[v] <= 1
  {
    hide StringLess, Show, NewUnion, Bases, LiteralBase;
    var once := OnceEach(vs, []);
    OnceEachKeeps(vs, []);
    SortValuesMultiset(once, quote);
    var uniq := SortValues(once, quote);
    forall v ensures v in uniq <==> v in once {
      assert v in multiset(uniq) <==> v in multiset(once);
    }
    assert vs[0] in uniq;
    BaseCanonical(uniq, quote);
  }

  lemma BaseCanonical(vs: seq<LiteralValue>, quote: string -> string)
    requires vs != []
    ensures NewUnion(BasesInOrder(vs), quote) == LiteralBase(vs)
  {
    hide StringLess, Show, NewUnion, Bases, WellFormed, Ascending, Distinct, Covered, Named;
    var f := BasesInOrder(vs);
    FlattenAtoms(f);
    BasesPlain(f);
    UnionNormal(f, quote);
    BaseNormal(vs, quote);
    NamedBases(f, quote);
    ListCoversItself(f);
    NormalOnce(NewUnion(f, quote), LiteralBase(vs), f, f, quote);
    EqualBases(NewUnion(f, quote), LiteralBase(vs), f, quote);
  }

  lemma BasesPlain(f: seq<Ty>)
    requires forall i :: 0 <= i < |f| ==> LiteralKind(f[i])
    ensures AllWellFormed(f) && Any !in f
  {
  }

  lemma ListCoversItself(f: seq<Ty>)
    ensures Covered(f, f)
  {
    forall i | 0 <= i < |f| ensures Among(f[i], f) {
      EqualRefl(f[i]);
    }
  }

  lemma NamedBases(f: seq<Ty>, quote: string -> string)
    requires forall i :: 0 <= i < |f| ==> LiteralKind(f[i])
    ensures Named(f, quote)
  {
    assert "None"[0] != "bool"[0] && "None"[0] != "int"[0] && "None"[0] != "str"[0];
    assert "bool"[0] != "int"[0] && "bool"[0] != "str"[0] && "int"[0] != "str"[0];
  }

  lemma BaseNormal(vs: seq<LiteralValue>, quote: string -> string)
    requires vs != []
    ensures NormalOf(LiteralBase(vs), BasesInOrder(vs), quote)
  {
    hide StringLess, Show, Bases, HasBase, Ascending, Distinct, Equal;
    var f, bs := BasesInOrder(vs), Bases(vs);
    BasesAscend(vs, quote);
    forall i | 0 <= i < |f| ensures f[i] in bs {
      BasesAre(vs, f[i]);
      OwnBase(vs, i);
    }
    assert f[0] in bs;
    forall i | 0 <= i < |bs| ensures bs[i] in f && LiteralKind(bs[i]) {
      BasesAre(vs, bs[i]);
      KindOfBase(vs, bs[i]);
      BaseFrom(vs, bs[i]);
    }
    CoveredByBases(f, bs);
    if |bs| == 1 {
      assert bs == [bs[0]] && LiteralKind(bs[0]);
      OneNormalKind(f, bs[0], quote);
    } else {
      UnionNormalKinds(f, bs, quote);
    }
  }

  lemma CoveredByBases(f: seq<Ty>, bs: seq<Ty>)
    requires From(f, bs)
    ensures Covered(f, bs)
  {
    forall i | 0 <= i < |f| ensures Among(f[i], bs) {
      var k :| 0 <= k < |bs| && bs[k] == f[i];
      EqualRefl(f[i]);
    }
  }

  lemma OneNormalKind(f: seq<Ty>, t: Ty, quote: string -> string)
    requires LiteralKind(t) && t in f && Covered(f, [t])
    ensures NormalOf(t, f, quote)
  {
    hide Show, StringLess, Equal, Covered;
    assert Parts(t) == [t];
  }

  lemma UnionNormalKinds(f: seq<Ty>, bs: seq<Ty>, quote: string -> string)
    requires |bs| >= 2 && Covered(f, bs) && From(bs, f) && Ascending(bs, quote) && Distinct(bs)
      && forall i :: 0 <= i < |bs| ==> LiteralKind(bs[i])
    ensures NormalOf(Union(bs), f, quote)
  {
    hide Show, StringLess, Equal, Covered, Ascending, Distinct;
    FlattenAtoms(bs);
    assert Parts(Union(bs)) == bs;
    forall i | 0 <= i < |bs| ensures Atomic(bs[i]) && WellFormed(bs[i]) && !bs[i].Literal? {
      assert LiteralKind(bs[i]);
    }
  }

  lemma OwnBase(vs: seq<LiteralValue>, i: nat)
    requires i < |vs|
    ensures HasBase(vs, BaseOf(vs[i]))
  {
  }

  lemma BaseFrom(vs: seq<LiteralValue>, t: Ty)
    requires HasBase(vs, t)
    ensures t in BasesInOrder(vs)
  {
    var j :| 0 <= j < |vs| && BaseOf(vs[j]) == t;
    assert BasesInOrder(vs)[j] == t;
  }

  /** Types made of primitives are identical when they are equal. */
  lemma EqualBases(u: Ty, v: Ty, f: seq<Ty>, quote: string -> string)
    requires Equal(u, v) && NormalOf(u, f, quote) && NormalOf(v, f, quote)
      && forall i :: 0 <= i < |f| ==> LiteralKind(f[i])
    ensures u == v
  {
    hide StringLess, Show, WellFormed, Ascending, Covered;
    NormalParts(u);
    NormalParts(v);
    forall i | 0 <= i < |Parts(u)| ensures LiteralKind(Parts(u)[i]) {
      assert Parts(u)[i] in f;
    }
    forall i | 0 <= i < |Parts(v)| ensures LiteralKind(Parts(v)[i]) {
      assert Parts(v)[i] in f;
    }
    if u.Union? {
      assert EqualAll(u.members, v.members);
      forall i | 0 <= i < |u.members| ensures u.members[i] == v.members[i] {
        assert Equal(u.members[i], v.members[i]);
        assert LiteralKind(Parts(u)[i]) && LiteralKind(Parts(v)[i]);
      }
    } else {
      assert Parts(u)[0] == u && Parts(v)[0] == v;
    }
  }

  // The loops of the constructors and of the inference.

  method CollectMembers(members: seq<Ty>, flat0: seq<Ty>) returns (flat: seq<Ty>)
    ensures flat == flat0 + Flatten(members)
    decreases members
  {
    flat := flat0;
    for i := 0 to |members|
      invariant flat + Flatten(members[i..]) == flat0 + Flatten(members)
    {
      assert members[i..][1..] == members[i + 1..];
      ghost var before := flat;
      if members[i].Union? {
        flat := CollectMembers(members[i].members, flat);
      } else {
        flat := flat + [members[i]];
      }
      assert before + (Parts(members[i]) + Flatten(members[i + 1..])) == flat + Flatten(members[i + 1..]);
    }
  }

  method IsAmong(t: Ty, ts: seq<Ty>) returns (dup: bool)
    ensures dup == Among(t, ts)
  {
    dup := false;
    for i := 0 to |ts|
      invariant forall j :: 0 <= j < i ==> !Equal(t, ts[j])
    {
      if Equal(t, ts[i]) {
        return true;
      }
    }
  }

  method BuildUnion(members: seq<Ty>, quote: string -> string) returns (r: Ty)
    ensures r == NewUnion(members, quote)
  {
    hide Show;
    var flat := CollectMembers(members, []);
    assert flat == Flatten(members);
    var uniq: seq<Ty> := [];
    for i := 0 to |flat|
      invariant Scan(flat[i..], uniq) == Scan(flat, [])
    {
      var m := flat[i];
      assert flat[i..][1..] == flat[i + 1..];
      if m == Invalid {
        return Invalid;
      }
      if Equal(m, Any) {
        return Any;
      }
      var dup := IsAmong(m, uniq);
      if !dup {
        uniq := uniq + [m];
      }
    }
    if |uniq| == 0 {
      return Invalid;
    }
    if |uniq| == 1 {
      return uniq[0];
    }
    r := Union(SortByName(uniq, quote));
  }

  method BuildLiteral(values: seq<LiteralValue>, quote: string -> string) returns (r: Ty)
    ensures r == NewLiteral(values, quote)
  {
    hide Show, ShowValue, NewUnion;
    if |values| == 0 {
      return Invalid;
    }
    var uniq: seq<LiteralValue> := [];
    for i := 0 to |values|
      invariant OnceEach(values[i..], uniq) == OnceEach(values, [])
    {
      assert values[i..][1..] == values[i + 1..];
      var dup := false;
      for j := 0 to |uniq|
        invariant dup <==> values[i] in uniq[..j]
      {
        assert uniq[..j + 1] == uniq[..j] + [uniq[j]];
        if uniq[j] == values[i] {
          dup := true;
        }
      }
      assert uniq[..|uniq|] == uniq;
      if !dup {
        uniq := uniq + [values[i]];
      }
    }
    assert values[|values|..] == [];
    uniq := SortValues(uniq, quote);
    var bases: seq<Ty> := [];
    for i := 0 to |uniq|
      invariant bases == BasesInOrder(uniq)[..i]
    {
      bases := bases + [BaseOf(uniq[i])];
    }
    assert BasesInOrder(uniq)[..|uniq|] == BasesInOrder(uniq);
    var base := BuildUnion(bases, quote);
    r := Literal(base, uniq);
  }
}

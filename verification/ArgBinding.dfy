/** Binding the arguments of a call to the parameters of the function called
    (resolveFunctionArgs, compiler/check_expr.go). */
module ArgBinding {
  import opened Wrappers

  datatype Kind = PosOnly | PosOrKeyword | KwOnly

  datatype Param<E> = Param(name: string, kind: Kind, vararg: bool, kwarg: bool, default: Option<E>)

  datatype Keyword<E> = Keyword(name: string, value: E)

  /** What a parameter receives. */
  datatype Slot<E> =
    | Empty
    | Bound(e: E)
    | Extras(elems: seq<E>)
    | ExtraKeywords(keywords: seq<Keyword<E>>)
    | Default(e: E)

  datatype Fault =
    | NotATuple
    | TooManyPositional
    | UnexpectedKeyword
    | PositionalOnlyAsKeyword
    | MultipleValues
    | MissingArgument

  /** What the grammar guarantees of a parameter list. */
  ghost predicate WellFormed<E>(params: seq<Param<E>>) {
    && (forall i, j :: 0 <= i < j < |params| ==> params[i].name != params[j].name)
    && (forall i, j :: 0 <= i < j < |params| ==> !(params[i].vararg && params[j].vararg))
    && (forall i, j :: 0 <= i < j < |params| ==> !(params[i].kwarg && params[j].kwarg))
    && (forall i :: 0 <= i < |params| ==> !(params[i].vararg && params[i].kwarg))
  }

  // The rules of a call

  predicate TakesPositional<E>(p: Param<E>) {
    !p.vararg && !p.kwarg && p.kind != KwOnly
  }

  predicate Ordinary<E>(p: Param<E>) {
    !p.vararg && !p.kwarg
  }

  /** The parameters a positional argument can fill, in order. */
  function PosSlots<E>(params: seq<Param<E>>): seq<nat> {
    if params == [] then []
    else
      var n := |params| - 1;
      PosSlots(params[..n]) + if TakesPositional(params[n]) then [n] else []
  }

  /** How many of them come before parameter `i`. */
  function PosRank<E>(params: seq<Param<E>>, i: nat): nat
    requires i <= |params|
  {
    |PosSlots(params[..i])|
  }

  predicate FilledByPosition<E>(params: seq<Param<E>>, count: nat, i: nat)
    requires i < |params|
  {
    TakesPositional(params[i]) && PosRank(params, i) < count
  }

  /** The parameter of a name; the last one, should names repeat. */
  function ParamPosition<E>(params: seq<Param<E>>, name: string): (r: Option<nat>)
    ensures r.Some? ==> r.value < |params| && params[r.value].name == name
    ensures r.None? ==> forall p :: p in params ==> p.name != name
  {
    if params == [] then None
    else
      var n := |params| - 1;
      if params[n].name == name then Some(n) else ParamPosition(params[..n], name)
  }

  /** The parameter a keyword argument fills, unless it is surplus. */
  function Target<E>(params: seq<Param<E>>, name: string): (r: Option<nat>)
    ensures r.Some? ==> r.value < |params| && Ordinary(params[r.value])
  {
    var at := ParamPosition(params, name);
    if at.Some? && Ordinary(params[at.value]) then at else None
  }

  /** The keyword among the first `j` that fills parameter `i`. */
  function ByKeyword<E>(params: seq<Param<E>>, keywords: seq<Keyword<E>>, i: nat, j: nat): (r: Option<nat>)
    requires j <= |keywords|
    ensures r.Some? ==> r.value < j && Target(params, keywords[r.value].name) == Some(i)
    ensures r.None? ==> forall k :: 0 <= k < j ==> Target(params, keywords[k].name) != Some(i)
  {
    if j == 0 then None
    else if Target(params, keywords[j - 1].name) == Some(i) then Some(j - 1)
    else ByKeyword(params, keywords, i, j - 1)
  }

  /** The keywords that name no ordinary parameter, in order. */
  function Surplus<E>(params: seq<Param<E>>, keywords: seq<Keyword<E>>): seq<Keyword<E>> {
    if keywords == [] then []
    else
      var n := |keywords| - 1;
      Surplus(params, keywords[..n]) + if Target(params, keywords[n].name).None? then [keywords[n]] else []
  }

  function Values<E>(keywords: seq<Keyword<E>>): seq<E> {
    seq(|keywords|, k requires 0 <= k < |keywords| => keywords[k].value)
  }

  predicate HasVararg<E>(params: seq<Param<E>>) {
    exists i :: 0 <= i < |params| && params[i].vararg
  }

  predicate HasKwarg<E>(params: seq<Param<E>>) {
    exists i :: 0 <= i < |params| && params[i].kwarg
  }

  /** What is wrong with the j-th keyword argument, given the ones before it. */
  function KeywordFault<E>(params: seq<Param<E>>, count: nat, keywords: seq<Keyword<E>>, j: nat): Option<Fault>
    requires j < |keywords|
  {
    match Target(params, keywords[j].name)
    case None => if HasKwarg(params) then None else Some(UnexpectedKeyword)
    case Some(i) =>
      if params[i].kind == PosOnly then Some(PositionalOnlyAsKeyword)
      else if FilledByPosition(params, count, i) || ByKeyword(params, keywords, i, j).Some? then Some(MultipleValues)
      else None
  }

  predicate ArityHolds<E>(params: seq<Param<E>>, count: nat) {
    count <= |PosSlots(params)| || HasVararg(params)
  }

  predicate KeywordsHold<E>(params: seq<Param<E>>, count: nat, keywords: seq<Keyword<E>>, j: nat)
    requires j <= |keywords|
  {
    forall k :: 0 <= k < j ==> KeywordFault(params, count, keywords, k).None?
  }

  /** The parameter is filled, or has a default to fall back on. */
  predicate Supplied<E>(params: seq<Param<E>>, count: nat, keywords: seq<Keyword<E>>, i: nat)
    requires i < |params|
  {
    !Ordinary(params[i]) || FilledByPosition(params, count, i) ||
    ByKeyword(params, keywords, i, |keywords|).Some? || params[i].default.Some?
  }

  predicate AllSupplied<E>(params: seq<Param<E>>, count: nat, keywords: seq<Keyword<E>>) {
    forall i :: 0 <= i < |params| ==> Supplied(params, count, keywords, i)
  }

  /** When a call's arguments can be bound. */
  predicate Accepted<E>(params: seq<Param<E>>, count: nat, keywords: seq<Keyword<E>>) {
    && ArityHolds(params, count)
    && KeywordsHold(params, count, keywords, |keywords|)
    && AllSupplied(params, count, keywords)
  }

  /** What parameter `i` receives from arguments that can be bound. */
  function SlotFor<E>(params: seq<Param<E>>, positional: seq<E>, keywords: seq<Keyword<E>>, i: nat): Slot<E>
    requires i < |params| && Supplied(params, |positional|, keywords, i)
  {
    if params[i].kwarg then ExtraKeywords(Surplus(params, keywords))
    else if params[i].vararg then Extras(Spill(params, positional))
    else if FilledByPosition(params, |positional|, i) then Bound(positional[PosRank(params, i)])
    else match ByKeyword(params, keywords, i, |keywords|)
      case Some(j) => Bound(keywords[j].value)
      case None => Default(params[i].default.value)
  }

  /** The positional arguments no parameter is left for. */
  function Spill<E>(params: seq<Param<E>>, positional: seq<E>): seq<E> {
    var n := |PosSlots(params)|;
    if n <= |positional| then positional[n..] else []
  }

  /** The expressions of the call that some slots hold; defaults are not the
      call's. */
  ghost function Given<E>(slots: seq<Slot<E>>): multiset<E> {
    if slots == [] then multiset{}
    else Given(slots[..|slots| - 1]) + GivenOf(slots[|slots| - 1])
  }

  ghost function GivenOf<E>(s: Slot<E>): multiset<E> {
    match s
    case Empty => multiset{}
    case Bound(e) => multiset{e}
    case Extras(elems) => multiset(elems)
    case ExtraKeywords(keywords) => multiset(Values(keywords))
    case Default(_) => multiset{}
  }

  // Facts about the rules

  lemma {:induction false} PosSlotsAre<E>(params: seq<Param<E>>, k: nat)
    requires k < |PosSlots(params)|
    ensures var i := PosSlots(params)[k];
      i < |params| && TakesPositional(params[i]) && PosRank(params, i) == k
  {
    var n := |params| - 1;
    if k < |PosSlots(params[..n])| {
      PosSlotsAre(params[..n], k);
      var i := PosSlots(params)[k];
      assert params[..n][..i] == params[..i];
    }
  }

  lemma {:induction false} RankIsPosition<E>(params: seq<Param<E>>, i: nat)
    requires i < |params| && TakesPositional(params[i])
    ensures PosRank(params, i) < |PosSlots(params)| && PosSlots(params)[PosRank(params, i)] == i
  {
    var n := |params| - 1;
    if i < n {
      RankIsPosition(params[..n], i);
      assert params[..n][..i] == params[..i];
    }
  }

  lemma Regroup<E>(a: multiset<E>, b: multiset<E>, c: multiset<E>)
    ensures a + b + c == a + c + b
    ensures a + b + c == a + (b + c)
  {
  }

  lemma {:induction false} GivenUpdate<E>(slots: seq<Slot<E>>, i: nat, s: Slot<E>)
    requires i < |slots| && slots[i].Empty?
    ensures Given(slots[i := s]) == Given(slots) + GivenOf(s)
  {
    hide GivenOf;
    var n := |slots| - 1;
    if i < n {
      GivenUpdate(slots[..n], i, s);
      assert slots[i := s][..n] == slots[..n][i := s];
      Regroup(Given(slots[..n]), GivenOf(s), GivenOf(slots[n]));
    } else {
      EmptyHolds<E>();
      assert slots[i := s][..n] == slots[..n];
    }
  }

  lemma EmptyHolds<E>()
    ensures GivenOf<E>(Empty) == multiset{}
  {
  }

  /** A slot filled by an argument accounts for it. */
  lemma BoundCounted<E>(slots: seq<Slot<E>>, i: nat, v: E, extra: multiset<E>, base: multiset<E>, before: multiset<E>)
    requires i < |slots| && slots[i].Empty?
    requires Given(slots) + extra == base + before
    ensures Given(slots[i := Bound(v)]) + extra == base + (before + multiset{v})
  {
    GivenUpdate(slots, i, Bound(v));
    assert GivenOf(Bound(v)) == multiset{v};
    Regroup(Given(slots), multiset{v}, extra);
    Regroup(base, before, multiset{v});
  }

  lemma ExtraCounted<E>(given: multiset<E>, extra: multiset<E>, base: multiset<E>, before: multiset<E>, v: E)
    requires given + extra == base + before
    ensures given + (extra + multiset{v}) == base + (before + multiset{v})
  {
    Regroup(given, extra, multiset{v});
    Regroup(base, before, multiset{v});
  }

  lemma {:induction false} GivenNone<E>(slots: seq<Slot<E>>)
    requires forall i :: 0 <= i < |slots| ==> slots[i].Empty?
    ensures Given(slots) == multiset{}
  {
    if slots != [] {
      GivenNone(slots[..|slots| - 1]);
    }
  }

  lemma ValuesNext<E>(keywords: seq<Keyword<E>>, k: Keyword<E>)
    ensures multiset(Values(keywords + [k])) == multiset(Values(keywords)) + multiset{k.value}
  {
    assert Values(keywords + [k]) == Values(keywords) + [k.value];
  }

  /** Every positional argument lands in one parameter, the one of its rank, or
      among the extras in its turn. */
  lemma PositionalLands<E>(params: seq<Param<E>>, positional: seq<E>, keywords: seq<Keyword<E>>, k: nat)
    requires WellFormed(params) && Accepted(params, |positional|, keywords) && k < |positional|
    ensures k < |PosSlots(params)| ==>
      var i := PosSlots(params)[k];
      i < |params| && SlotFor(params, positional, keywords, i) == Bound(positional[k])
    ensures k >= |PosSlots(params)| ==>
      exists i :: 0 <= i < |params| && params[i].vararg &&
        SlotFor(params, positional, keywords, i) == Extras(Spill(params, positional)) &&
        Spill(params, positional)[k - |PosSlots(params)|] == positional[k]
  {
    if k < |PosSlots(params)| {
      PosSlotsAre(params, k);
    } else {
      var i :| 0 <= i < |params| && params[i].vararg;
      assert SlotFor(params, positional, keywords, i) == Extras(Spill(params, positional));
    }
  }

  /** Every keyword argument lands in the parameter of its name, which no other
      argument fills, or among the surplus ones. */
  lemma KeywordLands<E>(params: seq<Param<E>>, positional: seq<E>, keywords: seq<Keyword<E>>, j: nat)
    requires WellFormed(params) && Accepted(params, |positional|, keywords) && j < |keywords|
    ensures match Target(params, keywords[j].name)
      case Some(i) =>
        && SlotFor(params, positional, keywords, i) == Bound(keywords[j].value)
        && !FilledByPosition(params, |positional|, i)
        && (forall k :: 0 <= k < |keywords| && k != j ==> Target(params, keywords[k].name) != Some(i))
      case None => HasKwarg(params) && keywords[j] in Surplus(params, keywords)
  {
    assert KeywordFault(params, |positional|, keywords, j).None?;
    match Target(params, keywords[j].name)
    case None => SurplusHas(params, keywords, j);
    case Some(i) =>
      forall k | 0 <= k < |keywords| && k != j
        ensures Target(params, keywords[k].name) != Some(i)
      {
        assert KeywordFault(params, |positional|, keywords, k).None?;
        assert k < j ==> ByKeyword(params, keywords, i, j).None?;
      }
  }

  lemma {:induction false} SurplusHas<E>(params: seq<Param<E>>, keywords: seq<Keyword<E>>, j: nat)
    requires j < |keywords| && Target(params, keywords[j].name).None?
    ensures keywords[j] in Surplus(params, keywords)
  {
    var n := |keywords| - 1;
    if j < n {
      SurplusHas(params, keywords[..n], j);
    }
  }

  // The code

  /** The slots after the first `k` positional and `j` keyword arguments. */
  ghost predicate FilledSoFar<E>(params: seq<Param<E>>, positional: seq<E>, k: nat, keywords: seq<Keyword<E>>, j: nat,
                                 args: seq<Slot<E>>)
  {
    && |args| == |params| && k <= |positional| && j <= |keywords|
    && forall i :: 0 <= i < |params| ==>
      args[i] ==
        if FilledByPosition(params, k, i) then Bound(positional[PosRank(params, i)])
        else if ByKeyword(params, keywords, i, j).Some?
        then Bound(keywords[ByKeyword(params, keywords, i, j).value].value)
        else Empty
  }

  /** What a successful binding is. */
  ghost predicate IsBinding<E>(params: seq<Param<E>>, positional: seq<E>, keywords: seq<Keyword<E>>,
                               slots: seq<Slot<E>>)
  {
    && |slots| == |params| && AllSupplied(params, |positional|, keywords)
    && forall i :: 0 <= i < |params| ==>
      Supplied(params, |positional|, keywords, i) && slots[i] == SlotFor(params, positional, keywords, i)
  }

  /** The elements of starred arguments, one after another. */
  function Concat<E>(stars: seq<Option<seq<E>>>): seq<E>
    requires forall s :: s in stars ==> s.Some?
  {
    if stars == [] then [] else Concat(stars[..|stars| - 1]) + stars[|stars| - 1].value
  }

  /** The indices of `*args` and `**kwargs`, or -1. */
  method FindRest<E>(params: seq<Param<E>>) returns (varargIdx: int, kwargIdx: int)
    ensures -1 <= varargIdx < |params| && -1 <= kwargIdx < |params|
    ensures varargIdx == -1 <==> !HasVararg(params)
    ensures kwargIdx == -1 <==> !HasKwarg(params)
    ensures varargIdx >= 0 ==> params[varargIdx].vararg
    ensures kwargIdx >= 0 ==> params[kwargIdx].kwarg
  {
    varargIdx, kwargIdx := -1, -1;
    for i := 0 to |params|
      invariant -1 <= varargIdx < i && -1 <= kwargIdx < i
      invariant varargIdx == -1 ==> forall k :: 0 <= k < i ==> !params[k].vararg
      invariant kwargIdx == -1 ==> forall k :: 0 <= k < i ==> !params[k].kwarg
      invariant varargIdx >= 0 ==> params[varargIdx].vararg
      invariant kwargIdx >= 0 ==> params[kwargIdx].kwarg
    {
      var p := params[i];
      if p.vararg {
        varargIdx := i;
      }
      if p.kwarg {
        kwargIdx := i;
      }
    }
  }

  /** The ordered parameters that accept a positional argument. */
  method CollectPosSlots<E>(params: seq<Param<E>>) returns (posSlots: seq<nat>)
    ensures posSlots == PosSlots(params)
  {
    posSlots := [];
    for i := 0 to |params|
      invariant posSlots == PosSlots(params[..i])
    {
      var p := params[i];
      assert params[..i + 1][..i] == params[..i];
      if !(p.vararg || p.kwarg || p.kind == KwOnly) {
        posSlots := posSlots + [i];
      }
    }
    assert params[..|params|] == params;
  }

  /** One more positional argument fills the parameter of its rank, if any. */
  lemma PositionalStep<E>(params: seq<Param<E>>, k: nat, i: nat)
    requires i < |params|
    ensures FilledByPosition(params, k + 1, i) <==>
      FilledByPosition(params, k, i) || (k < |PosSlots(params)| && PosSlots(params)[k] == i)
  {
    if TakesPositional(params[i]) {
      RankIsPosition(params, i);
    }
    if k < |PosSlots(params)| {
      PosSlotsAre(params, k);
    }
  }

  lemma PlacedNext<E>(params: seq<Param<E>>, positional: seq<E>, k: nat, args: seq<Slot<E>>)
    requires FilledSoFar(params, positional, k, [], 0, args) && k < |positional|
    ensures k < |PosSlots(params)| ==>
      var at := PosSlots(params)[k];
      at < |params| && args[at].Empty? &&
      FilledSoFar(params, positional, k + 1, [], 0, args[at := Bound(positional[k])])
    ensures k >= |PosSlots(params)| ==> FilledSoFar(params, positional, k + 1, [], 0, args)
  {
    if k < |PosSlots(params)| {
      PosSlotsAre(params, k);
    }
    forall i | 0 <= i < |params|
      ensures FilledByPosition(params, k + 1, i) <==>
        FilledByPosition(params, k, i) || (k < |PosSlots(params)| && PosSlots(params)[k] == i)
    {
      PositionalStep(params, k, i);
    }
  }

  method PlacePositional<E>(params: seq<Param<E>>, positional: seq<E>, varargIdx: int)
    returns (ok: bool, args: seq<Slot<E>>, extraPositional: seq<E>)
    requires varargIdx < 0 <==> !HasVararg(params)
    ensures ok <==> ArityHolds(params, |positional|)
    ensures ok ==> FilledSoFar(params, positional, |positional|, [], 0, args)
    ensures ok ==> extraPositional == Spill(params, positional)
    ensures ok ==> Given(args) + multiset(extraPositional) == multiset(positional)
  {
    hide FilledSoFar, Given, PosSlots;
    args := seq(|params|, _ => Empty);
    extraPositional := [];
    NothingFilled(params, positional, args);
    var posSlots := CollectPosSlots(params);
    var k := 0;
    while k < |positional|
      invariant 0 <= k <= |positional|
      invariant |args| == |params| && FilledSoFar(params, positional, k, [], 0, args)
      invariant k <= |posSlots| || HasVararg(params)
      invariant extraPositional == if |posSlots| <= k then positional[|posSlots|..k] else []
      invariant Given(args) + multiset(extraPositional) == multiset(positional[..k])
    {
      PlacedNext(params, positional, k, args);
      assert positional[..k + 1] == positional[..k] + [positional[k]];
      if k < |posSlots| {
        BoundCounted(args, posSlots[k], positional[k], multiset(extraPositional), multiset{},
              multiset(positional[..k]));
        args := args[posSlots[k] := Bound(positional[k])];
      } else {
        if varargIdx < 0 {
          return false, args, extraPositional;
        }
        assert positional[|posSlots|..k + 1] == positional[|posSlots|..k] + [positional[k]];
        extraPositional := extraPositional + [positional[k]];
      }
      k := k + 1;
    }
    assert positional[..k] == positional;
    ok := true;
  }

  lemma NothingFilled<E>(params: seq<Param<E>>, positional: seq<E>, args: seq<Slot<E>>)
    requires |args| == |params| && forall i :: 0 <= i < |args| ==> args[i].Empty?
    ensures FilledSoFar(params, positional, 0, [], 0, args)
    ensures Given(args) == multiset{}
  {
    GivenNone(args);
  }

  /** The same slots, with the keywords still to come. */
  lemma NoKeywordYet<E>(params: seq<Param<E>>, positional: seq<E>, keywords: seq<Keyword<E>>, args: seq<Slot<E>>)
    requires FilledSoFar(params, positional, |positional|, [], 0, args)
    ensures FilledSoFar(params, positional, |positional|, keywords, 0, args)
  {
  }

  lemma KeywordNext<E>(params: seq<Param<E>>, positional: seq<E>, keywords: seq<Keyword<E>>, j: nat,
                       args: seq<Slot<E>>)
    requires FilledSoFar(params, positional, |positional|, keywords, j, args) && j < |keywords|
    ensures match Target(params, keywords[j].name)
      case None => FilledSoFar(params, positional, |positional|, keywords, j + 1, args)
      case Some(i) =>
        && |args| == |params|
        && (args[i].Empty? <==>
            !FilledByPosition(params, |positional|, i) && ByKeyword(params, keywords, i, j).None?)
        && (args[i].Empty? ==>
            FilledSoFar(params, positional, |positional|, keywords, j + 1, args[i := Bound(keywords[j].value)]))
  {
  }

  lemma SurplusNext<E>(params: seq<Param<E>>, keywords: seq<Keyword<E>>, j: nat)
    requires j < |keywords|
    ensures Surplus(params, keywords[..j + 1]) ==
      Surplus(params, keywords[..j]) + if Target(params, keywords[j].name).None? then [keywords[j]] else []
    ensures multiset(Values(keywords[..j + 1])) == multiset(Values(keywords[..j])) + multiset{keywords[j].value}
  {
    assert keywords[..j + 1] == keywords[..j] + [keywords[j]] && keywords[..j + 1][..j] == keywords[..j];
    ValuesNext(keywords[..j], keywords[j]);
  }

  method PlaceKeywords<E>(params: seq<Param<E>>, positional: seq<E>, keywords: seq<Keyword<E>>, kwargIdx: int,
                          placed: seq<Slot<E>>)
    returns (r: Result<(seq<Slot<E>>, seq<Keyword<E>>), Fault>)
    requires kwargIdx < 0 <==> !HasKwarg(params)
    requires FilledSoFar(params, positional, |positional|, [], 0, placed)
    ensures r.Ok? <==> KeywordsHold(params, |positional|, keywords, |keywords|)
    ensures r.Err? ==> exists j :: FirstFault(params, |positional|, keywords, j, r.error)
    ensures r.Err? ==> r.error in {UnexpectedKeyword, PositionalOnlyAsKeyword, MultipleValues}
    ensures r.Ok? ==>
      && FilledSoFar(params, positional, |positional|, keywords, |keywords|, r.value.0)
      && r.value.1 == Surplus(params, keywords)
      && Given(r.value.0) + multiset(Values(r.value.1)) == Given(placed) + multiset(Values(keywords))
  {
    hide FilledSoFar, Given, Values, FilledByPosition, PosSlots, Surplus, ByKeyword;
    NoSurplus(params, keywords[..0]);
    var args, extraKw: seq<Keyword<E>> := placed, [];
    NoKeywordYet(params, positional, keywords, args);
    NoValues<E>();
    var j := 0;
    while j < |keywords|
      invariant 0 <= j <= |keywords|
      invariant KeywordsHold(params, |positional|, keywords, j)
      invariant FilledSoFar(params, positional, |positional|, keywords, j, args)
      invariant extraKw == Surplus(params, keywords[..j])
      invariant Given(args) + multiset(Values(extraKw)) == Given(placed) + multiset(Values(keywords[..j]))
    {
      var kw := keywords[j];
      KeywordNext(params, positional, keywords, j, args);
      SurplusNext(params, keywords, j);
      var at := ParamPosition(params, kw.name);
      if at.None? || params[at.value].vararg || params[at.value].kwarg {
        if kwargIdx < 0 {
          assert FirstFault(params, |positional|, keywords, j, UnexpectedKeyword);
          return Err(UnexpectedKeyword);
        }
        ValuesNext(extraKw, kw);
        ExtraCounted(Given(args), multiset(Values(extraKw)), Given(placed), multiset(Values(keywords[..j])), kw.value);
        extraKw := extraKw + [kw];
      } else {
        var idx := at.value;
        if params[idx].kind == PosOnly {
          assert FirstFault(params, |positional|, keywords, j, PositionalOnlyAsKeyword);
          return Err(PositionalOnlyAsKeyword);
        }
        if !args[idx].Empty? {
          assert FirstFault(params, |positional|, keywords, j, MultipleValues);
          return Err(MultipleValues);
        }
        BoundCounted(args, idx, kw.value, multiset(Values(extraKw)), Given(placed), multiset(Values(keywords[..j])));
        args := args[idx := Bound(kw.value)];
      }
      j := j + 1;
    }
    assert keywords[..j] == keywords;
    r := Ok((args, extraKw));
  }

  lemma NoValues<E>()
    ensures multiset(Values<E>([])) == multiset{}
  {
  }

  /** The fault that stops the keyword arguments is the first one's. */
  ghost predicate FirstFault<E>(params: seq<Param<E>>, count: nat, keywords: seq<Keyword<E>>, j: nat, fault: Fault) {
    && j < |keywords|
    && KeywordFault(params, count, keywords, j) == Some(fault)
    && KeywordsHold(params, count, keywords, j)
  }

  lemma {:induction false} NoSurplus<E>(params: seq<Param<E>>, keywords: seq<Keyword<E>>)
    requires forall j :: 0 <= j < |keywords| ==> Target(params, keywords[j].name).Some?
    ensures Surplus(params, keywords) == []
  {
    if keywords != [] {
      NoSurplus(params, keywords[..|keywords| - 1]);
    }
  }

  /** The slots with the aggregates in place. */
  ghost predicate Aggregated<E>(params: seq<Param<E>>, positional: seq<E>, keywords: seq<Keyword<E>>,
        args: seq<Slot<E>>)
  {
    && |args| == |params|
    && forall i :: 0 <= i < |params| ==>
      if params[i].kwarg then args[i] == ExtraKeywords(Surplus(params, keywords))
      else if params[i].vararg then args[i] == Extras(Spill(params, positional))
      else
        args[i].Empty? ||
        (Supplied(params, |positional|, keywords, i) && args[i] == SlotFor(params, positional, keywords, i))
  }

  /** Gives `*args` and `**kwargs` their aggregates. */
  method Aggregate<E>(params: seq<Param<E>>, ghost positional: seq<E>, ghost keywords: seq<Keyword<E>>,
                      varargIdx: int, kwargIdx: int,
                      filled: seq<Slot<E>>, extraPositional: seq<E>, extraKw: seq<Keyword<E>>)
    returns (args: seq<Slot<E>>)
    requires WellFormed(params)
    requires -1 <= varargIdx < |params| && -1 <= kwargIdx < |params|
    requires (varargIdx == -1 <==> !HasVararg(params)) && (varargIdx >= 0 ==> params[varargIdx].vararg)
    requires (kwargIdx == -1 <==> !HasKwarg(params)) && (kwargIdx >= 0 ==> params[kwargIdx].kwarg)
    requires ArityHolds(params, |positional|) && KeywordsHold(params, |positional|, keywords, |keywords|)
    requires FilledSoFar(params, positional, |positional|, keywords, |keywords|, filled)
    requires extraPositional == Spill(params, positional) && extraKw == Surplus(params, keywords)
    ensures Aggregated(params, positional, keywords, args)
    ensures forall i :: 0 <= i < |params| && Ordinary(params[i]) ==> args[i] == filled[i]
    ensures Given(args) == Given(filled) + multiset(extraPositional) + multiset(Values(extraKw))
  {
    hide Given, PosSlots, Surplus, ByKeyword, Target;
    args := filled;
    if varargIdx >= 0 {
      GivenUpdate(args, varargIdx, Extras(extraPositional));
      args := args[varargIdx := Extras(extraPositional)];
    } else {
      assert extraPositional == [];
    }
    if kwargIdx >= 0 {
      GivenUpdate(args, kwargIdx, ExtraKeywords(extraKw));
      args := args[kwargIdx := ExtraKeywords(extraKw)];
    } else {
      NoKeywordSpills(params, |positional|, keywords);
      NoValues<E>();
    }
  }

  /** Gives every parameter still empty its default, or fails. */
  method FillDefaults<E>(params: seq<Param<E>>, ghost positional: seq<E>, ghost keywords: seq<Keyword<E>>,
                         filled: seq<Slot<E>>)
    returns (r: Result<seq<Slot<E>>, Fault>)
    requires Aggregated(params, positional, keywords, filled)
    requires forall i :: 0 <= i < |params| && Ordinary(params[i]) ==>
      (filled[i].Empty? <==>
         !FilledByPosition(params, |positional|, i) && ByKeyword(params, keywords, i, |keywords|).None?)
    ensures r.Ok? <==> AllSupplied(params, |positional|, keywords)
    ensures r.Err? ==> r.error == MissingArgument
    ensures r.Ok? ==> IsBinding(params, positional, keywords, r.value)
    ensures r.Ok? ==> Given(r.value) == Given(filled)
  {
    hide Given, PosSlots, Surplus, ByKeyword, FilledByPosition, Spill;
    var args := filled;
    var i := 0;
    while i < |params|
      invariant 0 <= i <= |params| && |args| == |params|
      invariant forall k :: 0 <= k < i ==>
        Supplied(params, |positional|, keywords, k) && args[k] == SlotFor(params, positional, keywords, k)
      invariant forall k :: i <= k < |params| ==> args[k] == filled[k]
      invariant Given(args) == Given(filled)
    {
      if args[i].Empty? {
        if params[i].default.None? {
          assert !Supplied(params, |positional|, keywords, i);
          return Err(MissingArgument);
        }
        GivenUpdate(args, i, Default(params[i].default.value));
        args := args[i := Default(params[i].default.value)];
      }
      i := i + 1;
    }
    r := Ok(args);
  }

  lemma NoKeywordSpills<E>(params: seq<Param<E>>, count: nat, keywords: seq<Keyword<E>>)
    requires KeywordsHold(params, count, keywords, |keywords|) && !HasKwarg(params)
    ensures Surplus(params, keywords) == []
  {
    forall j | 0 <= j < |keywords|
      ensures Target(params, keywords[j].name).Some?
    {
      assert KeywordFault(params, count, keywords, j).None?;
    }
    NoSurplus(params, keywords);
  }

  lemma ConcatNext<E>(stars: seq<Option<seq<E>>>, s: nat)
    requires s < |stars| && forall t :: 0 <= t <= s ==> stars[t].Some?
    ensures Concat(stars[..s + 1]) == Concat(stars[..s]) + stars[s].value
  {
    assert stars[..s + 1][..s] == stars[..s];
  }

  /** What binding a call must come to, its positional arguments being settled. */
  ghost predicate Correct<E>(params: seq<Param<E>>, positional: seq<E>, keywords: seq<Keyword<E>>,
                             r: Result<seq<Slot<E>>, Fault>)
  {
    match r
    case Ok(slots) =>
      && Accepted(params, |positional|, keywords)
      && IsBinding(params, positional, keywords, slots)
      && Given(slots) == multiset(positional) + multiset(Values(keywords))
    case Err(TooManyPositional) => !ArityHolds(params, |positional|)
    case Err(MissingArgument) =>
      && ArityHolds(params, |positional|)
      && KeywordsHold(params, |positional|, keywords, |keywords|)
      && !AllSupplied(params, |positional|, keywords)
    case Err(fault) =>
      && ArityHolds(params, |positional|)
      && exists j :: FirstFault(params, |positional|, keywords, j, fault)
  }

  /** Success is exactly acceptance. */
  lemma CorrectAccepts<E>(params: seq<Param<E>>, positional: seq<E>, keywords: seq<Keyword<E>>,
                          r: Result<seq<Slot<E>>, Fault>)
    requires Correct(params, positional, keywords, r)
    ensures r.Ok? <==> Accepted(params, |positional|, keywords)
  {
    if r.Err? && !r.error.TooManyPositional? && !r.error.MissingArgument? {
      var j :| FirstFault(params, |positional|, keywords, j, r.error);
      assert !KeywordFault(params, |positional|, keywords, j).None?;
    }
  }

  /** Binds the settled positional and the keyword arguments. */
  method BindArguments<E>(params: seq<Param<E>>, positional: seq<E>, keywords: seq<Keyword<E>>)
    returns (r: Result<seq<Slot<E>>, Fault>)
    requires WellFormed(params)
    ensures Correct(params, positional, keywords, r)
  {
    hide Given, PosSlots, Surplus, ByKeyword, FilledByPosition, Spill, Aggregated, IsBinding, FilledSoFar, KeywordFault,
      FirstFault, Supplied, AllSupplied, KeywordsHold, Values;
    var varargIdx, kwargIdx := FindRest(params);
    var ok, args, extraPositional := PlacePositional(params, positional, varargIdx);
    if !ok {
      return Err(TooManyPositional);
    }
    var placed := PlaceKeywords(params, positional, keywords, kwargIdx, args);
    if placed.Err? {
      return Err(placed.error);
    }
    var (filled, extraKw) := placed.value;
    FilledEmpty(params, positional, keywords, filled);
    var whole := Aggregate(params, positional, keywords, varargIdx, kwargIdx, filled, extraPositional, extraKw);
    r := FillDefaults(params, positional, keywords, whole);
    if r.Ok? {
      Tally(Given(args), multiset(extraPositional), multiset(positional), Given(filled),
            multiset(Values(extraKw)), multiset(Values(keywords)));
    }
  }

  lemma FilledEmpty<E>(params: seq<Param<E>>, positional: seq<E>, keywords: seq<Keyword<E>>, filled: seq<Slot<E>>)
    requires FilledSoFar(params, positional, |positional|, keywords, |keywords|, filled)
    ensures |filled| == |params|
    ensures forall i :: 0 <= i < |params| ==>
      (filled[i].Empty? <==>
         !FilledByPosition(params, |positional|, i) && ByKeyword(params, keywords, i, |keywords|).None?)
  {
  }

  lemma Tally<E>(placed: multiset<E>, extra: multiset<E>, positional: multiset<E>, filled: multiset<E>,
                 surplus: multiset<E>, keywords: multiset<E>)
    requires placed + extra == positional && filled + surplus == placed + keywords
    ensures filled + extra + surplus == positional + keywords
  {
    Regroup(filled, extra, surplus);
    Regroup(placed, keywords, extra);
  }

  /** The call: every starred argument must be a tuple of known size, and its
      elements follow the plain positional arguments. */
  method ResolveFunctionArgs<E>(params: seq<Param<E>>, plain: seq<E>, stars: seq<Option<seq<E>>>,
                                keywords: seq<Keyword<E>>)
    returns (r: Result<seq<Slot<E>>, Fault>)
    requires WellFormed(params)
    ensures (exists s :: 0 <= s < |stars| && stars[s].None?) ==> r == Err(NotATuple)
    ensures (forall s :: 0 <= s < |stars| ==> stars[s].Some?) ==>
      Correct(params, plain + Concat(stars), keywords, r)
  {
    hide Correct;
    var positional := plain;
    for s := 0 to |stars|
      invariant forall t :: 0 <= t < s ==> stars[t].Some?
      invariant positional == plain + Concat(stars[..s])
    {
      if stars[s].None? {
        return Err(NotATuple);
      }
      ConcatNext(stars, s);
      positional := positional + stars[s].value;
    }
    assert stars[..|stars|] == stars;
    r := BindArguments(params, positional, keywords);
  }

  // Python's rules

  /** A parameter that may be given by keyword. The name of a positional-only one
      is free for other uses. */
  predicate Nameable<E>(p: Param<E>) {
    Ordinary(p) && p.kind != PosOnly
  }

  ghost predicate Names<E>(params: seq<Param<E>>, name: string, i: nat) {
    i < |params| && Nameable(params[i]) && params[i].name == name
  }

  /** A keyword argument names a parameter that nothing else fills, or `**kwargs`
      takes it. */
  ghost predicate KeywordFits<E>(params: seq<Param<E>>, count: nat, keywords: seq<Keyword<E>>, j: nat)
    requires j < |keywords|
  {
    var name := keywords[j].name;
    if exists i :: Names(params, name, i) then
      && (forall i :: Names(params, name, i) ==> !FilledByPosition(params, count, i))
      && (forall k :: 0 <= k < |keywords| && k != j ==> keywords[k].name != name)
    else HasKwarg(params)
  }

  ghost predicate HasValue<E>(params: seq<Param<E>>, count: nat, keywords: seq<Keyword<E>>, i: nat)
    requires i < |params|
  {
    || FilledByPosition(params, count, i)
    || (Nameable(params[i]) && exists j :: 0 <= j < |keywords| && keywords[j].name == params[i].name)
    || params[i].default.Some?
  }

  /** The rules of section 6.3.4 for a call, but for the one on repeated names. */
  ghost predicate OtherRules<E>(params: seq<Param<E>>, count: nat, keywords: seq<Keyword<E>>) {
    && ArityHolds(params, count)
    && (forall j :: 0 <= j < |keywords| ==> KeywordFits(params, count, keywords, j))
    && (forall i :: 0 <= i < |params| && Ordinary(params[i]) ==> HasValue(params, count, keywords, i))
  }

  ghost predicate NamesDiffer<E>(keywords: seq<Keyword<E>>) {
    forall j, k :: 0 <= j < k < |keywords| ==> keywords[j].name != keywords[k].name
  }

  /** What Python accepts: no keyword argument may be repeated either. */
  ghost predicate PythonAccepts<E>(params: seq<Param<E>>, count: nat, keywords: seq<Keyword<E>>) {
    NamesDiffer(keywords) && OtherRules(params, count, keywords)
  }

  /** A keyword with the name of a positional-only parameter, and `**kwargs` there
      to take it. */
  ghost predicate CollectsPosOnly<E>(params: seq<Param<E>>, keywords: seq<Keyword<E>>) {
    HasKwarg(params) && exists i, j :: PosOnlyNamed(params, keywords, i, j)
  }

  ghost predicate PosOnlyNamed<E>(params: seq<Param<E>>, keywords: seq<Keyword<E>>, i: nat, j: nat) {
    && i < |params| && j < |keywords|
    && Ordinary(params[i]) && params[i].kind == PosOnly && params[i].name == keywords[j].name
  }

  /** Two keywords of one name that no parameter answers to. */
  ghost predicate RepeatsSurplus<E>(params: seq<Param<E>>, keywords: seq<Keyword<E>>) {
    exists j, k :: 0 <= j < k < |keywords| && keywords[j].name == keywords[k].name &&
      forall i :: !Names(params, keywords[j].name, i)
  }

  lemma {:induction false} PositionIs<E>(params: seq<Param<E>>, i: nat)
    requires i < |params| && forall a, b :: 0 <= a < b < |params| ==> params[a].name != params[b].name
    ensures ParamPosition(params, params[i].name) == Some(i)
    decreases params
  {
    var n := |params| - 1;
    if i < n {
      PositionIs(params[..n], i);
    }
  }

  lemma TargetIs<E>(params: seq<Param<E>>, i: nat)
    requires WellFormed(params) && i < |params|
    ensures Target(params, params[i].name) == if Ordinary(params[i]) then Some(i) else None
  {
    PositionIs(params, i);
  }

  /** A keyword the code lets pass fits, provided every keyword passes. */
  lemma PassedFits<E>(params: seq<Param<E>>, count: nat, keywords: seq<Keyword<E>>, j: nat)
    requires WellFormed(params) && KeywordsHold(params, count, keywords, |keywords|) && j < |keywords|
    ensures KeywordFits(params, count, keywords, j) && forall i :: !PosOnlyNamed(params, keywords, i, j)
  {
    hide FilledByPosition, ParamPosition, Target;
    var name := keywords[j].name;
    assert KeywordFault(params, count, keywords, j).None?;
    forall i | 0 <= i < |params| && params[i].name == name
      ensures Target(params, name) == if Ordinary(params[i]) then Some(i) else None
    {
      TargetIs(params, i);
    }
    forall k | 0 <= k < |keywords| && k != j && keywords[k].name == name
      ensures forall i :: !Names(params, name, i)
    {
      assert KeywordFault(params, count, keywords, k).None?;
      TargetTaken(params, keywords, if j < k then j else k, if j < k then k else j);
    }
    if Target(params, name).Some? {
      assert Names(params, name, Target(params, name).value) by {
        TargetNamed(params, name);
      }
    }
  }

  lemma TargetNamed<E>(params: seq<Param<E>>, name: string)
    requires Target(params, name).Some?
    ensures params[Target(params, name).value].name == name
  {
  }

  /** The second of two keywords of one name finds the parameter taken. */
  lemma TargetTaken<E>(params: seq<Param<E>>, keywords: seq<Keyword<E>>, j: nat, k: nat)
    requires j < k < |keywords| && keywords[j].name == keywords[k].name
    ensures Target(params, keywords[k].name).Some? ==>
      ByKeyword(params, keywords, Target(params, keywords[k].name).value, k).Some?
  {
  }

  /** And conversely. */
  lemma FitsPassed<E>(params: seq<Param<E>>, count: nat, keywords: seq<Keyword<E>>, j: nat)
    requires WellFormed(params) && j < |keywords| && KeywordFits(params, count, keywords, j)
    requires !CollectsPosOnly(params, keywords)
    ensures KeywordFault(params, count, keywords, j).None?
  {
    hide FilledByPosition, ParamPosition, Target;
    var name := keywords[j].name;
    var target := Target(params, name);
    if target.Some? {
      var i := target.value;
      TargetNamed(params, name);
      if params[i].kind == PosOnly {
        assert PosOnlyNamed(params, keywords, i, j);
        NoOtherName(params, name, i);
      } else {
        assert Names(params, name, i);
        var earlier := ByKeyword(params, keywords, i, j);
        if earlier.Some? {
          TargetNamed(params, keywords[earlier.value].name);
        }
      }
    } else if i :| Names(params, name, i) {
      TargetIs(params, i);
    }
  }

  lemma NoOtherName<E>(params: seq<Param<E>>, name: string, i: nat)
    requires WellFormed(params) && i < |params| && params[i].name == name && !Nameable(params[i])
    ensures forall k :: !Names(params, name, k)
  {
  }

  lemma SuppliedIs<E>(params: seq<Param<E>>, count: nat, keywords: seq<Keyword<E>>, i: nat)
    requires WellFormed(params) && i < |params| && forall j :: !PosOnlyNamed(params, keywords, i, j)
    ensures Supplied(params, count, keywords, i) <==> !Ordinary(params[i]) || HasValue(params, count, keywords, i)
  {
    hide FilledByPosition, ParamPosition, Target;
    var earlier := ByKeyword(params, keywords, i, |keywords|);
    TargetIs(params, i);
    if Ordinary(params[i]) {
      if earlier.Some? {
        TargetNamed(params, keywords[earlier.value].name);
        assert keywords[earlier.value].name == params[i].name;
        assert !PosOnlyNamed(params, keywords, i, earlier.value);
      } else {
        forall j | 0 <= j < |keywords| ensures keywords[j].name != params[i].name {
          assert Target(params, keywords[j].name) != Some(i);
        }
      }
    }
  }

  /** What the code accepts, by the rules: it also refuses a keyword that `**kwargs`
      would have to take from under a positional-only name. */
  lemma AcceptedIs<E>(params: seq<Param<E>>, count: nat, keywords: seq<Keyword<E>>)
    requires WellFormed(params)
    ensures Accepted(params, count, keywords) <==>
      OtherRules(params, count, keywords) && !CollectsPosOnly(params, keywords)
  {
    hide KeywordFits, KeywordFault, Supplied, HasValue, ArityHolds, WellFormed, PosOnlyNamed, HasKwarg;
    if OtherRules(params, count, keywords) && !CollectsPosOnly(params, keywords) {
      forall j | 0 <= j < |keywords| ensures KeywordFault(params, count, keywords, j).None? {
        FitsPassed(params, count, keywords, j);
      }
    }
    if KeywordsHold(params, count, keywords, |keywords|) {
      forall j | 0 <= j < |keywords| ensures KeywordFits(params, count, keywords, j) {
        PassedFits(params, count, keywords, j);
      }
      KeysInRange(params, keywords);
      forall i: nat, j: nat ensures !PosOnlyNamed(params, keywords, i, j) {
        if j < |keywords| {
          PassedFits(params, count, keywords, j);
        }
      }
      forall i: nat | i < |params|
        ensures Supplied(params, count, keywords, i) <==> !Ordinary(params[i]) || HasValue(params, count, keywords, i)
      {
        SuppliedIs(params, count, keywords, i);
      }
    }
  }

  lemma KeysInRange<E>(params: seq<Param<E>>, keywords: seq<Keyword<E>>)
    ensures forall i: nat, j: nat :: PosOnlyNamed(params, keywords, i, j) ==> j < |keywords|
  {
  }

  /** Among calls that meet the other rules, only surplus keywords can repeat. */
  lemma RepeatedIs<E>(params: seq<Param<E>>, count: nat, keywords: seq<Keyword<E>>)
    requires OtherRules(params, count, keywords)
    ensures NamesDiffer(keywords) <==> !RepeatsSurplus(params, keywords)
  {
    if j, k :| 0 <= j < k < |keywords| && keywords[j].name == keywords[k].name {
      assert KeywordFits(params, count, keywords, j);
    }
  }

  /** The code's acceptance is Python's exactly when the call breaks another rule
      anyway, or departs in both ways, or in neither. */
  lemma AcceptsAsPython<E>(params: seq<Param<E>>, count: nat, keywords: seq<Keyword<E>>)
    requires WellFormed(params)
    ensures (Accepted(params, count, keywords) <==> PythonAccepts(params, count, keywords)) <==>
      (OtherRules(params, count, keywords) ==>
          (CollectsPosOnly(params, keywords) <==> RepeatsSurplus(params, keywords)))
    ensures !CollectsPosOnly(params, keywords) && !RepeatsSurplus(params, keywords) ==>
      (Accepted(params, count, keywords) <==> PythonAccepts(params, count, keywords))
  {
    hide OtherRules, Accepted, NamesDiffer, RepeatsSurplus, CollectsPosOnly;
    AcceptedIs(params, count, keywords);
    if OtherRules(params, count, keywords) {
      RepeatedIs(params, count, keywords);
    }
  }

  /** `def f(a, /, **kw)` called as `f(1, a=2)`: Python accepts it, the code does not. */
  lemma PosOnlyRefused<E>(e: E)
    ensures var params := [Param("a", PosOnly, false, false, None), Param("kw", PosOrKeyword, false, true, None)];
      var keywords := [Keyword("a", e)];
      WellFormed(params) && PythonAccepts(params, 1, keywords) && !Accepted(params, 1, keywords)
  {
    var params: seq<Param<E>> := [Param("a", PosOnly, false, false, None),
        Param("kw", PosOrKeyword, false, true, None)];
    var keywords := [Keyword("a", e)];
    assert params[..1] == [params[0]] && params[..1][..0] == [] && params[..0] == [];
    assert PosSlots(params[..1]) == [0] && PosSlots(params) == [0];
    assert FilledByPosition(params, 1, 0);
    assert params[1].kwarg;
    assert keywords[0].name == "a" && params[0].name == "a";
    assert PosOnlyNamed(params, keywords, 0, 0);
    AcceptedIs(params, 1, keywords);
  }

  /** `def f(**kw)` called as `f(x=1, x=2)`: the code accepts it, Python does not. */
  lemma RepeatAccepted<E>(e: E)
    ensures var params := [Param("kw", PosOrKeyword, false, true, None)];
      var keywords := [Keyword("x", e), Keyword("x", e)];
      WellFormed(params) && Accepted(params, 0, keywords) && !PythonAccepts(params, 0, keywords)
  {
    var params: seq<Param<E>> := [Param("kw", PosOrKeyword, false, true, None)];
    var keywords := [Keyword("x", e), Keyword("x", e)];
    assert params[0].kwarg;
    AcceptedIs(params, 0, keywords);
    assert keywords[0].name == keywords[1].name;
  }

  // The order of positional and starred arguments

  /** An argument of a call as written, a starred one with its elements. */
  datatype Item<E> = Plain(e: E) | Starred(elems: seq<E>)

  /** The order Python evaluates and passes positional arguments in. */
  function AsWritten<E>(items: seq<Item<E>>): seq<E> {
    if items == [] then []
    else
      var n := |items| - 1;
      AsWritten(items[..n]) + match items[n] case Plain(e) => [e] case Starred(elems) => elems
  }

  /** The parser keeps plain and starred arguments in two lists. */
  function PlainsOf<E>(items: seq<Item<E>>): seq<E> {
    if items == [] then []
    else
      var n := |items| - 1;
      PlainsOf(items[..n]) + if items[n].Plain? then [items[n].e] else []
  }

  function StarsOf<E>(items: seq<Item<E>>): (r: seq<Option<seq<E>>>)
    ensures forall s :: s in r ==> s.Some?
  {
    if items == [] then []
    else
      var n := |items| - 1;
      StarsOf(items[..n]) + if items[n].Starred? then [Some(items[n].elems)] else []
  }

  /** A plain argument written after a starred one that is not empty. */
  ghost predicate PlainAfterStar<E>(items: seq<Item<E>>) {
    exists i, j :: 0 <= i < j < |items| && items[i].Starred? && items[i].elems != [] && items[j].Plain?
  }

  ghost predicate Distinct<E>(xs: seq<E>) {
    forall i, j :: 0 <= i < j < |xs| ==> xs[i] != xs[j]
  }

  function ElemsOf<E>(item: Item<E>): seq<E> {
    if item.Starred? then item.elems else []
  }

  lemma StarsStep<E>(items: seq<Item<E>>)
    requires items != []
    ensures Concat(StarsOf(items)) == Concat(StarsOf(items[..|items| - 1])) + ElemsOf(items[|items| - 1])
  {
    hide Concat;
    var n := |items| - 1;
    var stars := StarsOf(items[..n]);
    if items[n].Starred? {
      ConcatAppend(stars, Some(items[n].elems));
      assert StarsOf(items) == stars + [Some(items[n].elems)];
    } else {
      assert StarsOf(items) == stars;
    }
  }

  lemma ConcatAppend<E>(stars: seq<Option<seq<E>>>, last: Option<seq<E>>)
    requires last.Some? && forall s :: s in stars ==> s.Some?
    ensures forall s :: s in stars + [last] ==> s.Some?
    ensures Concat(stars + [last]) == Concat(stars) + last.value
  {
    assert (stars + [last])[..|stars|] == stars;
  }

  lemma {:induction false} NoStarElements<E>(items: seq<Item<E>>)
    ensures Concat(StarsOf(items)) == [] <==> forall i :: 0 <= i < |items| ==> ElemsOf(items[i]) == []
  {
    if items != [] {
      hide Concat, StarsOf;
      var n := |items| - 1;
      StarsStep(items);
      NoStarElements(items[..n]);
      assert forall i :: 0 <= i < n ==> items[..n][i] == items[i];
    }
  }

  lemma {:induction false} StarsAreWritten<E>(items: seq<Item<E>>, x: E)
    requires x in Concat(StarsOf(items))
    ensures x in AsWritten(items)
  {
    if items != [] {
      StarsStep(items);
      if x in Concat(StarsOf(items[..|items| - 1])) {
        StarsAreWritten(items[..|items| - 1], x);
      }
    }
  }

  /** The positional arguments are bound in the order they are written exactly
      when no plain one follows a starred one that has elements. */
  lemma {:induction false} OrderKept<E>(items: seq<Item<E>>)
    requires Distinct(AsWritten(items))
    ensures PlainsOf(items) + Concat(StarsOf(items)) == AsWritten(items) <==> !PlainAfterStar(items)
  {
    hide Concat, StarsOf, PlainAfterStar;
    if items == [] {
      NothingWritten(items);
    } else {
      var n := |items| - 1;
      var before, last := items[..n], items[n];
      var written, plains, stars := AsWritten(before), PlainsOf(before), Concat(StarsOf(before));
      assert forall i :: 0 <= i < |written| ==> AsWritten(items)[i] == written[i];
      OrderKept(before);
      StarsStep(items);
      if last.Starred? {
        StarLast(items);
        SameTail(plains + stars, written, last.elems);
        assert PlainsOf(items) + Concat(StarsOf(items)) == plains + stars + last.elems;
      } else {
        PlainLast(items);
        if stars != [] {
          var x := stars[|stars| - 1];
          StarsAreWritten(before, x);
          LastDiffers(written, last.e, PlainsOf(items), stars);
        } else {
          NoStarNoOvertaking(before);
          assert plains + stars == plains;
        }
      }
    }
  }

  lemma NothingWritten<E>(items: seq<Item<E>>)
    requires items == []
    ensures PlainsOf(items) + Concat(StarsOf(items)) == AsWritten(items) && !PlainAfterStar(items)
  {
  }

  lemma LastDiffers<E>(written: seq<E>, e: E, plains: seq<E>, stars: seq<E>)
    requires Distinct(written + [e])
    requires stars != [] && stars[|stars| - 1] in written
    ensures plains + stars != written + [e]
  {
    var x := stars[|stars| - 1];
    var k :| 0 <= k < |written| && written[k] == x;
    assert (written + [e])[k] == x && (written + [e])[|written|] == e;
    assert (plains + stars)[|plains + stars| - 1] == x;
  }

  lemma NoStarNoOvertaking<E>(items: seq<Item<E>>)
    requires Concat(StarsOf(items)) == []
    ensures !PlainAfterStar(items)
  {
    NoStarElements(items);
    assert forall i :: 0 <= i < |items| ==> ElemsOf(items[i]) == [];
  }

  lemma SameTail<E>(x: seq<E>, y: seq<E>, tail: seq<E>)
    ensures x + tail == y + tail <==> x == y
  {
    if x + tail == y + tail {
      assert |x| == |y|;
      assert x == (x + tail)[..|x|] && y == (y + tail)[..|y|];
    }
  }

  lemma StarLast<E>(items: seq<Item<E>>)
    requires items != [] && items[|items| - 1].Starred?
    ensures PlainAfterStar(items) <==> PlainAfterStar(items[..|items| - 1])
  {
    var before := items[..|items| - 1];
    if PlainAfterStar(before) {
      var i, j :| 0 <= i < j < |before| && before[i].Starred? && before[i].elems != [] && before[j].Plain?;
      assert items[i].Starred? && items[j].Plain?;
    }
    if PlainAfterStar(items) {
      var i, j :| 0 <= i < j < |items| && items[i].Starred? && items[i].elems != [] && items[j].Plain?;
      assert before[i].Starred? && before[j].Plain?;
    }
  }

  lemma PlainLast<E>(items: seq<Item<E>>)
    requires items != [] && items[|items| - 1].Plain?
    ensures PlainAfterStar(items) <==> Concat(StarsOf(items[..|items| - 1])) != []
  {
    var n := |items| - 1;
    var before := items[..n];
    NoStarElements(before);
    if Concat(StarsOf(before)) != [] {
      var i :| 0 <= i < n && ElemsOf(before[i]) != [];
      assert items[i].Starred? && items[n].Plain?;
    }
    if PlainAfterStar(items) {
      var i, j :| 0 <= i < j < |items| && items[i].Starred? && items[i].elems != [] && items[j].Plain?;
      assert ElemsOf(before[i]) != [];
    }
  }

  /** `f(*t, x)` with one element in `t`: x is bound before it. */
  lemma PlainOvertakes<E>(x: E, y: E)
    requires x != y
    ensures AsWritten([Starred([y]), Plain(x)]) == [y, x]
    ensures PlainsOf([Starred([y]), Plain(x)]) + Concat(StarsOf([Starred([y]), Plain(x)])) == [x, y]
  {
    hide Concat, StarsOf;
    var items := [Starred([y]), Plain(x)];
    var first := items[..1];
    assert first == [Starred([y])] && first[..0] == [];
    StarsStep(items);
    StarsStep(first);
    NoStarElements(first[..0]);
    assert AsWritten(first) == [y] && PlainsOf(first) == [];
  }
}

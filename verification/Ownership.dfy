/** The ownership rule for boxed values that cross the host boundary: who retains
    and who releases a reference when the host allocates arrays and tuples from
    borrowed elements (the package comment of hostabi, AllocArray, and the
    enumerate and zip host functions of builtins). */
module Ownership {
  import opened Boxing

  /** A boxed value. Reference 0 is None and is never counted. */
  datatype Box = Scalar(value: int) | Ref(addr: nat)

  /** What a heap address holds; `Free` once its last reference is gone. A list of
      integers that no host function has made or written is kept as words. */
  datatype Value = Free | Array(elems: seq<Box>) | Words(words: seq<int>) | Struct(fields: seq<Box>)

  function Slots(v: Value): seq<Box> {
    match v
    case Free => []
    case Array(elems) => elems
    case Words(_) => []
    case Struct(fields) => fields
  }

  predicate IsCounted(b: Box) {
    b.Ref? && b.addr != 0
  }

  function RefOf(b: Box, a: nat): nat {
    if IsCounted(b) && b.addr == a then 1 else 0
  }

  /** How often an address occurs among some boxes. */
  ghost function Refs(values: seq<Box>, a: nat): nat {
    if values == [] then 0 else RefOf(values[0], a) + Refs(values[1..], a)
  }

  /** How often an address occurs in the slots of the whole heap. */
  ghost function Held(cells: seq<Value>, a: nat): nat {
    if cells == [] then 0 else Held(cells[..|cells| - 1], a) + Refs(Slots(cells[|cells| - 1]), a)
  }

  /** The rule itself: every count is the number of container slots that point at
      the cell plus the references owned from outside the heap, and a cell is
      reclaimed exactly when nothing counts on it any more. */
  ghost predicate Balanced(cells: seq<Value>, counts: seq<nat>, owners: seq<Box>) {
    && |counts| == |cells| > 0
    && cells[0].Free?
    && (forall a: nat :: Held(cells, a) + Refs(owners, a) == if a < |cells| then counts[a] else 0)
    && (forall a :: 0 <= a < |cells| ==> (counts[a] == 0 <==> cells[a].Free?))
  }

  /** The references among some boxes all name live cells. */
  ghost predicate Live(counts: seq<nat>, values: seq<Box>) {
    forall b :: b in values && IsCounted(b) ==> b.addr < |counts| && counts[b.addr] > 0
  }

  ghost function Sum(counts: seq<nat>): nat {
    if counts == [] then 0 else Sum(counts[..|counts| - 1]) + counts[|counts| - 1]
  }

  // Counting occurrences

  lemma {:induction false} RefsConcat(x: seq<Box>, y: seq<Box>, a: nat)
    ensures Refs(x + y, a) == Refs(x, a) + Refs(y, a)
  {
    if x == [] {
      assert x + y == y;
    } else {
      RefsConcat(x[1..], y, a);
      assert (x + y)[1..] == x[1..] + y;
    }
  }

  lemma {:induction false} RefsAre(values: seq<Box>, a: nat)
    ensures Refs(values, a) > 0 <==> a != 0 && Ref(a) in values
  {
    if values != [] {
      RefsAre(values[1..], a);
      assert values == [values[0]] + values[1..];
    }
  }

  lemma {:induction false} HeldUpdate(cells: seq<Value>, a: nat, v: Value, x: nat)
    requires a < |cells|
    ensures Held(cells[a := v], x) + Refs(Slots(cells[a]), x) == Held(cells, x) + Refs(Slots(v), x)
  {
    var n := |cells| - 1;
    if a < n {
      HeldUpdate(cells[..n], a, v, x);
      assert cells[a := v][..n] == cells[..n][a := v];
    } else {
      assert cells[a := v][..n] == cells[..n];
    }
  }

  lemma {:induction false} HeldHolds(cells: seq<Value>, a: nat, x: nat)
    requires a < |cells|
    ensures Held(cells, x) >= Refs(Slots(cells[a]), x)
  {
    var n := |cells| - 1;
    if a < n {
      HeldHolds(cells[..n], a, x);
    }
  }

  lemma {:induction false} SumUpdate(counts: seq<nat>, a: nat, c: nat)
    requires a < |counts|
    ensures Sum(counts[a := c]) == Sum(counts) - counts[a] + c
  {
    var n := |counts| - 1;
    if a < n {
      SumUpdate(counts[..n], a, c);
      assert counts[a := c][..n] == counts[..n][a := c];
    } else {
      assert counts[a := c][..n] == counts[..n];
    }
  }

  // What each heap operation does to the rule

  /** Retaining boxes moves the rule to one where the caller owns them too. */
  lemma RetainKeeps(cells: seq<Value>, counts: seq<nat>, counts': seq<nat>, owners: seq<Box>, values: seq<Box>)
    requires Balanced(cells, counts, owners) && Live(counts, values)
    requires |counts'| == |counts|
    requires forall a :: 0 <= a < |counts| ==> counts'[a] == counts[a] + Refs(values, a)
    ensures Balanced(cells, counts', owners + values)
  {
    forall a: nat
      ensures Held(cells, a) + Refs(owners + values, a) == if a < |cells| then counts'[a] else 0
      ensures Refs(values, a) > 0 ==> a < |cells| && counts[a] > 0
    {
      RefsAre(values, a);
      RefsConcat(owners, values, a);
      assert Ref(a) in values && a != 0 ==> IsCounted(Ref(a));
    }
  }

  /** Allocating consumes the references stored in the slots and gives one owned
      reference to the new cell. */
  lemma AllocKeeps(cells: seq<Value>, counts: seq<nat>, owners: seq<Box>, v: Value)
    requires !v.Free?
    requires Balanced(cells, counts, owners + Slots(v))
    ensures Balanced(cells + [v], counts + [1], owners + [Ref(|cells|)])
  {
    var n, cells', counts' := |cells|, cells + [v], counts + [1];
    assert cells'[..n] == cells;
    forall a: nat
      ensures Held(cells', a) + Refs(owners + [Ref(n)], a) == if a < n + 1 then counts'[a] else 0
    {
      RefsConcat(owners, Slots(v), a);
      RefsConcat(owners, [Ref(n)], a);
      assert Refs([Ref(n)], a) == RefOf(Ref(n), a);
    }
  }

  /** Releasing drops one owned reference; the last one frees the cell and leaves
      the releasing of its slots still to do. */
  lemma ReleaseKeeps(cells: seq<Value>, counts: seq<nat>, owners: seq<Box>, r: Box)
    requires IsCounted(r) && Balanced(cells, counts, [r] + owners)
    ensures r.addr < |cells| == |counts| && counts[r.addr] >= 1
    ensures counts[r.addr] > 1 ==> Balanced(cells, counts[r.addr := counts[r.addr] - 1], owners)
    ensures counts[r.addr] == 1 ==>
      Balanced(cells[r.addr := Free], counts[r.addr := 0], Slots(cells[r.addr]) + owners)
  {
    var a := r.addr;
    assert ([r] + owners)[1..] == owners;
    assert forall x: nat :: Refs([r] + owners, x) == RefOf(r, x) + Refs(owners, x);
    assert Held(cells, a) + Refs([r] + owners, a) >= 1;
    if counts[a] == 1 {
      var slots := Slots(cells[a]);
      forall x: nat
        ensures Held(cells[a := Free], x) + Refs(slots + owners, x) ==
          if x < |cells| then counts[a := 0][x] else 0
      {
        HeldUpdate(cells, a, Free, x);
        RefsConcat(slots, owners, x);
      }
    }
  }

  /** Under the rule, what an outside owner can reach is never reclaimed. */
  lemma OwnedIsLive(cells: seq<Value>, counts: seq<nat>, owners: seq<Box>, r: Box)
    requires Balanced(cells, counts, owners) && r in owners && IsCounted(r)
    ensures r.addr < |cells| && !cells[r.addr].Free? && Live(counts, Slots(cells[r.addr]))
  {
    RefsAre(owners, r.addr);
    var a := r.addr;
    assert Held(cells, a) + Refs(owners, a) > 0;
    SlotsLive(cells, counts, owners, a);
  }

  lemma SlotsLive(cells: seq<Value>, counts: seq<nat>, owners: seq<Box>, a: nat)
    requires Balanced(cells, counts, owners) && a < |cells|
    ensures Live(counts, Slots(cells[a]))
  {
    forall b | b in Slots(cells[a]) && IsCounted(b)
      ensures b.addr < |counts| && counts[b.addr] > 0
    {
      RefsAre(Slots(cells[a]), b.addr);
      HeldHolds(cells, a, b.addr);
    }
  }

  lemma NextRef(values: seq<Box>, i: nat)
    requires i < |values|
    ensures values[..i + 1] == values[..i] + [values[i]]
    ensures forall a: nat :: Refs(values[..i + 1], a) == Refs(values[..i], a) + RefOf(values[i], a)
  {
    forall a: nat
      ensures Refs(values[..i] + [values[i]], a) == Refs(values[..i], a) + RefOf(values[i], a)
    {
      RefsConcat(values[..i], [values[i]], a);
      assert Refs([values[i]], a) == RefOf(values[i], a);
    }
    assert values[..i + 1] == values[..i] + [values[i]];
  }

  /** Every cell that releasing `values` touches has another owner, or another
      slot that points at it. */
  ghost predicate Spare(cells: seq<Value>, values: seq<Box>, owners: seq<Box>) {
    forall a: nat :: Refs(values, a) > 0 ==> Held(cells, a) + Refs(owners, a) > 0
  }

  /** Some cells may have been reclaimed; nothing else changed. */
  ghost predicate Reclaimed(before: seq<Value>, cells: seq<Value>) {
    |cells| == |before| && forall a :: 0 <= a < |cells| ==> cells[a] == before[a] || cells[a].Free?
  }

  /** The cell about to be stored into: None's when there is no such cell. */
  ghost predicate Pending(cells: seq<Value>, owners: seq<Box>, c: nat) {
    c < |cells| && (c == 0 || Ref(c) in owners)
  }

  lemma PendingApart(cells: seq<Value>, counts: seq<nat>, owners: seq<Box>, r: Box, c: nat)
    requires IsCounted(r) && Balanced(cells, counts, [r] + owners) && Pending(cells, owners, c)
    requires r.addr < |counts| && counts[r.addr] == 1
    ensures r.addr != c
  {
    RefsAre(owners, c);
    assert ([r] + owners)[1..] == owners;
    assert Refs([r] + owners, c) == RefOf(r, c) + Refs(owners, c);
  }

  lemma NothingPending(cells: seq<Value>, counts: seq<nat>, owners: seq<Box>)
    requires Balanced(cells, counts, owners)
    ensures |cells| > 0 && cells[0 := Free] == cells
  {
  }

  lemma ReleaseNext(cells: seq<Value>, counts: seq<nat>, values: seq<Box>, owners: seq<Box>, i: nat)
    requires i < |values| && Balanced(cells, counts, values[i..] + owners)
    ensures values[i..] + owners == [values[i]] + (values[i + 1..] + owners)
    ensures !IsCounted(values[i]) ==> Balanced(cells, counts, values[i + 1..] + owners)
    ensures IsCounted(values[i]) && Spare(cells, values, owners) ==>
      values[i].addr < |counts| && counts[values[i].addr] > 1
  {
    var b, rest := values[i], values[i + 1..] + owners;
    assert values[i..] + owners == [b] + rest;
    assert ([b] + rest)[1..] == rest;
    assert forall a: nat :: Refs([b] + rest, a) == RefOf(b, a) + Refs(rest, a);
    if IsCounted(b) && Spare(cells, values, owners) {
      RefsAre(values, b.addr);
      RefsConcat(values[i + 1..], owners, b.addr);
      assert Held(cells, b.addr) + Refs([b] + rest, b.addr) > 1;
    }
  }

  /** The rule fixes the counts, and only how often each owner occurs matters. */
  lemma CountsDetermined(cells: seq<Value>, counts: seq<nat>, counts': seq<nat>, owners: seq<Box>)
    requires Balanced(cells, counts, owners) && Balanced(cells, counts', owners)
    ensures counts == counts'
  {
  }

  lemma OwnersReorder(cells: seq<Value>, counts: seq<nat>, x: seq<Box>, y: seq<Box>, z: seq<Box>)
    ensures Balanced(cells, counts, x + y + z) == Balanced(cells, counts, y + (x + z))
  {
    forall a: nat
      ensures Refs(x + y + z, a) == Refs(y + (x + z), a)
    {
      RefsConcat(x + y, z, a);
      RefsConcat(x, y, a);
      RefsConcat(y, x + z, a);
      RefsConcat(x, z, a);
    }
  }

  lemma OwnersLive(cells: seq<Value>, counts: seq<nat>, owners: seq<Box>, values: seq<Box>)
    requires Balanced(cells, counts, owners)
    requires forall b :: b in values ==> b in owners
    ensures Live(counts, values)
  {
    forall b | b in values && IsCounted(b)
      ensures b.addr < |counts| && counts[b.addr] > 0
    {
      OwnedIsLive(cells, counts, owners, b);
    }
  }

  /** The addresses handed out from `base` on. */
  function Fresh(base: nat, n: nat): (r: seq<Box>)
  {
    seq(n, k requires 0 <= k => Ref(base + k))
  }

  /** The tuples that enumerate builds. */
  function Enumerated(elems: seq<Box>): seq<Value> {
    seq(|elems|, k requires 0 <= k < |elems| => Struct([Scalar(Boxed(k)), elems[k]]))
  }

  /** The tuples that it promises. */
  function Numbered(contents: seq<Box>): seq<Value> {
    seq(|contents|, k requires 0 <= k < |contents| => Struct([Scalar(k), contents[k]]))
  }

  /** The tuples that zip builds: as many as the shorter list. */
  function Zipped(a: seq<Box>, b: seq<Box>): seq<Value> {
    seq(if |b| < |a| then |b| else |a|,
        k requires 0 <= k < |a| && k < |b| => Struct([a[k], b[k]]))
  }

  ghost predicate IsArray(cells: seq<Value>, b: Box) {
    IsCounted(b) && b.addr < |cells| && (cells[b.addr].Array? || cells[b.addr].Words?)
  }

  /** What a host function reads off an array: words are boxed one by one. */
  function HostElems(v: Value): (r: seq<Box>) {
    match v
    case Array(elems) => elems
    case Words(words) => seq(|words|, k requires 0 <= k < |words| => Scalar(Boxed(words[k])))
    case _ => []
  }

  ghost function ElemsOf(cells: seq<Value>, b: Box): seq<Box> {
    if IsArray(cells, b) then HostElems(cells[b.addr]) else []
  }

  /** What the array holds. */
  ghost function ContentsOf(cells: seq<Value>, b: Box): (r: seq<Box>)
    ensures |r| == |ElemsOf(cells, b)|
  {
    if !IsArray(cells, b) then []
    else
      match cells[b.addr]
      case Array(elems) => elems
      case Words(words) => seq(|words|, k requires 0 <= k < |words| => Scalar(words[k]))
      case _ => []
  }

  /** Element `k` is a box already, or a word that fits one. */
  ghost predicate ReadsWhole(cells: seq<Value>, b: Box, k: nat)
    requires k < |ContentsOf(cells, b)|
  {
    cells[b.addr].Words? ==> Inline(cells[b.addr].words[k])
  }

  /** Exactly those elements are read as they are. */
  lemma ReadsExactly(cells: seq<Value>, b: Box)
    ensures forall k :: 0 <= k < |ContentsOf(cells, b)| ==>
      (ElemsOf(cells, b)[k] == ContentsOf(cells, b)[k] <==> ReadsWhole(cells, b, k))
  {
  }

  /** Reading `[2**48]` gives -2^48. */
  lemma WordReadShort(cells: seq<Value>, a: nat)
    requires 0 < a < |cells| && cells[a] == Words([INLINE_MAX + 1])
    ensures ContentsOf(cells, Ref(a)) == [Scalar(INLINE_MAX + 1)] && ElemsOf(cells, Ref(a)) == [Scalar(INLINE_MIN)]
  {
  }

  lemma {:induction false} ScalarsUncounted(values: seq<Box>, a: nat)
    requires forall k :: 0 <= k < |values| ==> values[k].Scalar?
    ensures Refs(values, a) == 0
  {
    if values != [] {
      ScalarsUncounted(values[1..], a);
    }
  }

  /** What is read off an array are the references it holds, and numbers. */
  lemma ReadsItsSlots(v: Value, a: nat)
    requires v.Array? || v.Words?
    ensures Refs(HostElems(v), a) == Refs(Slots(v), a)
    ensures forall x :: x in HostElems(v) && IsCounted(x) ==> x in Slots(v)
  {
    if v.Words? {
      ScalarsUncounted(HostElems(v), a);
    }
  }

  /** Enumerating is exact if every element is read whole and every position fits a
      box, and only then. */
  lemma EnumeratesExactly(cells: seq<Value>, list: Box)
    ensures var n := |ContentsOf(cells, list)|;
      Enumerated(ElemsOf(cells, list)) == Numbered(ContentsOf(cells, list)) <==>
      (forall k :: 0 <= k < n ==> ReadsWhole(cells, list, k)) && n <= INLINE_MAX + 1
  {
    var read, held := ElemsOf(cells, list), ContentsOf(cells, list);
    ReadsExactly(cells, list);
    var x, y := Enumerated(read), Numbered(held);
    forall k | 0 <= k < |held|
      ensures x[k] == y[k] <==> ReadsWhole(cells, list, k) && k <= INLINE_MAX
    {
      assert x[k].fields[0] == Scalar(Boxed(k)) && x[k].fields[1] == read[k];
      assert y[k].fields[0] == Scalar(k) && y[k].fields[1] == held[k];
    }
    if |held| > INLINE_MAX + 1 {
      assert x[INLINE_MAX + 1] != y[INLINE_MAX + 1];
    }
  }

  /** So is zipping, as far as the shorter list goes. */
  lemma ZipsExactly(cells: seq<Value>, left: Box, right: Box)
    ensures var x, y := Zipped(ElemsOf(cells, left), ElemsOf(cells, right)),
      Zipped(ContentsOf(cells, left), ContentsOf(cells, right));
      x == y <==> forall k :: 0 <= k < |y| ==> ReadsWhole(cells, left, k) && ReadsWhole(cells, right, k)
  {
    var x, y := Zipped(ElemsOf(cells, left), ElemsOf(cells, right)),
        Zipped(ContentsOf(cells, left), ContentsOf(cells, right));
    ReadsExactly(cells, left);
    ReadsExactly(cells, right);
    forall k | 0 <= k < |y|
      ensures x[k] == y[k] <==> ReadsWhole(cells, left, k) && ReadsWhole(cells, right, k)
    {
      assert x[k].fields[0] == ElemsOf(cells, left)[k] && x[k].fields[1] == ElemsOf(cells, right)[k];
      assert y[k].fields[0] == ContentsOf(cells, left)[k] && y[k].fields[1] == ContentsOf(cells, right)[k];
    }
  }

  /** How many of so many cells there is room for. */
  function Reached(want: nat, room: int): nat {
    if room <= 0 then 0 else if want < room then want else room
  }

  /** Only the first `n` of some boxes were retained: the next names no live cell. */
  ghost predicate RetainedTo(before: seq<nat>, counts: seq<nat>, values: seq<Box>, n: nat) {
    && n < |values|
    && Live(before, values[..n]) && !Live(before, values[n..n + 1])
    && |counts| == |before|
    && (forall a :: 0 <= a < |counts| ==> counts[a] == before[a] + Refs(values[..n], a))
  }

  /** `k` of the tuples have been made, each owned by the running host call. */
  ghost predicate Made(before: seq<Value>, cells: seq<Value>, counts: seq<nat>, owners: seq<Box>,
                       tuples: seq<Value>, k: nat) {
    && k <= |tuples|
    && cells == before + tuples[..k]
    && Balanced(cells, counts, owners + Fresh(|before|, k))
  }

  lemma MadeStart(before: seq<Value>, counts: seq<nat>, owners: seq<Box>, tuples: seq<Value>)
    requires Balanced(before, counts, owners)
    ensures Made(before, before, counts, owners, tuples, 0)
  {
    assert owners + Fresh(|before|, 0) == owners;
    assert before + tuples[..0] == before;
  }

  lemma MadeSoFar(before: seq<Value>, cells: seq<Value>, counts: seq<nat>, owners: seq<Box>,
                  tuples: seq<Value>, k: nat)
    requires Made(before, cells, counts, owners, tuples, k)
    ensures |cells| == |before| + k && Balanced(cells, counts, owners + Fresh(|before|, k))
    ensures forall a :: 0 <= a < |before| ==> cells[a] == before[a]
    ensures k == |tuples| ==> cells == before + tuples
  {
    if k == |tuples| {
      assert tuples[..k] == tuples;
    }
  }

  lemma MadeNext(before: seq<Value>, cells: seq<Value>, counts: seq<nat>, cells': seq<Value>, counts': seq<nat>,
                 owners: seq<Box>, tuples: seq<Value>, k: nat)
    requires Made(before, cells, counts, owners, tuples, k) && k < |tuples|
    requires cells' == cells + [tuples[k]]
    requires Balanced(cells', counts', owners + Fresh(|before|, k) + [Ref(|cells|)])
    ensures Made(before, cells', counts', owners, tuples, k + 1)
  {
    assert tuples[..k + 1] == tuples[..k] + [tuples[k]];
    assert cells' == before + tuples[..k + 1];
    assert owners + Fresh(|before|, k) + [Ref(|cells|)] == owners + Fresh(|before|, k + 1);
  }

  /** The tuples of a failed call are lost; without any, the heap is as it was. */
  lemma MadeNone(before: seq<Value>, counts: seq<nat>, cells: seq<Value>, counts': seq<nat>, owners: seq<Box>,
                 tuples: seq<Value>, k: nat)
    requires Balanced(before, counts, owners) && Made(before, cells, counts', owners, tuples, k)
    ensures cells == before && counts' == counts <==> k == 0
  {
    if k == 0 {
      assert owners + Fresh(|before|, 0) == owners;
      assert before + tuples[..0] == before;
      CountsDetermined(before, counts, counts', owners);
    }
  }

  lemma BorrowedLive(cells: seq<Value>, counts: seq<nat>, owners: seq<Box>, a: nat, fields: seq<Box>)
    requires Balanced(cells, counts, owners) && a < |cells|
    requires forall b :: b in fields && IsCounted(b) ==> b in Slots(cells[a])
    ensures Live(counts, fields)
  {
    SlotsLive(cells, counts, owners, a);
  }

  /** What was read off a list before is live as long as the list is kept. */
  lemma ReadLive(before: seq<Value>, cells: seq<Value>, counts: seq<nat>, owners: seq<Box>, list: Box, k: nat)
    requires k < |ElemsOf(before, list)| && |before| <= |cells|
    requires forall a :: 0 <= a < |before| ==> cells[a] == before[a]
    requires Balanced(cells, counts, owners)
    ensures Live(counts, [ElemsOf(before, list)[k]])
  {
    hide Balanced;
    ReadsItsSlots(cells[list.addr], 0);
    BorrowedLive(cells, counts, owners, list.addr, [ElemsOf(before, list)[k]]);
  }

  lemma PairLive(counts: seq<nat>, x: Box, y: Box)
    requires (IsCounted(x) ==> Live(counts, [x])) && Live(counts, [y])
    ensures Live(counts, [x, y])
  {
    assert x == [x][0] && y == [y][0];
  }

  /** Live boxes that the caller does not own have some other holder. */
  lemma LiveSpare(cells: seq<Value>, counts: seq<nat>, owners: seq<Box>, values: seq<Box>)
    requires Balanced(cells, counts, owners) && Live(counts, values)
    ensures Spare(cells, values, owners)
  {
    forall a: nat
      ensures Refs(values, a) > 0 ==> Held(cells, a) + Refs(owners, a) > 0
    {
      RefsAre(values, a);
      assert a != 0 ==> IsCounted(Ref(a));
    }
  }

  /** The finished tuples survive the call's giving up its own stake in them,
      since the result array now points at each. */
  lemma ResultHolds(cells: seq<Value>, out: seq<Box>, owners: seq<Box>)
    requires |cells| > 0 && cells[|cells| - 1] == Array(out)
    ensures Spare(cells, out, owners)
  {
    forall a: nat
      ensures Refs(out, a) > 0 ==> Held(cells, a) > 0
    {
      HeldHolds(cells, |cells| - 1, a);
    }
  }

  /** The virtual machine's heap, up to what the host functions ask of it. */
  class Interpreter {
    var cells: seq<Value>
    var counts: seq<nat>
    const limit: nat

    constructor (limit: nat)
      ensures this.limit == limit && cells == [Free]
      ensures Balanced(cells, counts, [])
    {
      this.limit := limit;
      cells, counts := [Free], [0];
      new;
      assert [Free][..0] == [];
      assert forall a: nat :: Held([Free], a) == 0;
    }

    /** One owned reference to a new cell; the slots are not retained. */
    method Alloc(v: Value) returns (ok: bool, addr: nat)
      modifies this
      ensures ok <==> old(|cells|) < limit
      ensures ok ==> addr == old(|cells|) && cells == old(cells) + [v] && counts == old(counts) + [1]
      ensures !ok ==> cells == old(cells) && counts == old(counts)
    {
      addr := |cells|;
      ok := addr < limit;
      if ok {
        cells, counts := cells + [v], counts + [1];
      }
    }

    method Retain(addr: nat) returns (ok: bool)
      modifies `counts
      ensures ok <==> addr < |old(counts)| && old(counts)[addr] > 0
      ensures counts == if ok then old(counts)[addr := old(counts)[addr] + 1] else old(counts)
    {
      ok := addr < |counts| && counts[addr] > 0;
      if ok {
        counts := counts[addr := counts[addr] + 1];
      }
    }

    /** Drops an owned reference. The last one reclaims the cell and releases
        what its slots hold in turn. A host call that has yet to store `v` in the
        cell `c`, which its caller owns, reckons with that store already. */
    method Release(r: Box, ghost owners: seq<Box>, ghost c: nat, ghost v: Value)
      requires IsCounted(r) && Pending(cells, owners, c)
      requires Balanced(cells[c := v], counts, [r] + owners)
      modifies this
      ensures |cells| == old(|cells|) && Balanced(cells[c := v], counts, owners)
      ensures cells[c] == old(cells)[c] && Reclaimed(old(cells), cells)
      ensures r.addr < old(|counts|) && old(counts)[r.addr] >= 1
      ensures old(counts)[r.addr] > 1 ==> cells == old(cells)
      ensures Sum(counts) < old(Sum(counts))
      decreases Sum(counts), 0
    {
      hide Balanced, Sum;
      ReleaseKeeps(cells[c := v], counts, owners, r);
      SumUpdate(counts, r.addr, counts[r.addr] - 1);
      counts := counts[r.addr := counts[r.addr] - 1];
      if counts[r.addr] == 0 {
        PendingApart(cells[c := v], old(counts), owners, r, c);
        var slots := Slots(cells[r.addr]);
        cells := cells[r.addr := Free];
        assert cells[c := v] == old(cells)[c := v][r.addr := Free];
        ReleaseBoxes(slots, owners, c, v);
      }
    }

    /** Adds one reference to each counted element, stopping at the first that
        names no live cell. */
    method RetainBoxes(values: seq<Box>) returns (ok: bool)
      modifies `counts
      ensures ok <==> Live(old(counts), values)
      ensures |counts| == old(|counts|)
      ensures ok ==> forall a :: 0 <= a < |counts| ==> counts[a] == old(counts)[a] + Refs(values, a)
      ensures !ok ==> exists n :: RetainedTo(old(counts), counts, values, n)
    {
      var i := 0;
      while i < |values|
        invariant 0 <= i <= |values| && |counts| == old(|counts|)
        invariant Live(old(counts), values[..i])
        invariant forall a :: 0 <= a < |counts| ==> counts[a] == old(counts)[a] + Refs(values[..i], a)
      {
        var value := values[i];
        NextRef(values, i);
        if IsCounted(value) {
          var retained := Retain(value.addr);
          RefsAre(values[..i], value.addr);
          if !retained {
            assert values[i..i + 1] == [value] && IsCounted([value][0]);
            assert RetainedTo(old(counts), counts, values, i);
            return false;
          }
        }
        i := i + 1;
      }
      assert values[..i] == values;
      ok := true;
    }

    /** Drops one reference from each counted element. Nothing is reclaimed when
        every cell keeps a reference. */
    method ReleaseBoxes(values: seq<Box>, ghost owners: seq<Box>, ghost c: nat, ghost v: Value)
      requires Pending(cells, owners, c)
      requires Balanced(cells[c := v], counts, values + owners)
      modifies this
      ensures |cells| == old(|cells|) && Balanced(cells[c := v], counts, owners)
      ensures cells[c] == old(cells)[c] && Reclaimed(old(cells), cells)
      ensures Spare(old(cells)[c := v], values, owners) ==> cells == old(cells)
      ensures Sum(counts) <= old(Sum(counts))
      decreases Sum(counts), 1
    {
      hide Balanced, Sum, Spare;
      var i := 0;
      while i < |values|
        invariant 0 <= i <= |values| && |cells| == old(|cells|)
        invariant Balanced(cells[c := v], counts, values[i..] + owners)
        invariant Sum(counts) <= old(Sum(counts))
        invariant cells[c] == old(cells)[c] && Reclaimed(old(cells), cells)
        invariant Spare(old(cells)[c := v], values, owners) ==> cells == old(cells)
      {
        var value := values[i];
        ReleaseNext(cells[c := v], counts, values, owners, i);
        if IsCounted(value) {
          Release(value, values[i + 1..] + owners, c, v);
        }
        i := i + 1;
      }
      assert values[i..] + owners == owners;
    }

    /** Replaces what a cell holds; no count changes. */
    method Store(addr: nat, v: Value)
      requires addr < |cells|
      modifies `cells
      ensures cells == old(cells)[addr := v]
    {
      cells := cells[addr := v];
    }

    /** Reading the elements of an array takes no reference. A word that does not
        fit a box loses its upper bits. */
    method ArrayElems(b: Box) returns (ok: bool, elems: seq<Box>)
      ensures ok <==> IsArray(cells, b)
      ensures elems == ElemsOf(cells, b) && (!ok ==> elems == [])
      ensures forall k :: 0 <= k < |elems| ==> (elems[k] == ContentsOf(cells, b)[k] <==> ReadsWhole(cells, b, k))
    {
      ReadsExactly(cells, b);
      if !IsCounted(b) || b.addr >= |cells| {
        return false, [];
      }
      match cells[b.addr] {
        case Array(boxes) =>
          return true, boxes;
        case Words(words) =>
          elems := [];
          for k := 0 to |words|
            invariant elems == HostElems(Words(words))[..k]
          {
            elems := elems + [Scalar(Boxed(words[k]))];
          }
          return true, elems;
        case _ =>
          return false, [];
      }
    }

    /** Retain the slots, allocate, and undo the retains when allocation fails. */
    method AllocOwned(v: Value, ghost owners: seq<Box>) returns (ok: bool, addr: nat)
      requires !v.Free? && Balanced(cells, counts, owners)
      modifies this
      ensures ok <==> Live(old(counts), Slots(v)) && old(|cells|) < limit
      ensures ok ==> addr == old(|cells|) && cells == old(cells) + [v]
      ensures ok ==> Balanced(cells, counts, owners + [Ref(addr)])
      ensures !ok ==> cells == old(cells)
      ensures !ok && Live(old(counts), Slots(v)) ==> counts == old(counts)
      ensures !Live(old(counts), Slots(v)) ==> exists n :: RetainedTo(old(counts), counts, Slots(v), n)
    {
      hide Balanced, Live, Refs, Held;
      var retained := RetainBoxes(Slots(v));
      if !retained {
        return false, 0;
      }
      RetainKeeps(cells, old(counts), counts, owners, Slots(v));
      ghost var before := cells;
      ok, addr := Alloc(v);
      if ok {
        AllocKeeps(before, counts[..|before|], owners, v);
      } else {
        OwnersReorder(cells, counts, owners, Slots(v), []);
        assert owners + Slots(v) + [] == owners + Slots(v) && owners + [] == owners;
        LiveSpare(cells, old(counts), owners, Slots(v));
        NothingPending(cells, counts, Slots(v) + owners);
        ReleaseBoxes(Slots(v), owners, 0, Free);
        CountsDetermined(cells, counts, old(counts), owners);
      }
    }

    /** A new array over borrowed elements: it holds its own reference to each. */
    method AllocArray(elems: seq<Box>, ghost owners: seq<Box>) returns (ok: bool, res: Box)
      requires Balanced(cells, counts, owners)
      modifies this
      ensures ok <==> Live(old(counts), elems) && old(|cells|) < limit
      ensures ok ==> res == Ref(old(|cells|)) && cells == old(cells) + [Array(elems)]
      ensures ok ==> Balanced(cells, counts, owners + [res])
      ensures !ok ==> cells == old(cells)
      ensures !ok && Live(old(counts), elems) ==> counts == old(counts)
      ensures !Live(old(counts), elems) ==> exists n :: RetainedTo(old(counts), counts, elems, n)
    {
      hide Balanced, Live;
      var addr;
      ok, addr := AllocOwned(Array(elems), owners);
      res := Ref(addr);
    }

    /** Pairs each element with its position. The intermediate tuples end up owned
        by the result array alone; a failed allocation leaves those made so far
        owned by nobody who will release them. */
    method Enumerate(list: Box, ghost owners: seq<Box>) returns (ok: bool, res: Box)
      requires Balanced(cells, counts, owners)
      modifies this
      ensures ok <==> IsArray(old(cells), list) && old(|cells|) + |ElemsOf(old(cells), list)| < limit
      ensures ok ==>
        var tuples := Enumerated(ElemsOf(old(cells), list));
        && cells == old(cells) + tuples + [Array(Fresh(|old(cells)|, |tuples|))]
        && res == Ref(|old(cells)| + |tuples|)
        && Balanced(cells, counts, owners + [res])
        && (tuples == Numbered(ContentsOf(old(cells), list)) <==>
              (forall k :: 0 <= k < |tuples| ==> ReadsWhole(old(cells), list, k)) && |tuples| <= INLINE_MAX + 1)
      ensures !ok ==>
        var tuples := Enumerated(ElemsOf(old(cells), list));
        var k := Reached(|tuples|, limit - |old(cells)|);
        && Made(old(cells), cells, counts, owners, tuples, k)
        && (cells == old(cells) && counts == old(counts) <==> k == 0)
    {
      hide Balanced, Live, Refs, Held, Spare, Made, IsArray, ElemsOf, ReadsWhole, ContentsOf;
      ghost var before, counts0 := cells, counts;
      var isArray, elems := ArrayElems(list);
      ghost var tuples := Enumerated(elems);
      EnumeratesExactly(before, list);
      MadeStart(before, counts, owners, tuples);
      if !isArray {
        MadeNone(before, counts, cells, counts, owners, tuples, 0);
        return false, list;
      }
      var out: seq<Box> := [];
      var idx := 0;
      while idx < |elems|
        invariant 0 <= idx <= |elems| && out == Fresh(|before|, idx)
        invariant Made(before, cells, counts, owners, tuples, idx)
        invariant |before| + idx <= limit || idx == 0
      {
        var fields := [Scalar(Boxed(idx)), elems[idx]];
        ghost var cells1, counts1 := cells, counts;
        MadeSoFar(before, cells, counts, owners, tuples, idx);
        ReadLive(before, cells, counts, owners + out, list, idx);
        PairLive(counts, fields[0], fields[1]);
        var made, addr := AllocOwned(Struct(fields), owners + out);
        if !made {
          MadeNone(before, counts0, cells, counts, owners, tuples, idx);
          return false, list;
        }
        MadeNext(before, cells1, counts1, cells, counts, owners, tuples, idx);
        out := out + [Ref(addr)];
        idx := idx + 1;
      }
      MadeSoFar(before, cells, counts, owners, tuples, idx);
      MadeNone(before, counts0, cells, counts, owners, tuples, idx);
      ok, res := Finish(out, owners);
    }

    /** Pairs the elements of two lists up to the length of the shorter. */
    method Zip(left: Box, right: Box, ghost owners: seq<Box>) returns (ok: bool, res: Box)
      requires Balanced(cells, counts, owners)
      modifies this
      ensures ok <==> (
        && IsArray(old(cells), left) && IsArray(old(cells), right)
        && old(|cells|) + |Zipped(ElemsOf(old(cells), left), ElemsOf(old(cells), right))| < limit)
      ensures ok ==>
        var tuples := Zipped(ElemsOf(old(cells), left), ElemsOf(old(cells), right));
        && cells == old(cells) + tuples + [Array(Fresh(|old(cells)|, |tuples|))]
        && res == Ref(|old(cells)| + |tuples|)
        && Balanced(cells, counts, owners + [res])
        && (tuples == Zipped(ContentsOf(old(cells), left), ContentsOf(old(cells), right)) <==>
              forall k :: 0 <= k < |tuples| ==> ReadsWhole(old(cells), left, k) && ReadsWhole(old(cells), right, k))
      ensures !ok ==>
        var tuples := Zipped(ElemsOf(old(cells), left), ElemsOf(old(cells), right));
        var k := Reached(|tuples|, limit - |old(cells)|);
        && Made(old(cells), cells, counts, owners, tuples, k)
        && (cells == old(cells) && counts == old(counts) <==> k == 0)
    {
      hide Balanced, Live, Refs, Held, Spare, Made, IsArray, ElemsOf, ReadsWhole, ContentsOf;
      ghost var before, counts0 := cells, counts;
      ghost var tuples := Zipped(ElemsOf(before, left), ElemsOf(before, right));
      ZipsExactly(before, left, right);
      MadeStart(before, counts, owners, tuples);
      MadeNone(before, counts, cells, counts, owners, tuples, 0);
      var isArray, a := ArrayElems(left);
      if !isArray {
        return false, left;
      }
      var b;
      isArray, b := ArrayElems(right);
      if !isArray {
        return false, left;
      }
      var n := |a|;
      if |b| < n {
        n := |b|;
      }
      var out: seq<Box> := [];
      var idx := 0;
      while idx < n
        invariant 0 <= idx <= n && out == Fresh(|before|, idx)
        invariant Made(before, cells, counts, owners, tuples, idx)
        invariant |before| + idx <= limit || idx == 0
      {
        var fields := [a[idx], b[idx]];
        ghost var cells1, counts1 := cells, counts;
        MadeSoFar(before, cells, counts, owners, tuples, idx);
        ReadLive(before, cells, counts, owners + out, left, idx);
        ReadLive(before, cells, counts, owners + out, right, idx);
        PairLive(counts, a[idx], b[idx]);
        var made, addr := AllocOwned(Struct(fields), owners + out);
        if !made {
          MadeNone(before, counts0, cells, counts, owners, tuples, idx);
          return false, left;
        }
        MadeNext(before, cells1, counts1, cells, counts, owners, tuples, idx);
        out := out + [Ref(addr)];
        idx := idx + 1;
      }
      MadeSoFar(before, cells, counts, owners, tuples, idx);
      MadeNone(before, counts0, cells, counts, owners, tuples, idx);
      ok, res := Finish(out, owners);
    }

    /** The common end of enumerate and zip: put the tuples made into an array and
        give up the call's own reference to each. */
    method Finish(out: seq<Box>, ghost owners: seq<Box>) returns (ok: bool, res: Box)
      requires Balanced(cells, counts, owners + out)
      modifies this
      ensures ok <==> old(|cells|) < limit
      ensures ok ==> res == Ref(old(|cells|)) && cells == old(cells) + [Array(out)]
      ensures ok ==> Balanced(cells, counts, owners + [res])
      ensures !ok ==> cells == old(cells) && counts == old(counts)
    {
      hide Balanced, Live, Refs, Held, Spare;
      OwnersLive(cells, counts, owners + out, out);
      ok, res := AllocArray(out, owners + out);
      if ok {
        OwnersReorder(cells, counts, owners, out, [res]);
        ResultHolds(cells, out, owners + [res]);
        NothingPending(cells, counts, out + (owners + [res]));
        ReleaseBoxes(out, owners + [res], 0, Free);
      }
    }
  }
}

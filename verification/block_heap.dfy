/** The block allocator of goes/elib/heap.go: linked elements and size-indexed free lists. */
module BlockHeap {
  import opened HeapModel

  /** MaxIndex. */
  const NIL: nat := 0xffff_ffff

  datatype Elt = Elt(offset: nat, free: nat, next: nat, prev: nat) {
    predicate SameLinks(e: Elt) { offset == e.offset && next == e.next && prev == e.prev }
  }

  const Poison := Elt(NIL, NIL, NIL, NIL)

  /** How a call ends: normally, or in one of the panics. */
  datatype Outcome = Done | BadSize | Overflow | DuplicateFree | CorruptFreeList

  function NextId(bs: seq<Block>, i: nat): nat { if i + 1 < |bs| then bs[i+1].id else NIL }
  function PrevId(bs: seq<Block>, i: nat): nat { if 0 < i <= |bs| then bs[i-1].id else NIL }

  ghost predicate LinkedAt(elts: seq<Elt>, bs: seq<Block>, i: nat)
    requires i < |bs|
  {
    && bs[i].id < |elts|
    && elts[bs[i].id].offset == bs[i].offset
    && elts[bs[i].id].next == NextId(bs, i)
    && elts[bs[i].id].prev == PrevId(bs, i)
  }

  /** The elements link the blocks of `bs` in order. */
  ghost predicate Chain(elts: seq<Elt>, bs: seq<Block>) {
    forall i :: 0 <= i < |bs| ==> LinkedAt(elts, bs, i)
  }

  ghost predicate FiledAt(elts: seq<Elt>, free: seq<seq<nat>>, home: map<nat, nat>, e: nat)
    requires e in home
  {
    e < |elts| && home[e] < |free| && elts[e].free < |free[home[e]]| && free[home[e]][elts[e].free] == e
  }

  ghost predicate SlotOk(elts: seq<Elt>, free: seq<seq<nat>>, home: map<nat, nat>, l: nat, k: nat)
    requires l < |free| && k < |free[l]|
  {
    var e := free[l][k];
    e in home && home[e] == l && e < |elts| && elts[e].free == k
  }

  /** The free lists hold each free element once, where its `free` index says. */
  ghost predicate Lists(elts: seq<Elt>, free: seq<seq<nat>>, home: map<nat, nat>) {
    && (forall e :: e in home ==> FiledAt(elts, free, home, e))
    && (forall l, k :: 0 <= l < |free| && 0 <= k < |free[l]| ==> SlotOk(elts, free, home, l, k))
    && (forall e :: 0 <= e < |elts| ==> (elts[e].free != NIL <==> e in home))
  }

  /** Recycled elements are no blocks; between them they make up all elements. */
  ghost predicate Recycled(elts: seq<Elt>, removed: seq<nat>, bs: seq<Block>) {
    && |elts| == |bs| + |removed|
    && (forall i :: 0 <= i < |removed| ==> removed[i] < |elts| && !HasId(bs, removed[i]))
    && (forall i, j :: 0 <= i < j < |removed| ==> removed[i] != removed[j])
  }

  /** Recycled elements keep the poison that they were given. */
  ghost predicate Poisoned(elts: seq<Elt>, removed: seq<nat>) {
    forall i :: 0 <= i < |removed| ==> removed[i] < |elts| && elts[removed[i]] == Poison
  }

  /** Only elements that are blocks differ. */
  ghost predicate Untouched(elts: seq<Elt>, elts': seq<Elt>, bs: seq<Block>) {
    |elts'| == |elts| && forall e :: 0 <= e < |elts| && !HasId(bs, e) ==> elts'[e] == elts[e]
  }

  lemma PoisonKept(elts: seq<Elt>, elts': seq<Elt>, removed: seq<nat>, bs: seq<Block>)
    requires Poisoned(elts, removed) && Recycled(elts', removed, bs) && Untouched(elts, elts', bs)
    ensures Poisoned(elts', removed)
  {
  }

  lemma PoisonMore(elts0: seq<Elt>, elts: seq<Elt>, elts': seq<Elt>, removed: seq<nat>, bs: seq<Block>,
                   home: map<nat, nat>,
                   p: nat)
    requires Poisoned(elts0, removed) && Recycled(elts0, removed, bs) && Untouched(elts0, elts, bs)
    requires (forall e :: e in home ==> HasId(bs, e)) && |elts'| == |elts| && p < |elts| && elts'[p] == Poison
    requires forall e :: 0 <= e < |elts| && e !in home ==> elts'[e] == elts[e]
    ensures Poisoned(elts', removed + [p])
  {
    forall i | 0 <= i < |removed| ensures elts'[removed[i]] == Poison {
      assert !HasId(bs, removed[i]);
    }
  }

  lemma UntouchedBut(elts: seq<Elt>, elts': seq<Elt>, bs: seq<Block>, home: map<nat, nat>, ei: nat)
    requires |elts'| == |elts| && HasId(bs, ei) && forall e :: e in home ==> HasId(bs, e)
    requires forall e :: 0 <= e < |elts| && e != ei && e !in home ==> elts'[e] == elts[e]
    ensures Untouched(elts, elts', bs)
  {
  }

  /** An element that is not a block is one of the recycled ones. */
  lemma NotABlock(elts: seq<Elt>, removed: seq<nat>, bs: seq<Block>, e: nat)
    requires Recycled(elts, removed, bs) && DistinctIds(bs) && Chain(elts, bs) && e < |elts| && !HasId(bs, e)
    ensures e in removed
  {
    var ids := seq(|bs|, i requires 0 <= i < |bs| => bs[i].id);
    var all := ids + removed;
    if e !in removed {
      var more := all + [e];
      forall i | 0 <= i < |more| ensures more[i] < |elts| {
        if i < |bs| { assert LinkedAt(elts, bs, i); }
      }
      forall i, j | 0 <= i < j < |more| ensures more[i] != more[j] {
        if i < |bs| {
          assert HasId(bs, more[i]);
        }
      }
      Pigeons(more, |elts|);
    }
  }

  ghost predicate Ends(head: nat, tail: nat, bs: seq<Block>) {
    |bs| > 0 ==> head == bs[0].id && tail == bs[|bs|-1].id
  }

  /** A list of distinct elements is no longer than the row of elements. */
  lemma {:induction false} Pigeons(s: seq<nat>, n: nat)
    requires forall i :: 0 <= i < |s| ==> s[i] < n
    requires forall i, j :: 0 <= i < j < |s| ==> s[i] != s[j]
    ensures |s| <= n
    decreases n
  {
    if |s| > 0 {
      assert s[0] < n;
      if exists i :: 0 <= i < |s| && s[i] == n - 1 {
        var i :| 0 <= i < |s| && s[i] == n - 1;
        Pigeons(s[..i] + s[i+1..], n - 1);
      } else {
        Pigeons(s, n - 1);
      }
    }
  }

  lemma ListShort(elts: seq<Elt>, free: seq<seq<nat>>, home: map<nat, nat>, l: nat)
    requires Lists(elts, free, home) && l < |free|
    ensures |free[l]| <= |elts|
  {
    forall i, j | 0 <= i < j < |free[l]| ensures free[l][i] != free[l][j] {
      assert SlotOk(elts, free, home, l, i) && SlotOk(elts, free, home, l, j);
    }
    forall i | 0 <= i < |free[l]| ensures free[l][i] < |elts| {
      assert SlotOk(elts, free, home, l, i);
    }
    Pigeons(free[l], |elts|);
  }

  /** Appending `ei` to list `h`, which may be the last of some new lists. */
  lemma ListsAppend(elts: seq<Elt>, free: seq<seq<nat>>, home: map<nat, nat>, ei: nat, h: nat)
    requires Lists(elts, free, home) && ei < |elts| < NIL && ei !in home && h < |free|
    ensures |free[h]| < NIL
    ensures Lists(elts[ei := elts[ei].(free := |free[h]|)], free[h := free[h] + [ei]], home[ei := h])
  {
    ListShort(elts, free, home, h);
    var elts', free', home' := elts[ei := elts[ei].(free := |free[h]|)], free[h := free[h] + [ei]], home[ei := h];
    forall e | e in home' ensures FiledAt(elts', free', home', e) {
      if e != ei { assert FiledAt(elts, free, home, e); }
    }
    forall l, k | 0 <= l < |free'| && 0 <= k < |free'[l]| ensures SlotOk(elts', free', home', l, k) {
      if l != h || k < |free[h]| { assert SlotOk(elts, free, home, l, k); }
    }
  }

  lemma ListsGrow(elts: seq<Elt>, free: seq<seq<nat>>, home: map<nat, nat>, n: nat)
    requires Lists(elts, free, home)
    ensures Lists(elts, free + seq(n, _ => []), home)
  {
    var free' := free + seq(n, _ => []);
    forall e | e in home ensures FiledAt(elts, free', home, e) {
      assert FiledAt(elts, free, home, e);
    }
    forall l, k | 0 <= l < |free'| && 0 <= k < |free'[l]| ensures SlotOk(elts, free', home, l, k) {
      assert SlotOk(elts, free, home, l, k);
    }
  }

  /** Unfiling the element at slot `fi` of list `h`: the last one of the list takes its place. */
  function SwapOut(free: seq<seq<nat>>, h: nat, fi: nat): seq<seq<nat>>
    requires h < |free| && fi < |free[h]|
  {
    var l := |free[h]|;
    free[h := (if fi < l - 1 then free[h][fi := free[h][l-1]] else free[h])[..l-1]]
  }

  function SwapElts(elts: seq<Elt>, free: seq<seq<nat>>, h: nat, fi: nat): seq<Elt>
    requires h < |free| && fi < |free[h]| && free[h][|free[h]|-1] < |elts|
  {
    var g := free[h][|free[h]|-1];
    if fi < |free[h]| - 1 then elts[g := elts[g].(free := fi)] else elts
  }

  lemma FiledThere(elts: seq<Elt>, free: seq<seq<nat>>, home: map<nat, nat>, e: nat)
    requires Lists(elts, free, home) && e in home
    ensures e < |elts| && home[e] < |free| && elts[e].free < |free[home[e]]| && free[home[e]][elts[e].free] == e
  {
    assert FiledAt(elts, free, home, e);
  }

  lemma FiledHere(elts: seq<Elt>, free: seq<seq<nat>>, home: map<nat, nat>, h: nat, k: nat)
    requires Lists(elts, free, home) && h < |free| && k < |free[h]|
    ensures free[h][k] in home && home[free[h][k]] == h
    ensures free[h][|free[h]|-1] in home && free[h][|free[h]|-1] < |elts|
  {
    assert SlotOk(elts, free, home, h, k) && SlotOk(elts, free, home, h, |free[h]| - 1);
  }

  lemma ListsSwapOut(elts: seq<Elt>, free: seq<seq<nat>>, home: map<nat, nat>, h: nat, fi: nat, x: Elt)
    requires Lists(elts, free, home) && h < |free| && fi < |free[h]| && x.free == NIL && |elts| <= NIL
    ensures free[h][fi] < |elts| && free[h][|free[h]|-1] < |elts|
    ensures Lists(SwapElts(elts, free, h, fi)[free[h][fi] := x], SwapOut(free, h, fi), home - {free[h][fi]})
  {
    var ei, n := free[h][fi], |free[h]|;
    var g := free[h][n-1];
    assert SlotOk(elts, free, home, h, fi) && SlotOk(elts, free, home, h, n - 1);
    var elts', free', home' := SwapElts(elts, free, h, fi)[ei := x], SwapOut(free, h, fi), home - {ei};
    ListShort(elts, free, home, h);
    forall e | e in home' ensures FiledAt(elts', free', home', e) {
      assert FiledAt(elts, free, home, e);
    }
    forall l, k | 0 <= l < |free'| && 0 <= k < |free'[l]| ensures SlotOk(elts', free', home', l, k) {
      assert SlotOk(elts, free, home, l, k);
    }
  }

  lemma NotAnId(bs: seq<Block>, e: nat)
    requires !HasId(bs, e)
    ensures forall i :: 0 <= i < |bs| ==> bs[i].id != e
  {
    forall i | 0 <= i < |bs| ensures bs[i].id != e {
      assert bs[i].id == e ==> HasId(bs, e);
    }
  }

  lemma ChainFrame(elts: seq<Elt>, elts': seq<Elt>, bs: seq<Block>)
    requires Chain(elts, bs) && |elts| <= |elts'|
    requires forall i :: 0 <= i < |bs| && bs[i].id < |elts| ==> elts'[bs[i].id].SameLinks(elts[bs[i].id])
    ensures Chain(elts', bs)
  {
    forall i | 0 <= i < |bs| ensures LinkedAt(elts', bs, i) {
      assert LinkedAt(elts, bs, i);
    }
  }

  lemma ChainFresh(elts: seq<Elt>, bs: seq<Block>)
    requires Chain(elts, bs)
    ensures !HasId(bs, |elts|)
  {
    forall i | 0 <= i < |bs| ensures bs[i].id < |elts| {
      assert LinkedAt(elts, bs, i);
    }
  }

  /** Making a block of a recycled element. */
  lemma RecycledPop(elts: seq<Elt>, removed: seq<nat>, bs: seq<Block>, elts': seq<Elt>, x: Block, i: nat)
    requires Recycled(elts, removed, bs) && i <= |bs| && |removed| > 0 && |elts'| == |elts|
    requires x.id == removed[|removed|-1]
    ensures Recycled(elts', removed[..|removed|-1], bs[..i] + [x] + bs[i..])
  {
    var bs' := bs[..i] + [x] + bs[i..];
    forall k | 0 <= k < |removed| - 1 ensures !HasId(bs', removed[k]) {
      NotAnId(bs, removed[k]);
    }
  }

  lemma RecycledNew(elts: seq<Elt>, bs: seq<Block>, elts': seq<Elt>, x: Block, i: nat)
    requires Recycled(elts, [], bs) && i <= |bs| && |elts'| == |elts| + 1
    ensures Recycled(elts', [], bs[..i] + [x] + bs[i..])
  {
  }

  lemma EmptyOk()
    ensures Ok(Model([], map[], 0, 0), 0)
  {
  }

  // ---- links around a merge or a cut ----

  /** Element `e` with a new successor (`MaxIndex` has none). */
  function SetNext(elts: seq<Elt>, e: nat, v: nat): seq<Elt> {
    if e < |elts| then elts[e := elts[e].(next := v)] else elts
  }

  function SetPrev(elts: seq<Elt>, e: nat, v: nat): seq<Elt> {
    if e < |elts| then elts[e := elts[e].(prev := v)] else elts
  }

  /** Block `i` takes over offset and predecessor of the one before it. */
  function LinkMergePrev(elts: seq<Elt>, e: nat, p: nat): seq<Elt>
    requires e < |elts| && p < |elts|
  {
    SetNext(elts[e := elts[e].(offset := elts[p].offset, prev := elts[p].prev)], elts[p].prev, e)
  }

  lemma ChainMergePrev(elts: seq<Elt>, m: Model, i: nat)
    requires Chain(elts, m.bs) && DistinctIds(m.bs) && 0 < i < |m.bs| && |elts| <= NIL
    ensures m.bs[i].id < |elts| && m.bs[i-1].id < |elts|
    ensures elts[m.bs[i-1].id].prev == PrevId(m.bs, i - 1)
    ensures Untouched(elts, LinkMergePrev(elts, m.bs[i].id, m.bs[i-1].id), m.bs)
    ensures Chain(LinkMergePrev(elts, m.bs[i].id, m.bs[i-1].id), MergePrev(m, i).bs)
  {
    var bs := m.bs;
    assert LinkedAt(elts, bs, i) && LinkedAt(elts, bs, i - 1);
    if i > 1 { assert LinkedAt(elts, bs, i - 2); }
    var elts', bs' := LinkMergePrev(elts, bs[i].id, bs[i-1].id), MergePrev(m, i).bs;
    forall k | 0 <= k < |bs'| ensures LinkedAt(elts', bs', k) {
      var g := if k < i - 1 then k else k + 1;
      assert LinkedAt(elts, bs, g);
      assert g != i ==> bs[g].id != bs[i].id;
      assert i > 1 && g != i - 2 ==> bs[g].id != bs[i-2].id;
    }
  }

  /** Block `i` takes over the successor of the one after it. */
  function LinkMergeNext(elts: seq<Elt>, e: nat, n: nat): seq<Elt>
    requires e < |elts| && n < |elts|
  {
    SetPrev(elts[e := elts[e].(next := elts[n].next)], elts[n].next, e)
  }

  lemma ChainMergeNext(elts: seq<Elt>, m: Model, i: nat)
    requires Chain(elts, m.bs) && DistinctIds(m.bs) && i + 1 < |m.bs| && |elts| <= NIL
    ensures m.bs[i].id < |elts| && m.bs[i+1].id < |elts|
    ensures elts[m.bs[i+1].id].next == NextId(m.bs, i + 1)
    ensures Untouched(elts, LinkMergeNext(elts, m.bs[i].id, m.bs[i+1].id), m.bs)
    ensures Chain(LinkMergeNext(elts, m.bs[i].id, m.bs[i+1].id), MergeNext(m, i).bs)
  {
    var bs := m.bs;
    assert LinkedAt(elts, bs, i) && LinkedAt(elts, bs, i + 1);
    if i + 2 < |bs| { assert LinkedAt(elts, bs, i + 2); }
    var elts', bs' := LinkMergeNext(elts, bs[i].id, bs[i+1].id), MergeNext(m, i).bs;
    forall k | 0 <= k < |bs'| ensures LinkedAt(elts', bs', k) {
      var g := if k <= i then k else k + 1;
      assert LinkedAt(elts, bs, g);
      assert g != i ==> bs[g].id != bs[i].id;
      assert i + 2 < |bs| && g != i + 2 ==> bs[g].id != bs[i+2].id;
    }
  }

  /** New element `f` behind element `e`, cutting it at `offset`. */
  function LinkAfter(elts: seq<Elt>, e: nat, f: nat, offset: nat): seq<Elt>
    requires e < |elts| && f < |elts|
  {
    var n := elts[e].next;
    SetPrev(elts[f := elts[f].(offset := offset, next := n, prev := e)], n, f)[e := elts[e].(next := f)]
  }

  lemma ChainCutAt(elts: seq<Elt>, m: Model, i: nat, size: nat, f: nat)
    requires Chain(elts, m.bs) && DistinctIds(m.bs) && i < |m.bs| && |elts| <= NIL
    requires f < |elts| && !HasId(m.bs, f) && size < m.bs[i].size
    ensures m.bs[i].id < |elts|
    ensures Chain(LinkAfter(elts, m.bs[i].id, f, m.bs[i].offset + size), CutAt(m, i, size, f).bs)
    ensures Untouched(elts, LinkAfter(elts, m.bs[i].id, f, m.bs[i].offset + size), CutAt(m, i, size, f).bs)
  {
    var bs := m.bs;
    NotAnId(bs, f);
    assert LinkedAt(elts, bs, i);
    if i + 1 < |bs| { assert LinkedAt(elts, bs, i + 1); }
    var elts', bs' := LinkAfter(elts, bs[i].id, f, bs[i].offset + size), CutAt(m, i, size, f).bs;
    forall k | 0 <= k < |bs'| ensures LinkedAt(elts', bs', k) {
      if k != i + 1 {
        var g := if k <= i then k else k - 1;
        assert LinkedAt(elts, bs, g);
        assert g != i ==> bs[g].id != bs[i].id;
        assert i + 1 < |bs| && g != i + 1 ==> bs[g].id != bs[i+1].id;
      }
    }
    assert bs'[i].id == bs[i].id && bs'[i+1].id == f && (i + 1 < |bs| ==> bs'[i+2].id == bs[i+1].id);
  }

  /** New element `f` in front of element `e`, which now starts at `offset`. */
  function LinkBefore(elts: seq<Elt>, e: nat, f: nat, offset: nat): seq<Elt>
    requires e < |elts| && f < |elts|
  {
    var p := elts[e].prev;
    var made := SetNext(elts[f := elts[f].(offset := elts[e].offset, next := e, prev := p)], p, f);
    made[e := elts[e].(offset := offset, prev := f)]
  }

  lemma LinkedCutFront(elts: seq<Elt>, m: Model, i: nat, size: nat, f: nat, k: nat)
    requires Chain(elts, m.bs) && DistinctIds(m.bs) && i < |m.bs| && |elts| <= NIL && m.bs[i].id < |elts|
    requires f < |elts| && !HasId(m.bs, f) && size < m.bs[i].size && k < |m.bs| && k != i
    ensures LinkedAt(LinkBefore(elts, m.bs[i].id, f, m.bs[i].offset + size),
      CutFront(m, i, size, f).bs, if k < i then k else k + 1)
  {
    var bs := m.bs;
    NotAnId(bs, f);
    assert LinkedAt(elts, bs, i) && LinkedAt(elts, bs, k);
    assert bs[k].id != bs[i].id;
    if i > 0 {
      assert LinkedAt(elts, bs, i - 1);
      assert k != i - 1 ==> bs[k].id != bs[i-1].id;
    }
    hide DistinctIds, Chain, HasId;
  }

  lemma ChainCutFront(elts: seq<Elt>, m: Model, i: nat, size: nat, f: nat)
    requires Chain(elts, m.bs) && DistinctIds(m.bs) && i < |m.bs| && |elts| <= NIL
    requires f < |elts| && !HasId(m.bs, f) && size < m.bs[i].size
    ensures m.bs[i].id < |elts|
    ensures Chain(LinkBefore(elts, m.bs[i].id, f, m.bs[i].offset + size), CutFront(m, i, size, f).bs)
    ensures Untouched(elts, LinkBefore(elts, m.bs[i].id, f, m.bs[i].offset + size), CutFront(m, i, size, f).bs)
  {
    var bs := m.bs;
    NotAnId(bs, f);
    assert LinkedAt(elts, bs, i);
    if i > 0 {
      assert LinkedAt(elts, bs, i - 1);
      assert bs[i].id != bs[i-1].id;
    }
    hide DistinctIds, HasId;
    var elts', bs' := LinkBefore(elts, bs[i].id, f, bs[i].offset + size), CutFront(m, i, size, f).bs;
    forall k | 0 <= k < |bs'| ensures LinkedAt(elts', bs', k) {
      if k < i {
        LinkedCutFront(elts, m, i, size, f, k);
      } else if k > i + 1 {
        LinkedCutFront(elts, m, i, size, f, k - 1);
      }
    }
    IdAt(bs', i);
    IdAt(bs', i + 1);
    if i > 0 { IdAt(bs', i - 1); }
  }

  lemma IdAt(bs: seq<Block>, i: nat)
    requires i < |bs|
    ensures HasId(bs, bs[i].id)
  {
  }

  /** New element `f` behind the last one. */
  function LinkLast(elts: seq<Elt>, t: nat, f: nat, offset: nat): seq<Elt>
    requires f < |elts|
  {
    SetNext(elts[f := Elt(offset, NIL, NIL, t)], t, f)
  }

  lemma ChainExtend(elts: seq<Elt>, m: Model, len: nat, f: nat, size: nat)
    requires Chain(elts, m.bs) && Ok(m, len) && |elts| <= NIL && f < |elts| && !HasId(m.bs, f)
    ensures Chain(LinkLast(elts, PrevId(m.bs, |m.bs|), f, len), Extend(m, f, len, size).bs)
    ensures Untouched(elts, LinkLast(elts, PrevId(m.bs, |m.bs|), f, len), Extend(m, f, len, size).bs)
  {
    var bs := m.bs;
    NotAnId(bs, f);
    if |bs| > 0 { assert LinkedAt(elts, bs, |bs| - 1); }
    var elts', bs' := LinkLast(elts, PrevId(bs, |bs|), f, len), Extend(m, f, len, size).bs;
    forall k | 0 <= k < |bs'| ensures LinkedAt(elts', bs', k) {
      if k < |bs| {
        assert LinkedAt(elts, bs, k);
        assert k != |bs| - 1 ==> bs[k].id != bs[|bs|-1].id;
      }
    }
    IdAt(bs', |bs|);
    if |bs| > 0 { IdAt(bs', |bs| - 1); }
  }

  ghost function IndexOfId(bs: seq<Block>, e: nat): (i: nat)
    requires HasId(bs, e)
    ensures i < |bs| && bs[i].id == e
  {
    var i :| 0 <= i < |bs| && bs[i].id == e; i
  }

  lemma IndexOfIdUnique(bs: seq<Block>, i: nat)
    requires DistinctIds(bs) && i < |bs|
    ensures HasId(bs, bs[i].id) && IndexOfId(bs, bs[i].id) == i
  {
    assert HasId(bs, bs[i].id);
  }

  lemma IdOfBlock(elts: seq<Elt>, bs: seq<Block>, i: nat)
    requires Chain(elts, bs) && i < |bs|
    ensures bs[i].id < |elts| && elts[bs[i].id].offset == bs[i].offset && HasId(bs, bs[i].id)
  {
    assert LinkedAt(elts, bs, i);
  }

  lemma TilesEnd(bs: seq<Block>, len: nat, i: nat)
    requires Tiles(bs, len) && i < |bs|
    ensures bs[i].End() == if i + 1 < |bs| then bs[i+1].offset else len
    ensures i > 0 ==> bs[i-1].offset + bs[i-1].size == bs[i].offset
  {
    if i > 0 { assert bs[i-1].End() == bs[i].offset; }
  }

  lemma ListsFrame(elts: seq<Elt>, elts': seq<Elt>, free: seq<seq<nat>>, home: map<nat, nat>)
    requires Lists(elts, free, home) && |elts'| == |elts|
    requires forall e :: 0 <= e < |elts| ==> elts'[e].free == elts[e].free
    ensures Lists(elts', free, home)
  {
    forall e | e in home ensures FiledAt(elts', free, home, e) {
      assert FiledAt(elts, free, home, e);
    }
    forall l, k | 0 <= l < |free| && 0 <= k < |free[l]| ensures SlotOk(elts', free, home, l, k) {
      assert SlotOk(elts, free, home, l, k);
    }
  }

  /** What the fields of block `i` and its predecessor say of the model. */
  lemma PrevFacts(elts: seq<Elt>, free: seq<seq<nat>>, m: Model, len: nat, i: nat)
    requires Ok(m, len) && Chain(elts, m.bs) && Lists(elts, free, m.home) && i < |m.bs| && |elts| < NIL
    requires |free| == m.nLists
    ensures m.bs[i].id < |elts| && elts[m.bs[i].id].prev == PrevId(m.bs, i)
    ensures elts[m.bs[i].id].free != NIL <==> m.bs[i].id in m.home
    ensures elts[m.bs[i].id].prev == NIL <==> i == 0
    ensures i > 0 ==> m.bs[i-1].id < |elts| && (elts[m.bs[i-1].id].free != NIL <==> m.bs[i-1].id in m.home)
    ensures i > 0 ==> elts[m.bs[i].id].offset - elts[m.bs[i-1].id].offset == m.bs[i-1].size
    ensures i > 0 && m.bs[i-1].id in m.home ==>
      (Misfiled(m, i - 1) <==> m.home[m.bs[i-1].id] != if m.bs[i-1].size >= |free| then 0 else m.bs[i-1].size)
  {
    assert LinkedAt(elts, m.bs, i);
    if i > 0 {
      assert LinkedAt(elts, m.bs, i - 1);
      TilesEnd(m.bs, len, i);
      assert m.bs[i-1].id in m.home ==> FiledAt(elts, free, m.home, m.bs[i-1].id);
    }
  }

  lemma NextFacts(elts: seq<Elt>, free: seq<seq<nat>>, m: Model, len: nat, i: nat)
    requires Ok(m, len) && Chain(elts, m.bs) && Lists(elts, free, m.home) && i < |m.bs| && |elts| < NIL
    requires |free| == m.nLists
    ensures m.bs[i].id < |elts| && elts[m.bs[i].id].next == NextId(m.bs, i)
    ensures elts[m.bs[i].id].next == NIL <==> i + 1 == |m.bs|
    ensures i + 1 < |m.bs| ==> m.bs[i+1].id < |elts| && (elts[m.bs[i+1].id].free != NIL <==> m.bs[i+1].id in m.home)
    ensures i + 1 < |m.bs| && m.bs[i+1].id in m.home ==>
      (Misfiled(m, i + 1) <==> m.home[m.bs[i+1].id] != if m.bs[i+1].size >= |free| then 0 else m.bs[i+1].size)
  {
    assert LinkedAt(elts, m.bs, i);
    if i + 1 < |m.bs| {
      assert LinkedAt(elts, m.bs, i + 1);
      assert m.bs[i+1].id in m.home ==> FiledAt(elts, free, m.home, m.bs[i+1].id);
    }
  }

  /** Links and recycling around swallowing block `i - 1`. */
  lemma MergePrevFacts(elts: seq<Elt>, removed: seq<nat>, m: Model, len: nat, i: nat)
    requires Ok(m, len) && Chain(elts, m.bs) && Recycled(elts, removed, m.bs) && 0 < i < |m.bs| && |elts| < NIL
    ensures m.bs[i].id < |elts| && m.bs[i-1].id < |elts| && m.bs[i].id != m.bs[i-1].id
    ensures elts[m.bs[i-1].id].prev == NIL || elts[m.bs[i-1].id].prev < |elts|
    ensures elts[m.bs[i-1].id].prev != m.bs[i].id
    ensures Chain(LinkMergePrev(elts, m.bs[i].id, m.bs[i-1].id), MergePrev(m, i).bs)
    ensures Untouched(elts, LinkMergePrev(elts, m.bs[i].id, m.bs[i-1].id), m.bs)
    ensures !HasId(MergePrev(m, i).bs, m.bs[i-1].id)
    ensures forall e: seq<Elt> :: |e| == |elts| ==> Recycled(e, removed + [m.bs[i-1].id], MergePrev(m, i).bs)
    ensures MergePrev(m, i) == Model(MergePrev(m, i).bs, m.home - {m.bs[i-1].id}, m.nLists, m.maxSize)
    ensures forall h, t :: Ends(h, t, m.bs) ==> Ends(if m.bs[i-1].id == h then m.bs[i].id else h, t, MergePrev(m, i).bs)
  {
    ChainMergePrev(elts, m, i);
    if i > 1 { assert LinkedAt(elts, m.bs, i - 2); }
    var bs' := MergePrev(m, i).bs;
    forall k | 0 <= k < |bs'| ensures exists g :: 0 <= g < |m.bs| && g != i - 1 && m.bs[g].id == bs'[k].id {
      assert m.bs[if k < i - 1 then k else k + 1].id == bs'[k].id;
    }
    RecycledMerge(elts, removed, m.bs, bs', i - 1);
  }

  lemma MergeNextFacts(elts: seq<Elt>, removed: seq<nat>, m: Model, len: nat, i: nat)
    requires Ok(m, len) && Chain(elts, m.bs) && Recycled(elts, removed, m.bs) && i + 1 < |m.bs| && |elts| < NIL
    ensures m.bs[i].id < |elts| && m.bs[i+1].id < |elts| && m.bs[i].id != m.bs[i+1].id
    ensures elts[m.bs[i+1].id].next == NIL || elts[m.bs[i+1].id].next < |elts|
    ensures elts[m.bs[i+1].id].next != m.bs[i].id
    ensures Chain(LinkMergeNext(elts, m.bs[i].id, m.bs[i+1].id), MergeNext(m, i).bs)
    ensures Untouched(elts, LinkMergeNext(elts, m.bs[i].id, m.bs[i+1].id), m.bs)
    ensures !HasId(MergeNext(m, i).bs, m.bs[i+1].id)
    ensures forall e: seq<Elt> :: |e| == |elts| ==> Recycled(e, removed + [m.bs[i+1].id], MergeNext(m, i).bs)
    ensures MergeNext(m, i) == Model(MergeNext(m, i).bs, m.home - {m.bs[i+1].id}, m.nLists, m.maxSize)
    ensures forall h, t :: Ends(h, t, m.bs) ==> Ends(h, if m.bs[i+1].id == t then m.bs[i].id else t, MergeNext(m, i).bs)
  {
    hide Chain, Recycled, LinkMergeNext, HasId;
    ChainMergeNext(elts, m, i);
    MergeNextLinks(elts, m, len, i);
    MergeNextGone(elts, removed, m, len, i);
  }

  lemma MergeNextLinks(elts: seq<Elt>, m: Model, len: nat, i: nat)
    requires Ok(m, len) && Chain(elts, m.bs) && i + 1 < |m.bs| && |elts| < NIL
    ensures m.bs[i].id < |elts| && m.bs[i+1].id < |elts| && m.bs[i].id != m.bs[i+1].id
    ensures elts[m.bs[i+1].id].next == NIL || elts[m.bs[i+1].id].next < |elts|
    ensures elts[m.bs[i+1].id].next != m.bs[i].id
    ensures Untouched(elts, LinkMergeNext(elts, m.bs[i].id, m.bs[i+1].id), m.bs)
    ensures forall h, t :: Ends(h, t, m.bs) ==> Ends(h, if m.bs[i+1].id == t then m.bs[i].id else t, MergeNext(m, i).bs)
  {
    assert LinkedAt(elts, m.bs, i) && LinkedAt(elts, m.bs, i + 1);
    if i + 2 < |m.bs| { assert LinkedAt(elts, m.bs, i + 2); }
  }

  lemma MergeNextGone(elts: seq<Elt>, removed: seq<nat>, m: Model, len: nat, i: nat)
    requires Ok(m, len) && Recycled(elts, removed, m.bs) && i + 1 < |m.bs| && m.bs[i+1].id < |elts|
    ensures !HasId(MergeNext(m, i).bs, m.bs[i+1].id)
    ensures forall e: seq<Elt> :: |e| == |elts| ==> Recycled(e, removed + [m.bs[i+1].id], MergeNext(m, i).bs)
  {
    hide Recycled, HasId;
    var bs' := MergeNext(m, i).bs;
    forall k | 0 <= k < |bs'| ensures exists g :: 0 <= g < |m.bs| && g != i + 1 && m.bs[g].id == bs'[k].id {
      assert m.bs[if k <= i then k else k + 1].id == bs'[k].id;
    }
    RecycledMerge(elts, removed, m.bs, bs', i + 1);
  }

  lemma RecycledMerge(elts: seq<Elt>, removed: seq<nat>, bs: seq<Block>, bs': seq<Block>, p: nat)
    requires Recycled(elts, removed, bs) && p < |bs| && bs[p].id < |elts| && DistinctIds(bs) && |bs'| + 1 == |bs|
    requires forall k :: 0 <= k < |bs'| ==> exists g :: 0 <= g < |bs| && g != p && bs[g].id == bs'[k].id
    ensures !HasId(bs', bs[p].id)
    ensures forall e: seq<Elt> :: |e| == |elts| ==> Recycled(e, removed + [bs[p].id], bs')
  {
    forall e | HasId(bs', e) ensures HasId(bs, e) && e != bs[p].id {
    }
    assert HasId(bs, bs[p].id);
  }

  /** Poisoning an element that is no block. */
  lemma ChainWithout(elts: seq<Elt>, elts': seq<Elt>, bs: seq<Block>, p: nat)
    requires Chain(elts, bs) && !HasId(bs, p) && |elts'| == |elts|
    requires forall e :: 0 <= e < |elts| && e != p ==> elts'[e].SameLinks(elts[e])
    ensures Chain(elts', bs)
  {
    NotAnId(bs, p);
    ChainFrame(elts, elts', bs);
  }

  // ---- what the lists say of the model ----

  lemma ListEntry(elts: seq<Elt>, free: seq<seq<nat>>, m: Model, l: nat, k: nat) returns (i: nat)
    requires Lists(elts, free, m.home) && Homes(m) && l < |free| && k < |free[l]|
    ensures free[l][k] in m.home && m.home[free[l][k]] == l && free[l][k] < |elts| && elts[free[l][k]].free == k
    ensures i < |m.bs| && m.bs[i].id == free[l][k]
  {
    assert SlotOk(elts, free, m.home, l, k);
    assert HasId(m.bs, free[l][k]);
    i :| 0 <= i < |m.bs| && m.bs[i].id == free[l][k];
  }

  /** An empty list: nothing of that size is free. */
  lemma EmptyList(elts: seq<Elt>, free: seq<seq<nat>>, m: Model, size: nat)
    requires Lists(elts, free, m.home) && Homes(m) && |free| == m.nLists
    requires size >= |free| || free[size] == []
    ensures NoneExact(m, size)
  {
    forall i | 0 <= i < |m.bs| ensures !Exact(m, i, size) {
      assert m.bs[i].id in m.home ==> FiledAt(elts, free, m.home, m.bs[i].id);
    }
  }

  /** Every block of list 0 is an entry of list 0. */
  lemma List0(elts: seq<Elt>, free: seq<seq<nat>>, m: Model, i: nat)
    requires Lists(elts, free, m.home) && i < |m.bs| && m.bs[i].id in m.home && m.home[m.bs[i].id] == 0
    ensures |free| > 0 && m.bs[i].id in free[0]
  {
    assert FiledAt(elts, free, m.home, m.bs[i].id);
  }

  lemma ExtendFacts(elts: seq<Elt>, removed: seq<nat>, m: Model, len: nat, head: nat, tail: nat)
    requires Ok(m, len) && Chain(elts, m.bs) && Ends(head, tail, m.bs)
    ensures len == 0 <==> |m.bs| == 0
    ensures |m.bs| > 0 ==> tail == PrevId(m.bs, |m.bs|) && tail < |elts|
  {
    TilesTotal(m.bs, len);
    if |m.bs| > 0 { assert LinkedAt(elts, m.bs, |m.bs| - 1); }
  }

  lemma ExtendEnds(m: Model, id: nat, len: nat, size: nat, head0: nat, tail0: nat, head: nat)
    requires Ends(head0, tail0, m.bs) && head == if |m.bs| == 0 then id else head0
    ensures Ends(head, id, Extend(m, id, len, size).bs)
    ensures Extend(m, id, len, size).bs == m.bs[..|m.bs|] + [Block(id, len, size)] + m.bs[|m.bs|..]
    ensures Extend(m, id, len, size) == Model(Extend(m, id, len, size).bs, m.home, m.nLists, m.maxSize)
  {
  }

  lemma CutAtFacts(elts: seq<Elt>, m: Model, len: nat, i: nat, size: nat, f: nat, head: nat, tail: nat)
    requires Ok(m, len) && Chain(elts, m.bs) && i < |m.bs| && size < m.bs[i].size && Ends(head, tail, m.bs)
    requires f < |elts| <= NIL && !HasId(m.bs, f)
    ensures m.bs[i].id < |elts| && m.bs[i].id != f
    ensures elts[m.bs[i].id].next == NIL || elts[m.bs[i].id].next < |elts|
    ensures elts[m.bs[i].id].next != f && elts[m.bs[i].id].next != m.bs[i].id
    ensures elts[m.bs[i].id].next == NIL <==> m.bs[i].id == tail
    ensures Chain(LinkAfter(elts, m.bs[i].id, f, m.bs[i].offset + size), CutAt(m, i, size, f).bs)
    ensures Untouched(elts, LinkAfter(elts, m.bs[i].id, f, m.bs[i].offset + size), CutAt(m, i, size, f).bs)
    ensures Ends(head, if m.bs[i].id == tail then f else tail, CutAt(m, i, size, f).bs)
    ensures CutAt(m, i, size, f) == Model(CutAt(m, i, size, f).bs, m.home, m.nLists, m.maxSize)
  {
    NotAnId(m.bs, f);
    assert LinkedAt(elts, m.bs, i);
    if i + 1 < |m.bs| {
      assert LinkedAt(elts, m.bs, i + 1);
      assert m.bs[i+1].id != m.bs[i].id && m.bs[|m.bs|-1].id != m.bs[i].id;
    }
    ChainCutAt(elts, m, i, size, f);
  }

  lemma RecycledCut(elts: seq<Elt>, removed: seq<nat>, m: Model, i: nat, r: seq<Block>, x: Block)
    requires i < |m.bs| && |r| == |m.bs| + 1
    requires Recycled(elts, removed, m.bs[..i] + [x] + m.bs[i..])
    requires forall e :: HasId(r, e) ==> HasId(m.bs, e) || e == x.id
    ensures Recycled(elts, removed, r)
  {
    var q := m.bs[..i] + [x] + m.bs[i..];
    forall e | HasId(m.bs, e) || e == x.id ensures HasId(q, e) {
      if e == x.id {
        assert q[i].id == e;
      } else {
        var k :| 0 <= k < |m.bs| && m.bs[k].id == e;
        assert q[if k < i then k else k + 1].id == e;
      }
    }
  }

  lemma CutAtIds(m: Model, i: nat, size: nat, f: nat)
    requires i < |m.bs| && size < m.bs[i].size
    ensures |CutAt(m, i, size, f).bs| == |CutFront(m, i, size, f).bs| == |m.bs| + 1
    ensures forall e :: HasId(CutAt(m, i, size, f).bs, e) ==> HasId(m.bs, e) || e == f
    ensures forall e :: HasId(CutFront(m, i, size, f).bs, e) ==> HasId(m.bs, e) || e == f
  {
    var r, q := CutAt(m, i, size, f).bs, CutFront(m, i, size, f).bs;
    forall e | HasId(r, e) ensures HasId(m.bs, e) || e == f {
      var k :| 0 <= k < |r| && r[k].id == e;
      assert k != i + 1 ==> m.bs[if k <= i then k else k - 1].id == e;
    }
    forall e | HasId(q, e) ensures HasId(m.bs, e) || e == f {
      var k :| 0 <= k < |q| && q[k].id == e;
      assert k != i ==> m.bs[if k < i then k else k - 1].id == e;
    }
  }

  lemma CutFrontFacts(elts: seq<Elt>, m: Model, len: nat, i: nat, size: nat, f: nat, head: nat, tail: nat)
    requires Ok(m, len) && Chain(elts, m.bs) && i < |m.bs| && size < m.bs[i].size && Ends(head, tail, m.bs)
    requires f < |elts| <= NIL && !HasId(m.bs, f)
    ensures m.bs[i].id < |elts| && m.bs[i].id != f
    ensures elts[m.bs[i].id].prev == NIL || elts[m.bs[i].id].prev < |elts|
    ensures elts[m.bs[i].id].prev != f && elts[m.bs[i].id].prev != m.bs[i].id
    ensures elts[m.bs[i].id].prev == NIL <==> i == 0
    ensures elts[m.bs[i].id].offset == m.bs[i].offset
    ensures Chain(LinkBefore(elts, m.bs[i].id, f, m.bs[i].offset + size), CutFront(m, i, size, f).bs)
    ensures Untouched(elts, LinkBefore(elts, m.bs[i].id, f, m.bs[i].offset + size), CutFront(m, i, size, f).bs)
    ensures Ends(if i == 0 then f else head, tail, CutFront(m, i, size, f).bs)
    ensures CutFront(m, i, size, f) == Model(CutFront(m, i, size, f).bs, m.home, m.nLists, m.maxSize)
  {
    NotAnId(m.bs, f);
    assert LinkedAt(elts, m.bs, i);
    if i > 0 {
      assert LinkedAt(elts, m.bs, i - 1);
      assert m.bs[i-1].id != m.bs[i].id;
    }
    ChainCutFront(elts, m, i, size, f);
  }

  lemma CutNeighbours(m: Model, i: nat, size: nat, f: nat)
    requires i < |m.bs| && size < m.bs[i].size && m.bs[i].id !in m.home && f !in m.home
    requires !PrevFree(m, i) && !NextFree(m, i)
    ensures var c := CutAt(m, i, size, f);
            && i + 1 < |c.bs| && c.bs[i+1] == Block(f, m.bs[i].offset + size, m.bs[i].size - size)
            && !PrevFree(c, i + 1) && !NextFree(c, i + 1)
  {
    var c := CutAt(m, i, size, f);
    assert i + 2 < |c.bs| ==> c.bs[i+2] == m.bs[i+1];
  }

  lemma SwapFacts(elts: seq<Elt>, free: seq<seq<nat>>, home: map<nat, nat>, l: nat, k: nat)
    requires Lists(elts, free, home) && l < |free| && k < |free[l]|
    ensures free[l][k] < |elts| && free[l][|free[l]|-1] < |elts|
    ensures k < |free[l]| - 1 ==> free[l][|free[l]|-1] != free[l][k]
    ensures free[l][|free[l]|-1] in home
    ensures SwapElts(elts, free, l, k) ==
      if k < |free[l]| - 1 then elts[free[l][|free[l]|-1] := elts[free[l][|free[l]|-1]].(free := k)] else elts
    ensures SwapOut(free, l, k) ==
      free[l := (if k < |free[l]| - 1 then free[l][k := free[l][|free[l]|-1]] else free[l])[..|free[l]|-1]]
  {
    assert SlotOk(elts, free, home, l, k) && SlotOk(elts, free, home, l, |free[l]| - 1);
  }

  lemma EntryOf(elts: seq<Elt>, free: seq<seq<nat>>, m: Model, len: nat, l: nat, k: nat) returns (i: nat)
    requires Lists(elts, free, m.home) && Ok(m, len) && l < |free| && k < |free[l]|
    ensures free[l][k] in m.home && m.home[free[l][k]] == l && free[l][k] < |elts|
    ensures i < |m.bs| && m.bs[i].id == free[l][k]
    ensures l > 0 ==> m.bs[i].size == l
  {
    i := ListEntry(elts, free, m, l, k);
  }

  lemma NoBlockExact(m: Model, size: nat)
    requires NoneExact(m, size)
    ensures forall i :: 0 <= i < |m.bs| ==> !Exact(m, i, size)
  {
  }

  lemma TakenPos(m: Model, len: nat, i: nat)
    requires Ok(m, len) && i < |m.bs|
    ensures HasId(m.bs, m.bs[i].id) && IndexOfId(m.bs, m.bs[i].id) == i
  {
    IndexOfIdUnique(m.bs, i);
  }

  lemma SplitPos(m: Model, len: nat, i: nat, size: nat, f: nat)
    requires Ok(m, len) && i < |m.bs| && m.IsFree(i) && 0 < size <= m.bs[i].size && !HasId(m.bs, f)
    ensures HasId(m.bs, m.bs[i].id) && IndexOfId(m.bs, m.bs[i].id) == i
    ensures var r := SplitAt(m, i, size, f);
      HasId(r.bs, m.bs[i].id) && IndexOfId(r.bs, m.bs[i].id) == i && r.bs[i].offset == m.bs[i].offset
    ensures size == m.bs[i].size ==> SplitAt(m, i, size, f) == TakeAt(m, i)
    ensures size < m.bs[i].size ==> SplitAt(m, i, size, f) == FreeAt(CutAt(TakeAt(m, i), i, size, f), i + 1)
  {
    SplitAtOk(m, len, i, size, f);
    IndexOfIdUnique(m.bs, i);
    IndexOfIdUnique(SplitAt(m, i, size, f).bs, i);
  }

  lemma ExtendPos(m: Model, len: nat, id: nat, size: nat)
    requires Ok(m, len) && size > 0 && !HasId(m.bs, id)
    ensures var r := Extend(m, id, len, size);
      HasId(r.bs, id) && IndexOfId(r.bs, id) == |m.bs| && r.bs[|m.bs|].offset == len
  {
    ExtendOk(m, len, id, size);
    IndexOfIdUnique(Extend(m, id, len, size).bs, |m.bs|);
  }

  lemma NothingExact(elts: seq<Elt>, free: seq<seq<nat>>, m: Model, len: nat, size: nat)
    requires Lists(elts, free, m.home) && Ok(m, len) && |free| == m.nLists && (size >= |free| || free[size] == [])
    ensures NoneExact(m, size)
  {
    EmptyList(elts, free, m, size);
  }

  lemma NothingFits(elts: seq<Elt>, free: seq<seq<nat>>, m: Model, size: nat)
    requires Lists(elts, free, m.home)
    requires |free| > 0 ==>
      (forall k, i :: 0 <= k < |free[0]| && 0 <= i < |m.bs| && m.bs[i].id == free[0][k] ==> m.bs[i].size < size)
    ensures NoneFits(m, size)
  {
    forall i | 0 <= i < |m.bs| ensures !Fits(m, i, size) {
      if m.bs[i].id in m.home && m.home[m.bs[i].id] == 0 {
        List0(elts, free, m, i);
      }
    }
  }

  lemma OnlyEntry(m: Model, len: nat, i: nat)
    requires Ok(m, len) && i < |m.bs|
    ensures forall j :: 0 <= j < |m.bs| && m.bs[j].id == m.bs[i].id ==> j == i
  {
  }

  lemma TilesTotalOk(m: Model, len: nat)
    requires Ok(m, len)
    ensures |m.bs| <= len
  {
    TilesTotal(m.bs, len);
  }

  /** Nothing free serves the request and there is no room to grow. */
  ghost predicate Overflows(m: Model, size: nat, len: nat, maxLen: nat) {
    NoneExact(m, size) && NoneFits(m, size) && maxLen != 0 && len + size > maxLen
  }

  /** When an aligned request runs into a misfiled block: it is served at the end of the heap, the
      end is not aligned, and the block there is free and misfiled. */
  ghost predicate AlignCorrupts(m: Model, size: nat, a: nat, len: nat, maxLen: nat)
    requires a > 0
  {
    && NoneExact(m, size) && NoneFits(m, size) && !Overflows(m, size, len, maxLen)
    && len % a != 0
    && |m.bs| > 0 && Misfiled(m, |m.bs| - 1)
  }

  lemma AlignUpExact(o: nat, a: nat)
    requires a > 0
    ensures AlignUp(o, a) == o <==> o % a == 0
  {
    if o % a == 0 {
      var q := o / a;
      assert o == q * a;
      assert (o + a - 1) / a == q by {
        assert (o + a - 1) == q * a + (a - 1);
        DivUnique(q, a, a - 1);
      }
    }
  }

  lemma DivUnique(q: nat, a: nat, r: nat)
    requires r < a
    ensures (q * a + r) / a == q
  {
    var x := q * a + r;
    var d := q - x / a;
    assert x == (x / a) * a + x % a;
    assert d * a == q * a - (x / a) * a;
    assert d >= 1 ==> d * a >= a;
    assert d <= -1 ==> d * a + a <= 0;
  }

  /** Where get found its block. */
  lemma GetPlace(m: Model, r: Model, i: nat, size: nat, len: nat, len': nat, maxLen: nat)
    requires Ok(m, len) && size > 0 && GetStep(m, r, i, size, len, len') && Granted(m, r, i, size, len')
    ensures i > 0 && Misfiled(r, i - 1) <==> i == |m.bs| > 0 && Misfiled(m, i - 1)
    ensures i == |m.bs| ==> NoneExact(m, size) && NoneFits(m, size) && r.bs[i].offset == len
    ensures i < |m.bs| ==> !(NoneExact(m, size) && NoneFits(m, size))
  {
    if i > 0 && Misfiled(r, i - 1) { assert PrevFree(r, i); }
    if i == |m.bs| > 0 && Misfiled(m, i - 1) { assert PrevFree(r, i); }
    if i < |m.bs| { assert Exact(m, i, size) || Fits(m, i, size); }
  }

  lemma OverflowFirst(m: Model, size: nat, a: nat, len: nat, maxLen: nat)
    requires Overflows(m, size, len, maxLen) && a > 0
    ensures !AlignCorrupts(m, size, a, len, maxLen)
  {
  }

  lemma NoCorruption(m: Model, a: nat, len: nat, maxLen: nat)
    requires a == 1
    ensures !AlignCorrupts(m, 0, a, len, maxLen)
  {
  }

  lemma AlignPlace(m: Model, r: Model, i: nat, size: nat, len: nat, len': nat, maxLen: nat, a: nat)
    requires Ok(m, len) && size > 0 && GetStep(m, r, i, size, len, len') && Granted(m, r, i, size, len')
    requires !Overflows(m, size, len, maxLen) && a > 0
    ensures AlignCorrupts(m, size, a, len, maxLen) <==>
      (i > 0 && Misfiled(r, i - 1) && AlignUp(r.bs[i].offset, a) != r.bs[i].offset)
    ensures WellFiled(m) ==> !AlignCorrupts(m, size, a, len, maxLen)
  {
    GetPlace(m, r, i, size, len, len', maxLen);
    AlignUpExact(r.bs[i].offset, a);
    if WellFiled(m) { NotAlignCorrupts(m, size, a, len, maxLen); }
  }

  lemma NotAlignCorrupts(m: Model, size: nat, a: nat, len: nat, maxLen: nat)
    requires Ok(m, len) && WellFiled(m) && a > 0
    ensures !AlignCorrupts(m, size, a, len, maxLen)
  {
  }

  lemma GetStepLen(m: Model, r: Model, i: nat, size: nat, len: nat, len': nat)
    requires GetStep(m, r, i, size, len, len')
    ensures len <= len' <= len + size
  {
  }

  lemma UsedIsLive(m: Model, len: nat, i: nat)
    requires Ok(m, len) && i < |m.bs| && m.bs[i].id !in m.home
    ensures m.bs[i] in Live(m) && forall x :: x in Live(m) && x.id == m.bs[i].id ==> x == m.bs[i]
  {
    forall x | x in Live(m) && x.id == m.bs[i].id ensures x == m.bs[i] {
      HeapModel.LiveId(m, x, i);
    }
  }

  lemma FrontFacts(m: Model, c: Model, len: nat, i: nat, d: nat, pi: nat)
    requires Ok(m, len) && i < |m.bs| && 0 < d < m.bs[i].size && m.bs[i].id !in m.home && pi !in m.home
    requires c == CutFront(m, i, d, pi) && Ok(c, len)
    ensures i + 1 < |c.bs| && c.bs[i] == Block(pi, m.bs[i].offset, d) && c.home == m.home
    ensures c.bs[i+1] == Block(m.bs[i].id, m.bs[i].offset + d, m.bs[i].size - d)
    ensures HasId(c.bs, pi) && IndexOfId(c.bs, pi) == i
    ensures i > 0 ==> (Misfiled(c, i - 1) <==> Misfiled(m, i - 1))
    ensures NextFree(c, i + 1) <==> NextFree(m, i)
    ensures NextFree(m, i) && WellFiledAt(m, i + 1) ==> i + 2 < |c.bs| && WellFiledAt(c, i + 2)
  {
    IndexOfIdUnique(c.bs, i);
    assert i + 1 < |m.bs| ==> c.bs[i+2] == m.bs[i+1];
    assert i > 0 ==> c.bs[i-1] == m.bs[i-1];
  }

  lemma BackFacts(m: Model, c: Model, len: nat, i: nat, d: nat, ni: nat)
    requires Ok(m, len) && i < |m.bs| && 0 < d < m.bs[i].size && m.bs[i].id !in m.home && ni !in m.home
    requires c == CutAt(m, i, d, ni) && Ok(c, len) && (NextFree(m, i) ==> WellFiledAt(m, i + 1))
    ensures i + 1 < |c.bs| && c.bs[i] == Block(m.bs[i].id, m.bs[i].offset, d) && c.home == m.home
    ensures c.bs[i+1] == Block(ni, m.bs[i].offset + d, m.bs[i].size - d)
    ensures HasId(c.bs, ni) && IndexOfId(c.bs, ni) == i + 1
    ensures !PutCorrupts(c, i + 1)
  {
    IndexOfIdUnique(c.bs, i + 1);
    assert i + 1 < |m.bs| ==> c.bs[i+2] == m.bs[i+1];
  }

  lemma PosUnique(m: Model, len: nat, k: nat)
    requires Ok(m, len) && k < |m.bs|
    ensures HasId(m.bs, m.bs[k].id) && IndexOfId(m.bs, m.bs[k].id) == k
  {
    IndexOfIdUnique(m.bs, k);
  }

  /** The first entry of the list whose block is large enough. */
  ghost predicate FirstOf(list: seq<nat>, bs: seq<Block>, size: nat, id: nat) {
    exists fi :: 0 <= fi < |list| && list[fi] == id && TooSmall(list, bs, size, fi)
  }

  /** The blocks of the first n entries are too small. */
  ghost predicate TooSmall(list: seq<nat>, bs: seq<Block>, size: nat, n: nat) {
    forall k, i :: 0 <= k < n && k < |list| && 0 <= i < |bs| && bs[i].id == list[k] ==> bs[i].size < size
  }

  lemma FirstAt(list: seq<nat>, bs: seq<Block>, size: nat, fi: nat)
    requires fi < |list| && TooSmall(list, bs, size, fi)
    ensures FirstOf(list, bs, size, list[fi])
  {
  }

  /** The block that serves a request: the last one on the list of its size, else the first of list 0 that fits, else a
    * new one. */
  ghost predicate Chosen(free: seq<seq<nat>>, bs: seq<Block>, size: nat, id: nat) {
    if size < |free| && |free[size]| > 0 then id == free[size][|free[size]| - 1]
    else if |free| > 0 && !TooSmall(free[0], bs, size, |free[0]|) then FirstOf(free[0], bs, size, id)
    else !HasId(bs, id)
  }

  class Heap {
    var elts: seq<Elt>
    /** Lists of free elements by size; list 0 is for large ones. */
    var free: seq<seq<nat>>
    var removed: seq<nat>
    var head: nat
    var tail: nat
    /** Total number of indices allocated. */
    var len: nat
    /** Largest size ever asked for. */
    var maxSize: nat
    /** Limit on `len`, or 0. */
    var maxLen: nat

    ghost var bs: seq<Block>
    ghost var home: map<nat, nat>

    ghost function M(): Model
      reads this
    {
      Model(bs, home, |free|, maxSize)
    }

    ghost predicate Valid()
      reads this
    {
      && Ok(M(), len) && Chain(elts, bs) && Ends(head, tail, bs)
      && Lists(elts, free, home) && Recycled(elts, removed, bs) && Poisoned(elts, removed)
      && |elts| <= len < NIL
    }

    constructor ()
      ensures Valid() && M() == Model([], map[], 0, 0) && len == 0 && maxLen == 0
    {
      elts, free, removed, head, tail, len, maxSize, maxLen := [], [], [], 0, 0, 0, 0, 0;
      bs, home := [], map[];
      EmptyOk();
    }

    /** Files element `ei` under `size`. */
    method FreeElt(ei: nat, size: nat)
      requires ei < |elts| < NIL && Lists(elts, free, home) && ei !in home
      modifies `elts, `free, `home
      ensures |elts| == |old(elts)| && Lists(elts, free, home)
      ensures forall e :: 0 <= e < |elts| ==> elts[e].SameLinks(old(elts[e]))
      ensures forall e :: 0 <= e < |elts| && e != ei ==> elts[e] == old(elts)[e]
      ensures home == old(home)[ei := if size > maxSize then 0 else size]
      ensures |free| == if home[ei] < old(|free|) then old(|free|) else home[ei] + 1
    {
      hide Lists;
      var h := if size > maxSize then 0 else size;
      if |free| <= h {
        ListsGrow(elts, free, home, h + 1 - |free|);
        free := free + seq(h + 1 - |free|, _ => []);
      }
      ListsAppend(elts, free, home, ei, h);
      elts := elts[ei := elts[ei].(free := |free[h]|)];
      free := free[h := free[h] + [ei]];
      home := home[ei := h];
    }

    /** Unfiles element `ei`, looking where `size` says it should be; false is the panic
        "corrupt free list". */
    method RemoveFreeElt(ei: nat, size: nat) returns (ok: bool)
      requires ei in home && Lists(elts, free, home) && |elts| <= NIL
      modifies `elts, `free, `removed, `home
      ensures ok <==> old(home[ei]) == if size >= old(|free|) then 0 else size
      ensures ok ==> |elts| == |old(elts)| && |free| == old(|free|) && home == old(home) - {ei}
      ensures ok ==> Lists(elts, free, home) && ei < |elts| && elts[ei] == Poison && removed == old(removed) + [ei]
      ensures ok ==> forall e :: 0 <= e < |elts| && e != ei ==> elts[e].SameLinks(old(elts[e]))
      ensures ok ==> forall e :: 0 <= e < |elts| && e !in old(home) ==> elts[e] == old(elts)[e]
    {
      hide Lists;
      FiledThere(elts, free, home, ei);
      var fi := elts[ei].free;
      var h := if size >= |free| then 0 else size;
      var l := |free[h]|;
      if fi < l && free[h][fi] == ei {
        FiledHere(elts, free, home, h, fi);
        ListsSwapOut(elts, free, home, h, fi, Poison);
        ghost var elts0, free0 := elts, free;
        if fi < l - 1 {
          var gi := free[h][l-1];
          free := free[h := free[h][fi := gi]];
          elts := elts[gi := elts[gi].(free := fi)];
        }
        free := free[h := free[h][..l-1]];
        elts := elts[ei := Poison];
        assert free == SwapOut(free0, h, fi) && elts == SwapElts(elts0, free0, h, fi)[ei := Poison];
        removed := removed + [ei];
        home := home - {ei};
        return true;
      }
      return false;
    }

    /** Recycles a removed element or makes a new one. */
    method NewElt() returns (ei: nat)
      requires Recycled(elts, removed, bs) && Chain(elts, bs) && Lists(elts, free, home) && Poisoned(elts, removed)
      requires forall e :: e in home ==> HasId(bs, e)
      modifies `elts, `removed
      ensures ei < |elts| && !HasId(bs, ei) && elts[ei] == Poison && |old(elts)| <= |elts| <= |old(elts)| + 1
      ensures |elts| == |bs| + 1 + |removed| && (|elts| > |old(elts)| ==> removed == [])
      ensures Chain(elts, bs) && Lists(elts, free, home) && Poisoned(elts, removed)
      ensures forall x: Block, i :: x.id == ei && 0 <= i <= |bs| ==> Recycled(elts, removed, bs[..i] + [x] + bs[i..])
    {
      ghost var elts0, removed0 := elts, removed;
      var l := |removed|;
      if l > 0 {
        ei := removed[l-1];
        removed := removed[..l-1];
        elts := elts[ei := Poison];
        NotAnId(bs, ei);
      } else {
        ei := |elts|;
        elts := elts + [Poison];
        ChainFresh(elts0, bs);
      }
      hide Recycled, HasId;
      ChainFrame(elts0, elts, bs);
      NewEltLists(elts0, elts, free, home, ei);
      forall x: Block, i | x.id == ei && 0 <= i <= |bs| ensures Recycled(elts, removed, bs[..i] + [x] + bs[i..]) {
        if l > 0 {
          RecycledPop(elts0, removed0, bs, elts, x, i);
        } else {
          RecycledNew(elts0, bs, elts, x, i);
        }
      }
    }

    /** The index of the block `e`. */
    ghost function Pos(e: nat): (i: nat)
      requires HasId(bs, e)
      reads this
      ensures i < |bs| && bs[i].id == e
    {
      IndexOfId(bs, e)
    }

    /** heap.eltSize, in 32-bit arithmetic. */
    method EltSize(ei: nat, ghost i: nat, ghost isBlock: bool) returns (s: nat)
      requires len < NIL && |elts| <= NIL
      requires if isBlock then Ok(M(), len) && Chain(elts, bs) && i < |bs| && bs[i].id == ei
               else ei < |elts| && elts[ei] == Poison
      ensures ei < |elts| && s == if isBlock then bs[i].size else len + 1
    {
      if isBlock {
        assert LinkedAt(elts, bs, i);
        TilesEnd(bs, len, i);
        TilesWithin(bs, len, i);
        if i + 1 < |bs| { assert LinkedAt(elts, bs, i + 1); }
      }
      var o := len;
      if elts[ei].next != NIL {
        o := elts[elts[ei].next].offset;
      }
      s := (o - elts[ei].offset) % (NIL + 1);
    }

    /** e.offset, e.prev and the predecessor's next, as if `pi` were gone. */
    method BypassPrev(ei: nat, pi: nat)
      requires ei < |elts| && pi < |elts| <= NIL && pi != ei
      requires elts[pi].prev != ei && (elts[pi].prev == NIL || elts[pi].prev < |elts|)
      requires Lists(elts, free, home)
      modifies `elts
      ensures elts == LinkMergePrev(old(elts), ei, pi) && |elts| == |old(elts)| && Lists(elts, free, home)
    {
      elts := elts[ei := elts[ei].(offset := elts[pi].offset, prev := elts[pi].prev)];
      if elts[ei].prev != NIL {
        elts := elts[elts[ei].prev := elts[elts[ei].prev].(next := ei)];
      }
      ListsFrame(old(elts), elts, free, home);
    }

    /** e.next and the successor's prev, as if `ni` were gone. */
    method BypassNext(ei: nat, ni: nat)
      requires ei < |elts| && ni < |elts| <= NIL && ni != ei
      requires elts[ni].next != ei && (elts[ni].next == NIL || elts[ni].next < |elts|)
      requires Lists(elts, free, home)
      modifies `elts
      ensures elts == LinkMergeNext(old(elts), ei, ni) && |elts| == |old(elts)| && Lists(elts, free, home)
    {
      elts := elts[ei := elts[ei].(next := elts[ni].next)];
      if elts[ei].next != NIL {
        elts := elts[elts[ei].next := elts[elts[ei].next].(prev := ei)];
      }
      ListsFrame(old(elts), elts, free, home);
    }

    /** Put swallowing its free predecessor `pi`. */
    method SwallowPrev(ei: nat, pi: nat, ghost i: nat) returns (ok: bool)
      requires Valid() && i < |bs| && bs[i].id == ei && PrevFree(M(), i) && bs[i-1].id == pi && ei !in home
      modifies `elts, `free, `removed, `home, `bs, `head
      ensures ok <==> !Misfiled(old(M()), i - 1)
      ensures ok ==> Valid() && M() == MergePrev(old(M()), i) && |elts| == |old(elts)|
    {
      hide Live, WellFiled, Ok, Chain, Lists, Recycled, Poisoned, Untouched, HasId, Misfiled, LinkMergePrev,
           LinkMergeNext, MergePrev, MergeNext, FreeAt, Ends;
      ghost var m := M();
      MergePrevOk(m, len, i);
      PrevFacts(elts, free, m, len, i);
      MergePrevFacts(elts, removed, m, len, i);
      OkFacts(m, len);
      ghost var elts0, removed0 := elts, removed;
      var ps := elts[ei].offset - elts[pi].offset;
      BypassPrev(ei, pi);
      ghost var elts1 := elts;
      ok := RemoveFreeElt(pi, ps);
      if !ok {
        return;
      }
      if pi == head {
        head := ei;
      }
      bs := MergePrev(m, i).bs;
      ChainWithout(elts1, elts, bs, pi);
      PoisonMore(elts0, elts1, elts, removed0, m.bs, m.home, pi);
    }

    /** Put swallowing its free successor `ni`. */
    method SwallowNext(ei: nat, ni: nat, ghost i: nat) returns (ok: bool)
      requires Valid() && i < |bs| && bs[i].id == ei && NextFree(M(), i) && bs[i+1].id == ni && ei !in home
      modifies `elts, `free, `removed, `home, `bs, `tail
      ensures ok <==> !Misfiled(old(M()), i + 1)
      ensures ok ==> Valid() && M() == MergeNext(old(M()), i) && |elts| == |old(elts)|
    {
      hide Live, WellFiled, Ok, Chain, Lists, Recycled, Poisoned, Untouched, HasId, Misfiled, LinkMergePrev,
           LinkMergeNext, MergePrev, MergeNext, FreeAt, Ends;
      ghost var m := M();
      MergeNextOk(m, len, i);
      NextFacts(elts, free, m, len, i);
      MergeNextFacts(elts, removed, m, len, i);
      OkFacts(m, len);
      ghost var elts0, removed0 := elts, removed;
      var ns := EltSize(ni, i + 1, true);
      BypassNext(ei, ni);
      ghost var elts1 := elts;
      ok := RemoveFreeElt(ni, ns);
      if !ok {
        return;
      }
      if ni == tail {
        tail := ei;
      }
      bs := MergeNext(m, i).bs;
      ChainWithout(elts1, elts, bs, ni);
      PoisonMore(elts0, elts1, elts, removed0, m.bs, m.home, ni);
    }

    /** Put of an element that was handed out once: frees its block together with free neighbours. It panics
        exactly when the block stands free, or a free neighbour is not on the list it is looked for on. An
        element whose block was freed and then swallowed is freed again untold: it is filed as it is, poisoned,
        under a size that wraps round, while it still waits to be recycled. */
    method Put(ei: nat) returns (o: Outcome)
      requires Valid() && (HasId(bs, ei) || ei in removed)
      modifies this
      ensures o in {Done, DuplicateFree, CorruptFreeList}
      ensures o == DuplicateFree <==> ei in old(home)
      ensures !old(HandedOut(bs, home, ei)) ==> (o == DuplicateFree <==> old(HasId(bs, ei)))
      ensures o == CorruptFreeList <==> old(HandedOut(bs, home, ei)) && PutCorrupts(old(M()), old(Pos(ei)))
      ensures o == DuplicateFree ==> Valid() && M() == old(M())
      ensures o == Done ==> (Valid() <==> old(HasId(bs, ei)))
      ensures o == Done && old(HasId(bs, ei)) ==> M() == PutModel(old(M()), old(Pos(ei)))
      ensures o == Done && old(HasId(bs, ei)) ==> Live(M()) == old(Live(M())) - {old(bs[Pos(ei)])}
      ensures o == Done && !old(HasId(bs, ei)) ==> ei in removed && Lists(elts, free, home) && bs == old(bs)
      ensures o == Done && !old(HasId(bs, ei)) ==> home == old(home)[ei := if len + 1 > maxSize then 0 else len + 1]
      ensures old(WellFiled(M())) ==> o != CorruptFreeList && (o == Done && old(HasId(bs, ei)) ==> WellFiled(M()))
      ensures len == old(len) && maxLen == old(maxLen) && maxSize == old(maxSize)
      ensures o == Done ==> |elts| == |old(elts)|
    {
      hide Live, WellFiled, Ok, Chain, Lists, Recycled, Poisoned, Untouched, HasId, Misfiled, LinkMergePrev,
           LinkMergeNext, MergePrev, MergeNext, FreeAt, Ends;
      ghost var isBlock := HasId(bs, ei);
      ghost var m, i := M(), if isBlock then Pos(ei) else 0;
      OkFacts(m, len);
      if isBlock {
        PrevFacts(elts, free, m, len, i);
      } else {
        PoisonedElt(elts, free, removed, m, ei);
      }
      if elts[ei].free != NIL {
        return DuplicateFree;
      }
      if isBlock {
        PutOk(m, len, i);
        PutPrevOk(m, len, i);
      }
      ghost var j := i;
      if elts[ei].prev != NIL {
        var pi := elts[ei].prev;
        if elts[pi].free != NIL {
          var ok := SwallowPrev(ei, pi, i);
          if !ok {
            return CorruptFreeList;
          }
          j := i - 1;
        }
      }
      o := PutRest(ei, j, isBlock);
    }

    /** The second half of Put. */
    method PutRest(ei: nat, ghost i: nat, ghost isBlock: bool) returns (o: Outcome)
      requires Valid() && if isBlock then i < |bs| && bs[i].id == ei && ei !in home && !PrevFree(M(), i)
        else ei < |elts| && elts[ei] == Poison && !HasId(bs, ei) && ei !in home && ei in removed
      modifies this
      ensures o == if isBlock && NextFree(old(M()), i) && Misfiled(old(M()), i + 1) then CorruptFreeList else Done
      ensures o == Done && isBlock ==> Valid() && M() == FreeAt(PutNext(old(M()), i), i)
      ensures !isBlock ==> !Valid() && ei in removed && Lists(elts, free, home) && bs == old(bs)
      ensures !isBlock ==> home == old(home)[ei := if len + 1 > maxSize then 0 else len + 1]
      ensures len == old(len) && maxLen == old(maxLen) && maxSize == old(maxSize)
      ensures o == Done ==> |elts| == |old(elts)|
    {
      hide Live, WellFiled, Ok, Chain, Lists, Recycled, Poisoned, Untouched, HasId, Misfiled, LinkMergePrev,
           LinkMergeNext, MergePrev, MergeNext, FreeAt, Ends;
      ghost var m := M();
      if isBlock {
        NextFacts(elts, free, m, len, i);
        PutNextOk(m, len, i);
      }
      if elts[ei].next != NIL {
        var ni := elts[ei].next;
        if elts[ni].free != NIL {
          var ok := SwallowNext(ei, ni, i);
          if !ok {
            return CorruptFreeList;
          }
        }
      }
      var es := EltSize(ei, i, isBlock);
      FreeBlock(ei, es, i, isBlock);
      return Done;
    }

    /** freeElt on a block in use between used neighbours, or on a recycled element. */
    method FreeBlock(ei: nat, es: nat, ghost i: nat, ghost isBlock: bool)
      requires Valid() && ei !in home && if isBlock
        then i < |bs| && es == bs[i].size && bs[i].id == ei && !PrevFree(M(), i) && !NextFree(M(), i)
        else ei < |elts| && !HasId(bs, ei)
      modifies `elts, `free, `home
      ensures |elts| == |old(elts)|
      ensures isBlock ==> Valid() && M() == FreeAt(old(M()), i)
      ensures !isBlock ==>
        (!Valid() && Lists(elts, free, home) && home == old(home)[ei := if es > maxSize then 0 else es])
    {
      hide Ok, Chain, Lists, HasId, Recycled, Poisoned, Untouched, Live, WellFiled, Ends;
      ghost var m, elts0 := M(), elts;
      if isBlock {
        FreeAtOk(m, len, i);
        IdOfBlock(elts, bs, i);
      }
      FreeElt(ei, es);
      if isBlock {
        ChainFrame(elts0, elts, bs);
        RecycledLength(elts0, elts, removed, bs);
        UntouchedBut(elts0, elts, bs, map[], ei);
        PoisonKept(elts0, elts, removed, bs);
      } else {
        NotOk(M(), len, ei);
      }
    }

    /** Cuts block `ei` in use at `offset`: newEltAfter and the new element's offset. */
    method CutAfter(ei: nat, offset: nat, ghost i: nat) returns (ni: nat)
      requires Valid() && i < |bs| && bs[i].id == ei && ei !in home && bs[i].offset < offset < bs[i].End()
      modifies `elts, `removed, `bs, `tail
      ensures !HasId(old(bs), ni) && Valid() && M() == CutAt(old(M()), i, offset - old(bs)[i].offset, ni)
    {
      hide Live, WellFiled, Ok, Chain, Lists, Recycled, Poisoned, Untouched, HasId, CutAt, Ends, LinkAfter;
      ghost var m, size := M(), offset - bs[i].offset;
      OkFacts(m, len);
      ni := NewElt();
      ghost var elts1 := elts;
      NewEltFits(elts, removed, m, len, i, size, ni);
      CutAtOk(m, len, i, size, ni);
      CutAtFacts(elts, m, len, i, size, ni, head, tail);
      LinkNewAfter(ei, ni, offset);
      ListsFrame(elts1, elts, free, home);
      CutAtIds(m, i, size, ni);
      RecycledAs(elts1, elts, removed, m, i, CutAt(m, i, size, ni).bs, ni);
      bs := CutAt(m, i, size, ni).bs;
      PoisonKept(elts1, elts, removed, bs);
    }

    /** Links element `ni` behind `ei`. */
    method LinkNewAfter(ei: nat, ni: nat, offset: nat)
      requires ei < |elts| && ni < |elts| <= NIL && ni != ei
      requires elts[ei].next == NIL || elts[ei].next < |elts|
      requires elts[ei].next != ni && elts[ei].next != ei
      modifies `elts, `tail
      ensures elts == LinkAfter(old(elts), ei, ni, offset) && |elts| == |old(elts)|
      ensures tail == if old(elts)[ei].next == NIL then ni else old(tail)
      ensures forall e :: 0 <= e < |elts| ==> elts[e].free == old(elts)[e].free
    {
      elts := elts[ni := elts[ni].(prev := ei, next := elts[ei].next)];
      if elts[ni].next == NIL {
        tail := ni;
      } else {
        elts := elts[elts[ni].next := elts[elts[ni].next].(prev := ni)];
      }
      elts := elts[ei := elts[ei].(next := ni)];
      elts := elts[ni := elts[ni].(offset := offset)];
    }

    /** Cuts block `ei` in use at `offset`: newEltBefore and both offsets. */
    method CutBefore(ei: nat, offset: nat, ghost i: nat) returns (pi: nat)
      requires Valid() && i < |bs| && bs[i].id == ei && ei !in home && bs[i].offset < offset < bs[i].End()
      modifies `elts, `removed, `bs, `head
      ensures !HasId(old(bs), pi) && Valid() && M() == CutFront(old(M()), i, offset - old(bs)[i].offset, pi)
    {
      hide Live, WellFiled, Ok, Chain, Lists, Recycled, Poisoned, Untouched, HasId, CutFront, Ends, LinkBefore;
      ghost var m, size := M(), offset - bs[i].offset;
      OkFacts(m, len);
      pi := NewElt();
      ghost var elts1 := elts;
      NewEltFits(elts, removed, m, len, i, size, pi);
      CutFrontOk(m, len, i, size, pi);
      CutFrontFacts(elts, m, len, i, size, pi, head, tail);
      LinkNewBefore(ei, pi, offset);
      ListsFrame(elts1, elts, free, home);
      CutAtIds(m, i, size, pi);
      RecycledAs(elts1, elts, removed, m, i, CutFront(m, i, size, pi).bs, pi);
      bs := CutFront(m, i, size, pi).bs;
      PoisonKept(elts1, elts, removed, bs);
    }

    /** Links element `pi` in front of `ei`. */
    method LinkNewBefore(ei: nat, pi: nat, offset: nat)
      requires ei < |elts| && pi < |elts| <= NIL && pi != ei
      requires elts[ei].prev == NIL || elts[ei].prev < |elts|
      requires elts[ei].prev != pi && elts[ei].prev != ei
      modifies `elts, `head
      ensures elts == LinkBefore(old(elts), ei, pi, offset) && |elts| == |old(elts)|
      ensures head == if old(elts)[ei].prev == NIL then pi else old(head)
      ensures forall e :: 0 <= e < |elts| ==> elts[e].free == old(elts)[e].free
    {
      elts := elts[pi := elts[pi].(next := ei, prev := elts[ei].prev)];
      if elts[pi].prev == NIL {
        head := pi;
      } else {
        elts := elts[elts[pi].prev := elts[elts[pi].prev].(next := pi)];
      }
      elts := elts[ei := elts[ei].(prev := pi)];
      elts := elts[pi := elts[pi].(offset := elts[ei].offset)];
      elts := elts[ei := elts[ei].(offset := offset)];
    }


    /** freeAfter: cuts block `ei` in use and frees its last `freeSize`. */
    method FreeAfter(ei: nat, eSize: nat, freeSize: nat, ghost i: nat) returns (ghost f: nat)
      requires i < |bs| && Valid() && bs[i].id == ei && ei !in home && !PrevFree(M(), i) && !NextFree(M(), i)
      requires eSize == bs[i].size && 0 < freeSize < eSize
      modifies `elts, `removed, `bs, `tail, `free, `home
      ensures !HasId(old(bs), f) && Valid() && M() == FreeAt(CutAt(old(M()), i, eSize - freeSize, f), i + 1)
    {
      hide Live, WellFiled, Ok, Chain, Lists, Recycled, Poisoned, Untouched, HasId, Ends, FreeAt;
      ghost var m := M();
      IdOfBlock(elts, bs, i);
      OkFacts(m, len);
      var fi := CutAfter(ei, elts[ei].offset + (eSize - freeSize), i);
      f := fi;
      CutNeighbours(m, i, eSize - freeSize, f);
      FreeBlock(fi, freeSize, i + 1, true);
    }

    /** Takes entry `k` off list `l`: the last entry fills its place. */
    method TakeEntry(l: nat, k: nat, ghost i: nat)
      requires Valid() && l < |free| && k < |free[l]| && i < |bs| && bs[i].id == free[l][k]
      requires bs[i].id in home && home[bs[i].id] == l
      modifies `elts, `free, `home
      ensures Valid() && M() == TakeAt(old(M()), i)
    {
      hide Live, WellFiled, Ok, Chain, Lists, Recycled, Poisoned, Untouched, HasId, Ends, SwapOut, SwapElts;
      ghost var m, elts0, free0 := M(), elts, free;
      var ei := free[l][k];
      var n := |free[l]|;
      TakeAtOk(m, len, i);
      IdOfBlock(elts, bs, i);
      SwapFacts(elts, free, home, l, k);
      if k < n - 1 {
        var gi := free[l][n-1];
        free := free[l := free[l][k := gi]];
        elts := elts[gi := elts[gi].(free := k)];
      }
      free := free[l := free[l][..n-1]];
      ListsSwapOut(elts0, free0, home, l, k, elts[ei].(free := NIL));
      elts := elts[ei := elts[ei].(free := NIL)];
      assert elts == SwapElts(elts0, free0, l, k)[ei := elts[ei]] && free == SwapOut(free0, l, k);
      home := home - {ei};
      ChainFrame(elts0, elts, bs);
      RecycledLength(elts0, elts, removed, bs);
      OkFacts(m, len);
      UntouchedBut(elts0, elts, bs, m.home, ei);
      PoisonKept(elts0, elts, removed, bs);
    }

    /** heap.get: a block of exactly `size`, from the list of that size, by first fit from list 0,
        or at the end of the heap. */
    method GetSized(sizeArg: nat, size: nat) returns (o: Outcome, id: nat, offset: nat)
      requires Valid() && len + size < NIL
      modifies this
      ensures o in {Done, BadSize, Overflow} && Valid() && maxLen == old(maxLen)
      ensures o == BadSize <==> size == 0
      ensures var m := Asked(old(M()), sizeArg);
              && (o == Overflow <==> size > 0 && Overflows(m, size, old(len), maxLen))
              && (o != Done ==> M() == m && len == old(len))
              && (o == Done ==>
                  (HasId(bs, id) && bs[Pos(id)].offset == offset && GetStep(m, M(), Pos(id), size, old(len), len)))
      ensures o == Done ==> Chosen(old(free), old(bs), size, id)
    {
      hide FirstOf, TooSmall, Live, WellFiled, Ok, Chain, Lists, Recycled, Poisoned, Untouched, HasId, Ends, TakeAt,
           NoneExact, NoneFits, Exact, Fits, SplitAt, Extend;
      ghost var m := Asked(M(), sizeArg);
      AskedOk(M(), len, sizeArg);
      if sizeArg > maxSize {
        maxSize := sizeArg;
      }
      if size == 0 {
        return BadSize, 0, 0;
      }
      if size < |free| && |free[size]| > 0 {
        id, offset := TakeLast(size);
        return Done, id, offset;
      }
      NothingExact(elts, free, m, len, size);
      NoBlockExact(m, size);
      if |free| > 0 {
        var found;
        found, id, offset := FirstFit(size);
        if found {
          return Done, id, offset;
        }
      } else {
        NothingFits(elts, free, m, size);
      }
      if maxLen != 0 && len + size > maxLen {
        return Overflow, 0, 0;
      }
      id, offset := ExtendBy(size);
      return Done, id, offset;
    }

    /** The last block on the list of exactly `size`. */
    method TakeLast(size: nat) returns (id: nat, offset: nat)
      requires Valid() && 0 < size < |free| && |free[size]| > 0
      modifies `elts, `free, `home
      ensures Valid() && HasId(old(bs), id) && HasId(bs, id) && Pos(id) == old(Pos(id)) && offset == bs[Pos(id)].offset
      ensures Exact(old(M()), old(Pos(id)), size) && M() == TakeAt(old(M()), old(Pos(id)))
      ensures !NoneExact(old(M()), size) && id == old(free)[size][|old(free)[size]| - 1]
    {
      ghost var m := M();
      var l := |free[size]|;
      id := free[size][l-1];
      ghost var i := EntryOf(elts, free, m, len, size, l - 1);
      hide Live, WellFiled, Ok, Chain, Lists, Recycled, Poisoned, Untouched, HasId, Ends;
      IdOfBlock(elts, bs, i);
      offset := elts[id].offset;
      TakenPos(m, len, i);
      TakeEntry(size, l - 1, i);
      assert Exact(m, i, size);
    }

    /** The scan of list 0. */
    method FirstFit(size: nat) returns (found: bool, id: nat, offset: nat)
      requires Valid() && |free| > 0 && size > 0
      modifies `elts, `removed, `bs, `tail, `free, `home
      ensures Valid()
      ensures !found ==> M() == old(M()) && NoneFits(M(), size) && bs == old(bs) && free == old(free)
      ensures found <==> !TooSmall(old(free)[0], old(bs), size, |old(free)[0]|)
      ensures found ==> HasId(old(bs), id) && HasId(bs, id) && Pos(id) == old(Pos(id)) && offset == bs[Pos(id)].offset
      ensures found ==> Fits(old(M()), old(Pos(id)), size) && !NoneFits(old(M()), size)
      ensures found ==> exists f :: !HasId(old(bs), f) && M() == SplitAt(old(M()), old(Pos(id)), size, f)
      ensures found ==> FirstOf(old(free)[0], old(bs), size, id)
    {
      hide Live, WellFiled, Ok, Chain, Lists, Recycled, Poisoned, Untouched, HasId, Ends, FreeAt, CutAt, Exact;
      ghost var m := M();
      var l := |free[0]|;
      var fi := 0;
      while fi < l
        invariant fi <= l && M() == m && Valid()
        invariant elts == old(elts) && free == old(free) && len == old(len) && bs == old(bs)
        invariant TooSmall(free[0], bs, size, fi)
      {
        var ei := free[0][fi];
        ghost var i := EntryOf(elts, free, m, len, 0, fi);
        var es := EltSize(ei, i, true);
        if es >= size {
          id, offset := ei, elts[ei].offset;
          FirstAt(free[0], bs, size, fi);
          IdOfBlock(elts, bs, i);
          TakeAtOk(m, len, i);
          TakeEntry(0, fi, i);
          ghost var f := |elts|;
          ChainFresh(elts, bs);
          if es > size {
            f := FreeAfter(ei, es, es - size, i);
          }
          SplitPos(m, len, i, size, f);
          return true, id, offset;
        }
        OnlyEntry(m, len, i);
        fi := fi + 1;
      }
      NothingFits(elts, free, m, size);
      return false, 0, 0;
    }

    /** A new block at the end of the heap. */
    method ExtendBy(size: nat) returns (id: nat, offset: nat)
      requires Valid() && len + size < NIL && size > 0
      modifies `elts, `removed, `bs, `head, `tail, `len
      ensures Valid() && len == old(len) + size
      ensures !HasId(old(bs), id) && HasId(bs, id) && Pos(id) == |old(bs)| && offset == bs[Pos(id)].offset
      ensures M() == Extend(old(M()), id, old(len), size)
    {
      hide Live, WellFiled, Ok, Chain, Lists, Recycled, Poisoned, Untouched, HasId, Ends, Extend;
      ghost var m := M();
      OkFacts(m, len);
      ExtendFacts(elts, removed, m, len, head, tail);
      if len == 0 {
        head := 0;
        tail := NIL;
      }
      var ei := NewElt();
      ghost var elts1 := elts;
      offset := len;
      len := len + size;
      elts := elts[ei := elts[ei].(offset := offset, next := NIL, prev := tail, free := NIL)];
      tail := ei;
      if elts[ei].prev != NIL {
        elts := elts[elts[ei].prev := elts[elts[ei].prev].(next := ei)];
      }
      id := ei;
      assert elts == LinkLast(elts1, PrevId(m.bs, |m.bs|), ei, offset);
      ListsFrame(elts1, elts, free, home);
      ChainExtend(elts1, m, offset, ei, size);
      ExtendOk(m, offset, ei, size);
      ExtendEnds(m, ei, offset, size, old(head), old(tail), head);
      bs := Extend(m, ei, offset, size).bs;
      RecycledLength(elts1, elts, removed, bs);
      PoisonKept(elts1, elts, removed, bs);
      ExtendPos(m, offset, ei, size);
      TilesTotalOk(M(), len);
    }

    /** Get. */
    method Get(size: nat) returns (o: Outcome, id: nat, offset: nat)
      requires Valid() && len + size < NIL
      modifies this
      ensures Valid() && o in {Done, BadSize, Overflow} && maxLen == old(maxLen)
      ensures o == BadSize <==> size == 0
      ensures o == Overflow <==> size > 0 && Overflows(Asked(old(M()), size), size, old(len), maxLen)
      ensures o == Done ==> Live(M()) == old(Live(M())) + {Block(id, offset, size)}
      ensures o == Done ==> forall b :: b in old(Live(M())) ==> b.id != id
      ensures o == Done ==> HasId(bs, id) && GetStep(Asked(old(M()), size), M(), Pos(id), size, old(len), len)
      ensures o == Done ==> Chosen(old(free), old(bs), size, id)
      ensures o != Done ==> M() == Asked(old(M()), size) && len == old(len)
      ensures maxSize == Asked(old(M()), size).maxSize
      ensures old(len) <= len <= old(len) + size && (WellFiled(Asked(old(M()), size)) ==> WellFiled(M()))
    {
      hide Live, WellFiled, Ok, Chain, Lists, Recycled, Poisoned, Untouched, HasId, Ends, GetStep;
      ghost var m := Asked(M(), size);
      AskedOk(M(), len, size);
      o, id, offset := GetSized(size, size);
      if o == Done {
        GetOk(m, M(), Pos(id), size, old(len), len);
        GetStepLen(m, M(), Pos(id), size, old(len), len);
      }
    }

    /** GetAligned, for a power of two `a`: a block of exactly `sizeArg` at a multiple of `a`. The slack
        in front of it and behind it goes back to the free lists. */
    method GetAligned(sizeArg: nat, a: nat) returns (o: Outcome, id: nat, offset: nat)
      requires Valid() && a > 0 && (sizeArg > 0 || a == 1) && len + sizeArg + a - 1 < NIL
      modifies this
      ensures o in {Done, BadSize, Overflow, CorruptFreeList} && maxLen == old(maxLen)
      ensures o == BadSize <==> sizeArg == 0
      ensures o == CorruptFreeList <==> AlignCorrupts(Asked(old(M()), sizeArg), sizeArg + a - 1, a, old(len), maxLen)
      ensures o != CorruptFreeList ==> Valid()
      ensures o == Done ==> offset % a == 0 && Live(M()) == old(Live(M())) + {Block(id, offset, sizeArg)}
      ensures o == Done ==> forall b :: b in old(Live(M())) ==> b.id != id
      ensures o == Overflow <==> sizeArg > 0 && Overflows(Asked(old(M()), sizeArg), sizeArg + a - 1, old(len), maxLen)
      ensures o == Overflow || o == BadSize ==> M() == Asked(old(M()), sizeArg) && len == old(len)
      ensures WellFiled(Asked(old(M()), sizeArg)) ==> o != CorruptFreeList && WellFiled(M())
      ensures old(len) <= len <= old(len) + sizeArg + a - 1 && maxSize == Asked(old(M()), sizeArg).maxSize
    {
      hide Live, WellFiled, Ok, Chain, Lists, Recycled, Poisoned, Untouched, HasId, Ends, GetStep, Misfiled, NoneExact,
           NoneFits, Overflows, AlignCorrupts, AlignUp;
      ghost var m := Asked(M(), sizeArg);
      AskedOk(M(), len, sizeArg);
      var size := sizeArg + a - 1;
      var start;
      o, id, start := GetSized(sizeArg, size);
      offset := start;
      if o != Done {
        if o == BadSize {
          NoCorruption(m, a, old(len), maxLen);
        } else {
          OverflowFirst(m, size, a, old(len), maxLen);
        }
        return;
      }
      ghost var i := Pos(id);
      GetOk(m, M(), i, size, old(len), len);
      AlignPlace(m, M(), i, size, old(len), len, maxLen, a);
      GetStepLen(m, M(), i, size, old(len), len);
      var ok := TrimTo(id, start, size, sizeArg, a, i);
      offset := AlignUp(start, a);
      o := if ok then Done else CorruptFreeList;
    }

    /** Leaves of block `ei` the part of `sizeArg` at the first multiple of `a`. */
    method TrimTo(ei: nat, start: nat, size: nat, sizeArg: nat, a: nat, ghost i: nat) returns (ok: bool)
      requires Valid() && i < |bs| && bs[i] == Block(ei, start, size) && ei !in home
      requires NextFree(M(), i) ==> WellFiledAt(M(), i + 1)
      requires a > 0 && sizeArg > 0 && size == sizeArg + a - 1
      modifies this
      ensures ok <==> !(i > 0 && Misfiled(old(M()), i - 1) && AlignUp(start, a) != start)
      ensures len == old(len) && maxLen == old(maxLen) && maxSize == old(maxSize)
      ensures ok ==> Valid() && (old(WellFiled(M())) ==> WellFiled(M()))
      ensures ok ==> Live(M()) == old(Live(M())) - {old(bs)[i]} + {Block(ei, AlignUp(start, a), sizeArg)}
    {
      hide Live, WellFiled, Ok, Chain, Lists, Recycled, Poisoned, Untouched, HasId, Ends, Misfiled;
      ghost var b := bs[i];
      UsedIsLive(M(), len, i);
      ok := true;
      var offset := AlignUp(start, a);
      if offset != start {
        ok := TrimFront(ei, offset, i);
        if !ok {
          return;
        }
      } else {
        PosUnique(M(), len, i);
      }
      ghost var c := bs[Pos(ei)];
      assert c == Block(ei, offset, start + size - offset);
      assert Live(M()) == old(Live(M())) - {b} + {c};
      if start + size > offset + sizeArg {
        TrimBack(ei, offset + sizeArg, Pos(ei));
      }
    }

    /** Gives the part of block `ei` in front of `offset` back. */
    method TrimFront(ei: nat, offset: nat, ghost i: nat) returns (ok: bool)
      requires Valid() && i < |bs| && bs[i].id == ei && ei !in home && bs[i].offset < offset < bs[i].End()
      requires NextFree(M(), i) ==> WellFiledAt(M(), i + 1)
      modifies this
      ensures ok <==> !(i > 0 && Misfiled(old(M()), i - 1))
      ensures len == old(len) && maxLen == old(maxLen) && maxSize == old(maxSize)
      ensures ok ==> Valid() && HasId(bs, ei) && ei !in home && (old(WellFiled(M())) ==> WellFiled(M()))
      ensures ok ==> bs[Pos(ei)] == Block(ei, offset, old(bs)[i].End() - offset)
      ensures ok ==> Live(M()) == old(Live(M())) - {old(bs)[i]} + {bs[Pos(ei)]}
      ensures ok ==> (NextFree(M(), Pos(ei)) ==> WellFiledAt(M(), Pos(ei) + 1))
    {
      hide Live, WellFiled, Ok, Chain, Lists, Recycled, Poisoned, Untouched, HasId, Ends, Misfiled, CutFront, PutModel;
      ghost var m, d := M(), offset - bs[i].offset;
      OkFacts(m, len);
      var pi := CutBefore(ei, offset, i);
      ghost var c := M();
      CutFrontOk(m, len, i, d, pi);
      FrontFacts(m, c, len, i, d, pi);
      PutFrontOk(c, len, i);
      PutOk(c, len, i);
      var o := Put(pi);
      ok := o == Done;
      if ok {
        ghost var k := if PrevFree(c, i) then i else i + 1;
        PosUnique(M(), len, k);
        FreshInLive(m, pi);
      }
    }

    /** Gives the part of block `ei` from `end` on back. */
    method TrimBack(ei: nat, end: nat, ghost i: nat)
      requires Valid() && i < |bs| && bs[i].id == ei && ei !in home && bs[i].offset < end < bs[i].End()
      requires NextFree(M(), i) ==> WellFiledAt(M(), i + 1)
      modifies this
      ensures len == old(len) && maxLen == old(maxLen) && maxSize == old(maxSize)
      ensures Valid() && (old(WellFiled(M())) ==> WellFiled(M()))
      ensures Live(M()) == old(Live(M())) - {old(bs)[i]} + {Block(ei, old(bs)[i].offset, end - old(bs)[i].offset)}
    {
      hide Live, WellFiled, Ok, Chain, Lists, Recycled, Poisoned, Untouched, HasId, Ends, Misfiled, CutAt, PutModel;
      ghost var m, d := M(), end - bs[i].offset;
      OkFacts(m, len);
      var ni := CutAfter(ei, end, i);
      ghost var c := M();
      CutAtOk(m, len, i, d, ni);
      BackFacts(m, c, len, i, d, ni);
      PutOk(c, len, i + 1);
      var o := Put(ni);
      FreshInLive(m, ni);
    }
  }

  ghost predicate HandedOut(bs: seq<Block>, home: map<nat, nat>, e: nat) {
    HasId(bs, e) && e !in home
  }

  lemma PoisonedElt(elts: seq<Elt>, free: seq<seq<nat>>, removed: seq<nat>, m: Model, e: nat)
    requires Poisoned(elts, removed) && Lists(elts, free, m.home) && e in removed
    ensures e < |elts| && elts[e] == Poison && e !in m.home
  {
  }

  /** Nothing but a block is filed in a heap that is whole. */
  lemma NotOk(m: Model, len: nat, e: nat)
    requires e in m.home && !HasId(m.bs, e)
    ensures !Ok(m, len)
  {
  }

  lemma OkFacts(m: Model, len: nat)
    requires Ok(m, len)
    ensures forall e :: e in m.home ==> HasId(m.bs, e)
    ensures forall e :: !HasId(m.bs, e) ==> e !in m.home
  {
  }

  /** A new block still leaves no more elements than indices. */
  lemma NewEltFits(elts: seq<Elt>, removed: seq<nat>, m: Model, len: nat, i: nat, size: nat, f: nat)
    requires Ok(m, len) && i < |m.bs| && 0 < size < m.bs[i].size && m.bs[i].id !in m.home && !HasId(m.bs, f)
    requires |elts| == |m.bs| + 1 + |removed|
    ensures removed == [] ==> |elts| <= len
  {
    CutAtOk(m, len, i, size, f);
    TilesTotal(CutAt(m, i, size, f).bs, len);
  }

  lemma RecycledAs(elts: seq<Elt>, elts': seq<Elt>, removed: seq<nat>, m: Model, i: nat, r: seq<Block>, f: nat)
    requires i < |m.bs| && |r| == |m.bs| + 1 && |elts'| == |elts|
    requires forall x: Block, k :: x.id == f && 0 <= k <= |m.bs| ==>
      Recycled(elts, removed, m.bs[..k] + [x] + m.bs[k..])
    requires forall e :: HasId(r, e) ==> HasId(m.bs, e) || e == f
    ensures Recycled(elts', removed, r)
  {
    var x := Block(f, 0, 0);
    RecycledCut(elts, removed, m, i, r, x);
  }

  lemma RecycledLength(elts: seq<Elt>, elts': seq<Elt>, removed: seq<nat>, bs: seq<Block>)
    requires Recycled(elts, removed, bs) && |elts'| == |elts|
    ensures Recycled(elts', removed, bs)
  {
  }

  lemma NewEltLists(elts: seq<Elt>, elts': seq<Elt>, free: seq<seq<nat>>, home: map<nat, nat>, ei: nat)
    requires Lists(elts, free, home) && ei !in home
    requires |elts| <= |elts'| <= |elts| + 1 && ei < |elts'| && elts'[ei].free == NIL
    requires |elts'| > |elts| ==> ei == |elts|
    requires forall e :: 0 <= e < |elts| && e != ei ==> elts'[e] == elts[e]
    ensures Lists(elts', free, home)
  {
    forall e | e in home ensures FiledAt(elts', free, home, e) {
      assert FiledAt(elts, free, home, e);
    }
    forall l, k | 0 <= l < |free| && 0 <= k < |free[l]| ensures SlotOk(elts', free, home, l, k) {
      assert SlotOk(elts, free, home, l, k);
    }
  }
}

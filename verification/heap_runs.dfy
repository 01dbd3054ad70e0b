/** Whole runs of the block allocator. */
module HeapRuns {
  import opened HeapModel
  import opened BlockHeap

  /** What a client may do: ask for a block, or give back the k-th of those it holds. */
  datatype Request =
    | Ask(size: nat)
    | AskAligned(size: nat, a: nat)
    | Release(k: nat)

  /** The most a request may add to the heap. */
  function Room(q: Request): nat {
    match q
    case Ask(size) => size
    case AskAligned(size, a) => size + a
    case Release(_) => 0
  }

  function Rooms(qs: seq<Request>): nat {
    if |qs| == 0 then 0 else Room(qs[0]) + Rooms(qs[1..])
  }

  /** What the allocator takes: an aligned request has an alignment, and a size unless that is 1. */
  predicate Sane(q: Request) {
    q.AskAligned? ==> q.a > 0 && (q.size > 0 || q.a == 1)
  }

  /** The request asks for no more than any before it, or for less than any free block on list 0. */
  ghost predicate Guard(m: Model, q: Request) {
    q.Release? || q.size <= m.maxSize
    || forall i :: 0 <= i < |m.bs| && m.bs[i].id in m.home && m.home[m.bs[i].id] == 0 ==> m.bs[i].size > q.size
  }

  ghost predicate Fresh(m: Model, b: Block) {
    forall c :: c in Live(m) ==> c.id != b.id
  }

  /** The client gets one fresh block, of its size and alignment, and no block in use changes. */
  ghost predicate Granted(m: Model, held: seq<nat>, r: Model, held': seq<nat>, size: nat, a: nat) {
    exists b :: Live(r) == Live(m) + {b} && b.size == size && b.offset % (if a > 0 then a else 1) == 0 && Fresh(m, b)
      && held' == held + [b.id]
  }

  /** The client gives back the k-th block it holds, and no other block in use changes. */
  ghost predicate Returned(m: Model, held: seq<nat>, r: Model, held': seq<nat>, k: nat)
    requires k < |held|
  {
    exists b :: b in Live(m) && b.id == held[k] && Live(r) == Live(m) - {b} && held' == held[..k] + held[k+1..]
  }

  ghost predicate Refused(m: Model, held: seq<nat>, r: Model, held': seq<nat>) {
    Live(r) == Live(m) && held' == held
  }

  /** Only a request for nothing, or in a heap of limited length, is ever refused. */
  ghost predicate Served(m: Model, held: seq<nat>, r: Model, held': seq<nat>, q: Request, limited: bool) {
    match q
    case Ask(size) =>
      || Granted(m, held, r, held', size, 1)
      || ((size == 0 || limited) && Refused(m, held, r, held'))
    case AskAligned(size, a) =>
      || Granted(m, held, r, held', size, a)
      || ((size == 0 || limited) && Refused(m, held, r, held'))
    case Release(k) =>
      if k < |held| then Returned(m, held, r, held', k) else Refused(m, held, r, held')
  }

  ghost predicate InUse(m: Model, id: nat) {
    exists b :: b in Live(m) && b.id == id
  }

  /** The client holds these blocks, each once. */
  ghost predicate Holds(m: Model, held: seq<nat>) {
    && (forall i :: 0 <= i < |held| ==> InUse(m, held[i]))
    && (forall i, j :: 0 <= i < j < |held| ==> held[i] != held[j])
  }

  lemma HoldsMore(m: Model, r: Model, held: seq<nat>, b: Block)
    requires Holds(m, held) && Live(r) == Live(m) + {b} && forall a :: a in Live(m) ==> a.id != b.id
    ensures Holds(r, held + [b.id])
  {
    forall i | 0 <= i <= |held| ensures InUse(r, (held + [b.id])[i]) {
      if i < |held| {
        assert InUse(m, held[i]);
        var a :| a in Live(m) && a.id == held[i];
        assert a in Live(r);
      } else {
        assert b in Live(r);
      }
    }
    forall i | 0 <= i < |held| ensures held[i] != b.id {
      assert InUse(m, held[i]);
    }
  }

  lemma HoldsLess(m: Model, r: Model, held: seq<nat>, k: nat, b: Block)
    requires Holds(m, held) && k < |held| && Live(r) == Live(m) - {b} && b.id == held[k]
    ensures Holds(r, held[..k] + held[k+1..])
  {
    var rest := held[..k] + held[k+1..];
    assert forall i :: 0 <= i < |rest| ==> rest[i] == held[if i < k then i else i + 1];
    forall i | 0 <= i < |rest| ensures InUse(r, rest[i]) {
      var j := if i < k then i else i + 1;
      assert InUse(m, held[j]);
      var a :| a in Live(m) && a.id == held[j];
      assert a in Live(r);
    }
  }

  lemma HeldBlock(m: Model, held: seq<nat>, k: nat)
    requires Holds(m, held) && k < |held|
    ensures HasId(m.bs, held[k]) && held[k] !in m.home
  {
    assert InUse(m, held[k]);
    var b :| b in Live(m) && b.id == held[k];
    var i :| 0 <= i < |m.bs| && m.bs[i].id !in m.home && m.bs[i] == b;
  }

  lemma GuardIs(m: Model, len: nat, q: Request)
    requires Ok(m, len) && !q.Release?
    ensures Live(Asked(m, q.size)) == Live(m)
    ensures WellFiled(m) && Guard(m, q) ==> WellFiled(Asked(m, q.size))
  {
    AskedOk(m, len, q.size);
  }

  /** One request. */
  method Serve(h: Heap, q: Request, held: seq<nat>) returns (corrupt: bool, held': seq<nat>)
    requires h.Valid() && Sane(q) && h.len + Room(q) < NIL && Holds(h.M(), held)
    modifies h
    ensures h.len <= old(h.len) + Room(q)
    ensures !corrupt ==> h.Valid() && Holds(h.M(), held')
    ensures !corrupt ==> Served(old(h.M()), held, h.M(), held', q, h.maxLen != 0) && h.maxLen == old(h.maxLen)
    ensures old(WellFiled(h.M())) && old(Guard(h.M(), q)) ==> !corrupt && WellFiled(h.M())
  {
    hide Live, WellFiled, Ok, Heap.Valid, HasId, AlignCorrupts, GetStep, PutModel, PutCorrupts, Holds, Guard;
    ghost var m := h.M();
    corrupt, held' := false, held;
    ValidOk(h);
    match q {
      case Ask(size) =>
        GuardIs(m, h.len, q);
        var o, id, offset := h.Get(size);
        HoldsSame(m, h.M(), held);
        if o == Done {
          HoldsMore(m, h.M(), held, Block(id, offset, size));
          GrantedBy(m, held, h.M(), Block(id, offset, size), 1);
          held' := held + [id];
        }
      case AskAligned(size, a) =>
        GuardIs(m, h.len, q);
        var o, id, offset := h.GetAligned(size, a);
        HoldsSame(m, h.M(), held);
        corrupt := o == CorruptFreeList;
        if o == Done {
          HoldsMore(m, h.M(), held, Block(id, offset, size));
          GrantedBy(m, held, h.M(), Block(id, offset, size), a);
          held' := held + [id];
        }
      case Release(k) =>
        if k < |held| {
          HeldBlock(m, held, k);
          ghost var b := h.bs[h.Pos(held[k])];
          BlockLive(m, h.Pos(held[k]));
          var o := h.Put(held[k]);
          corrupt := o == CorruptFreeList;
          if o == Done {
            HoldsLess(m, h.M(), held, k, b);
            held' := held[..k] + held[k+1..];
          }
        }
    }
  }

  lemma ValidOk(h: Heap)
    requires h.Valid()
    ensures Ok(h.M(), h.len)
  {
  }

  lemma HoldsSame(m: Model, r: Model, held: seq<nat>)
    requires Holds(m, held)
    ensures Live(r) == Live(m) ==> Holds(r, held)
  {
    if Live(r) == Live(m) {
      forall i | 0 <= i < |held| ensures InUse(r, held[i]) {
        assert InUse(m, held[i]);
      }
    }
  }

  lemma GrantedBy(m: Model, held: seq<nat>, r: Model, b: Block, a: nat)
    requires Live(r) == Live(m) + {b} && a > 0 && b.offset % a == 0 && forall c :: c in Live(m) ==> c.id != b.id
    ensures Granted(m, held, r, held + [b.id], b.size, a)
  {
    assert Fresh(m, b);
  }

  lemma BlockLive(m: Model, i: nat)
    requires i < |m.bs| && m.bs[i].id !in m.home
    ensures m.bs[i] in Live(m)
  {
  }

  /** A run of requests by a client that holds some blocks to begin with, until one corrupts a free list. Every
    * request is served as it should be and every block held stays in use; and if each request meets the guard
    * when its turn comes, the run goes to its end. */
  method Run(h: Heap, qs: seq<Request>, held0: seq<nat>)
    returns (corrupt: bool, held: seq<nat>, ghost ms: seq<Model>, ghost hs: seq<seq<nat>>)
    requires h.Valid() && h.len + Rooms(qs) < NIL && Holds(h.M(), held0)
    requires forall q :: q in qs ==> Sane(q)
    modifies h
    ensures 0 < |ms| == |hs| <= |qs| + 1 && ms[0] == old(h.M()) && hs[0] == held0
    ensures forall n :: 0 <= n < |ms| - 1 ==> Served(ms[n], hs[n], ms[n + 1], hs[n + 1], qs[n], old(h.maxLen) != 0)
    ensures !corrupt ==> |ms| == |qs| + 1 && h.Valid() && h.M() == ms[|qs|] && held == hs[|qs|] && Holds(h.M(), held)
    ensures WellFiled(ms[0]) && (forall n :: 0 <= n < |ms| && n < |qs| ==> Guard(ms[n], qs[n])) ==>
      !corrupt && WellFiled(h.M())
  {
    hide Live, WellFiled, Ok, Heap.Valid, HasId, Holds, Guard, Served;
    corrupt, held, ms, hs := false, held0, [h.M()], [held0];
    var n := 0;
    while n < |qs| && !corrupt
      invariant n <= |qs| && 0 < |ms| == |hs| <= n + 1 && ms[0] == old(h.M()) && hs[0] == held0
      invariant corrupt ==> |ms| == n
      invariant !corrupt ==> |ms| == n + 1 && h.Valid() && h.M() == ms[n] && held == hs[n] && Holds(h.M(), held)
      invariant !corrupt ==> h.len + Rooms(qs[n..]) < NIL && h.maxLen == old(h.maxLen)
      invariant forall k :: 0 <= k < |ms| - 1 ==> Served(ms[k], hs[k], ms[k + 1], hs[k + 1], qs[k], old(h.maxLen) != 0)
      invariant WellFiled(ms[0]) && (forall k :: 0 <= k < |ms| && k < |qs| ==> Guard(ms[k], qs[k])) ==>
        !corrupt && WellFiled(h.M())
    {
      assert qs[n] in qs && qs[n..][1..] == qs[n+1..];
      ghost var was, were := ms, hs;
      corrupt, held := Serve(h, qs[n], held);
      n := n + 1;
      if !corrupt {
        ms, hs := ms + [h.M()], hs + [held];
        assert forall k :: 0 <= k < |was| ==> ms[k] == was[k] && hs[k] == were[k];
      }
    }
  }

  /** A request that nothing free can serve is served at the end. */
  lemma ServedAtEnd(m: Model, r: Model, i: nat, size: nat, len: nat, len': nat)
    requires GetStep(m, r, i, size, len, len') && NoneExact(m, size) && NoneFits(m, size)
    ensures i == |m.bs| && i < |r.bs| && len' == len + size
    ensures !HasId(m.bs, r.bs[i].id) && r == Extend(m, r.bs[i].id, len, size)
  {
  }

  lemma FreeTwo(a: nat, b: nat)
    requires a != b
    ensures var m1 := Model([Block(a, 0, 1), Block(b, 1, 1)], map[], 0, 1);
            var m2 := Model([Block(a, 0, 1), Block(b, 1, 1)], map[a := 1], 2, 1);
            && PutModel(m1, 0) == m2 && !PutCorrupts(m1, 0)
            && PutModel(m2, 1) == Model([Block(b, 0, 2)], map[b := 0], 2, 1) && !PutCorrupts(m2, 1)
  {
  }

  lemma FreeThird(b: nat, c: nat, d: nat)
    requires b != c && b != d && c != d
    ensures var m1 := Model([Block(b, 0, 2), Block(c, 2, 3), Block(d, 5, 3)], map[b := 0], 2, 3);
            var m2 := Model([Block(b, 0, 2), Block(c, 2, 3), Block(d, 5, 3)], map[b := 0, d := 3], 4, 3);
            PutModel(m1, 2) == m2 && !PutCorrupts(m1, 2) && PutCorrupts(m2, 1)
  {
  }

  lemma PosIn(h: Heap, i: nat)
    requires h.Valid() && i < |h.bs|
    ensures HasId(h.bs, h.bs[i].id) && h.Pos(h.bs[i].id) == i
  {
    IndexOfIdUnique(h.bs, i);
  }

  /** A request that no free block can serve. */
  method AskNew(h: Heap, size: nat) returns (id: nat)
    requires h.Valid() && h.len + size < NIL && size > 0 && h.maxLen == 0
    requires forall e :: e in h.home ==> h.home[e] == 0
    requires forall i :: 0 <= i < |h.bs| && h.bs[i].id in h.home ==> h.bs[i].size < size
    modifies h
    ensures h.Valid() && h.maxLen == 0 && !HasId(old(h.bs), id)
    ensures h.M() == Extend(Asked(old(h.M()), size), id, old(h.len), size) && h.len == old(h.len) + size
    ensures |h.bs| == |old(h.bs)| + 1 && HasId(h.bs, id) && h.Pos(id) == |old(h.bs)|
  {
    hide Live, WellFiled, Ok, Chain, Lists, Recycled, Ends, GetStep;
    ghost var m := Asked(h.M(), size);
    assert NoneExact(m, size) && NoneFits(m, size);
    var o, x;
    o, id, x := h.Get(size);
    ServedAtEnd(m, h.M(), h.Pos(id), size, old(h.len), h.len);
  }

  /** A heap whose one block, of size 2, was freed when 1 was the largest size asked for; the block of a was
    * freed first and then swallowed. */
  method FreedPair() returns (h: Heap, a: nat, b: nat)
    ensures fresh(h) && h.Valid() && h.len == 2 && h.maxLen == 0 && a in h.removed && !HasId(h.bs, a)
    ensures h.M() == Model([Block(b, 0, 2)], map[b := 0], 2, 1)
  {
    hide Live, WellFiled, Ok, Chain, Lists, Recycled, Ends, HasId, PutModel, PutCorrupts;
    h := new Heap();
    assert h.M() == Model(h.bs, h.home, |h.free|, h.maxSize);
    a := AskNew(h, 1);
    assert h.M() == Model(h.bs, h.home, |h.free|, h.maxSize) == Model([Block(a, 0, 1)], map[], 0, 1);
    ghost var bs0 := h.bs;
    b := AskNew(h, 1);
    NotAnId(bs0, b);
    assert bs0[0].id == a;
    assert h.M() == Model(h.bs, h.home, |h.free|, h.maxSize) == Model([Block(a, 0, 1), Block(b, 1, 1)], map[], 0, 1);
    FreeTwo(a, b);
    PosIn(h, 0);
    AnElt(h, a);
    var o := h.Put(a);
    PosIn(h, 1);
    o := h.Put(b);
    Swallowed(h, a, b);
  }

  lemma AnElt(h: Heap, e: nat)
    requires h.Valid() && HasId(h.bs, e)
    ensures e < |h.elts|
  {
    IdOfBlock(h.elts, h.bs, h.Pos(e));
  }

  lemma Swallowed(h: Heap, a: nat, b: nat)
    requires h.Valid() && |h.bs| == 1 && h.bs[0].id == b != a && a < |h.elts|
    ensures !HasId(h.bs, a) && a in h.removed
  {
    NotABlock(h.elts, h.removed, h.bs, a);
  }

  /** A double free that is not told: two neighbours are freed and merge, and the swallowed one is freed again.
    * The heap is no longer whole: an element that waits to be recycled stands on a free list. */
  method UntoldFree() returns (h: Heap, a: nat, o: Outcome)
    ensures o == Done && !h.Valid() && a in h.removed && a in h.home
  {
    var b;
    h, a, b := FreedPair();
    o := h.Put(a);
  }

  /** Without that, eight calls are enough: two blocks of size 1 are freed and merge, on list 0, to a
      block of size 2; the free of a block of size 3 then makes that size look filed elsewhere. */
  method CorruptRun() returns (o: Outcome)
    ensures o == CorruptFreeList
  {
    hide Live, WellFiled, Ok, Chain, Lists, Recycled, Ends, HasId, PutModel, PutCorrupts;
    var h, a, b := FreedPair();
    assert h.M() == Model(h.bs, h.home, |h.free|, h.maxSize);
    ghost var bs0 := h.bs;
    var c := AskNew(h, 3);
    NotAnId(bs0, c);
    assert bs0[0].id == b;
    assert h.M() == Model(h.bs, h.home, |h.free|, h.maxSize)
      == Model([Block(b, 0, 2), Block(c, 2, 3)], map[b := 0], 2, 3);
    bs0 := h.bs;
    var d := AskNew(h, 3);
    NotAnId(bs0, d);
    assert bs0[0].id == b && bs0[1].id == c;
    assert h.M() == Model(h.bs, h.home, |h.free|, h.maxSize)
                 == Model([Block(b, 0, 2), Block(c, 2, 3), Block(d, 5, 3)], map[b := 0], 2, 3);
    FreeThird(b, c, d);
    PosIn(h, 2);
    o := h.Put(d);
    PosIn(h, 1);
    o := h.Put(c);
  }
}

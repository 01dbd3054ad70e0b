/** What the block allocator of goes/elib/heap.go maintains: a row of blocks that tiles [0, len),
    some of them free and filed on size-indexed lists. */
module HeapModel {

  datatype Block = Block(id: nat, offset: nat, size: nat) {
    function End(): nat { offset + size }
  }

  /** `bs` is the row of blocks in address order. A free block has an entry in `home`: the list it
      is filed on. `nLists` is len(heap.free). */
  datatype Model = Model(bs: seq<Block>, home: map<nat, nat>, nLists: nat, maxSize: nat) {
    predicate IsFree(i: nat)
      requires i < |bs|
    {
      bs[i].id in home
    }
  }

  ghost predicate DistinctIds(bs: seq<Block>) {
    forall i, j :: 0 <= i < j < |bs| ==> bs[i].id != bs[j].id
  }

  ghost predicate Tiles(bs: seq<Block>, len: nat) {
    && (if |bs| == 0 then len == 0 else bs[0].offset == 0 && bs[|bs|-1].End() == len)
    && (forall i :: 0 <= i < |bs| ==> bs[i].size > 0)
    && (forall i, j :: 0 <= i && j == i + 1 && j < |bs| ==> bs[i].End() == bs[j].offset)
  }

  /** No two adjacent blocks are free. */
  ghost predicate Coalesced(m: Model) {
    forall i, j :: 0 <= i && j == i + 1 && j < |m.bs| ==> m.bs[i].id !in m.home || m.bs[j].id !in m.home
  }

  ghost predicate HasId(bs: seq<Block>, e: nat) {
    exists i :: 0 <= i < |bs| && bs[i].id == e
  }

  /** Every free block is on list 0 or on the list of its size. */
  ghost predicate Homes(m: Model) {
    && m.nLists <= m.maxSize + 1
    && (forall e :: e in m.home ==> m.home[e] < m.nLists && HasId(m.bs, e))
    && (forall i :: 0 <= i < |m.bs| && m.bs[i].id in m.home ==> m.home[m.bs[i].id] in {0, m.bs[i].size})
  }

  /** Holds over every run, whatever is asked for. */
  ghost predicate Ok(m: Model, len: nat) {
    DistinctIds(m.bs) && Tiles(m.bs, len) && Coalesced(m) && Homes(m)
  }

  /** A block that was filed on list 0 as too large, though it would now be looked for elsewhere. */
  predicate Misfiled(m: Model, i: nat)
    requires i < |m.bs|
  {
    m.bs[i].id in m.home && m.home[m.bs[i].id] == 0 && m.bs[i].size < m.nLists
  }

  /** List 0 holds only blocks above the largest size asked for. */
  ghost predicate WellFiled(m: Model) {
    forall i :: 0 <= i < |m.bs| && m.bs[i].id in m.home && m.home[m.bs[i].id] == 0 ==> m.bs[i].size > m.maxSize
  }

  predicate WellFiledAt(m: Model, i: nat)
    requires i < |m.bs|
  {
    m.bs[i].id in m.home && m.home[m.bs[i].id] == 0 ==> m.bs[i].size > m.maxSize
  }

  lemma WellFiledNeverMisfiled(m: Model, len: nat, i: nat)
    requires Ok(m, len) && WellFiled(m) && i < |m.bs|
    ensures !Misfiled(m, i)
  {
  }

  /** The blocks in use. */
  ghost function Live(m: Model): set<Block> {
    set i | 0 <= i < |m.bs| && m.bs[i].id !in m.home :: m.bs[i]
  }

  lemma {:induction false} TilesApart(bs: seq<Block>, len: nat, i: nat, j: nat)
    requires Tiles(bs, len) && i < j < |bs|
    ensures bs[i].End() <= bs[j].offset
    decreases j
  {
    if i + 1 < j {
      TilesApart(bs, len, i, j - 1);
    }
    assert bs[j-1].End() == bs[j].offset;
  }

  lemma TilesWithin(bs: seq<Block>, len: nat, i: nat)
    requires Tiles(bs, len) && i < |bs|
    ensures bs[i].End() <= len
  {
    if i < |bs| - 1 {
      TilesApart(bs, len, i, |bs| - 1);
    }
  }

  /** Blocks in use are disjoint and inside the heap. */
  lemma LiveDisjoint(m: Model, len: nat, a: Block, b: Block)
    requires Ok(m, len) && a in Live(m) && b in Live(m)
    ensures a.size > 0 && a.End() <= len
    ensures a != b ==> a.id != b.id && (a.End() <= b.offset || b.End() <= a.offset)
  {
    var i :| 0 <= i < |m.bs| && m.bs[i] == a;
    var j :| 0 <= j < |m.bs| && m.bs[j] == b;
    TilesWithin(m.bs, len, i);
    if i < j { TilesApart(m.bs, len, i, j); }
    if j < i { TilesApart(m.bs, len, j, i); }
  }

  function Total(bs: seq<Block>): nat {
    if |bs| == 0 then 0 else Total(bs[..|bs|-1]) + bs[|bs|-1].size
  }

  /** Nothing is lost: free and used blocks add up to the heap. */
  lemma {:induction false} TilesTotal(bs: seq<Block>, len: nat)
    requires Tiles(bs, len)
    ensures Total(bs) == len && |bs| <= len
    decreases |bs|
  {
    var n := |bs|;
    if n > 0 {
      var r := bs[..n-1];
      assert forall i :: 0 <= i < n - 1 ==> r[i] == bs[i];
      if n > 1 {
        assert bs[n-2].End() == bs[n-1].offset;
      }
      TilesTotal(r, bs[n-1].offset);
    }
  }

  // ---- the steps ----

  function Filed(m: Model, size: nat): nat { if size > m.maxSize then 0 else size }

  /** Files block `i` on the free list for its size. */
  function FreeAt(m: Model, i: nat): Model
    requires i < |m.bs|
  {
    var h := Filed(m, m.bs[i].size);
    m.(home := m.home[m.bs[i].id := h], nLists := if h < m.nLists then m.nLists else h + 1)
  }

  /** Block `i` swallows the one before it. */
  function MergePrev(m: Model, i: nat): Model
    requires 0 < i < |m.bs|
  {
    var p, e := m.bs[i-1], m.bs[i];
    m.(bs := m.bs[..i-1] + [Block(e.id, p.offset, p.size + e.size)] + m.bs[i+1..], home := m.home - {p.id})
  }

  /** Block `i` swallows the one after it. */
  function MergeNext(m: Model, i: nat): Model
    requires i + 1 < |m.bs|
  {
    var e, n := m.bs[i], m.bs[i+1];
    m.(bs := m.bs[..i] + [Block(e.id, e.offset, e.size + n.size)] + m.bs[i+2..], home := m.home - {n.id})
  }

  predicate PrevFree(m: Model, i: nat)
    requires i < |m.bs|
  {
    i > 0 && m.IsFree(i - 1)
  }

  predicate NextFree(m: Model, i: nat)
    requires i < |m.bs|
  {
    i + 1 < |m.bs| && m.IsFree(i + 1)
  }

  function PutPrev(m: Model, i: nat): (Model, nat)
    requires i < |m.bs|
  {
    if PrevFree(m, i) then (MergePrev(m, i), i - 1) else (m, i)
  }

  function PutNext(m: Model, i: nat): Model
    requires i < |m.bs|
  {
    if NextFree(m, i) then MergeNext(m, i) else m
  }

  /** Put: frees block `i`, coalescing it with free neighbours. */
  function PutModel(m: Model, i: nat): Model
    requires i < |m.bs|
  {
    var (m1, j) := PutPrev(m, i);
    FreeAt(PutNext(m1, j), j)
  }

  /** When Put finds a free neighbour off the list it looks on. */
  predicate PutCorrupts(m: Model, i: nat)
    requires i < |m.bs|
  {
    (PrevFree(m, i) && Misfiled(m, i - 1)) || (NextFree(m, i) && Misfiled(m, i + 1))
  }

  /** Takes free block `i` whole. */
  function TakeAt(m: Model, i: nat): Model
    requires i < |m.bs|
  {
    m.(home := m.home - {m.bs[i].id})
  }

  /** Cuts block `i` after `size`; the new block `f` behind the cut is in use for now. */
  function CutAt(m: Model, i: nat, size: nat, f: nat): Model
    requires i < |m.bs| && size < m.bs[i].size
  {
    var e := m.bs[i];
    m.(bs := m.bs[..i] + [Block(e.id, e.offset, size), Block(f, e.offset + size, e.size - size)] + m.bs[i+1..])
  }

  /** Cuts block `i` at `size`, the new block `f` in front of the cut. */
  function CutFront(m: Model, i: nat, size: nat, f: nat): Model
    requires i < |m.bs| && size < m.bs[i].size
  {
    var e := m.bs[i];
    m.(bs := m.bs[..i] + [Block(f, e.offset, size), Block(e.id, e.offset + size, e.size - size)] + m.bs[i+1..])
  }

  /** First fit from list 0. */
  function SplitAt(m: Model, i: nat, size: nat, f: nat): Model
    requires i < |m.bs| && size <= m.bs[i].size
  {
    var t := TakeAt(m, i);
    if size == m.bs[i].size then t else FreeAt(CutAt(t, i, size, f), i + 1)
  }

  /** A new block at the end. */
  function Extend(m: Model, id: nat, len: nat, size: nat): Model {
    m.(bs := m.bs + [Block(id, len, size)])
  }

  function Asked(m: Model, size: nat): Model {
    m.(maxSize := if size > m.maxSize then size else m.maxSize)
  }

  // ---- what each step keeps ----

  /** `r` is `bs` with the `n` blocks at `i` replaced by `k` others. */
  ghost predicate Replaced(bs: seq<Block>, r: seq<Block>, i: nat, n: nat, k: nat) {
    && n > 0 && k > 0 && i + n <= |bs| && |r| + n == |bs| + k
    && (forall j :: 0 <= j < i ==> r[j] == bs[j])
    && (forall j :: i + k <= j < |r| ==> r[j] == bs[j - k + n])
  }

  lemma ReplacedTiles(bs: seq<Block>, r: seq<Block>, i: nat, n: nat, k: nat, len: nat)
    requires Replaced(bs, r, i, n, k) && Tiles(bs, len)
    requires r[i].offset == bs[i].offset && r[i+k-1].End() == bs[i+n-1].End()
    requires forall j :: i <= j < i + k ==> r[j].size > 0
    requires forall j, h :: i <= j && h == j + 1 && h < i + k ==> r[j].End() == r[h].offset
    ensures Tiles(r, len)
  {
    forall j, h | 0 <= j && h == j + 1 && h < |r| ensures r[j].End() == r[h].offset {
      if h < i {
      } else if h == i {
        assert bs[j].End() == bs[i].offset;
      } else if j >= i + k - 1 {
        assert bs[j - k + n].End() == bs[h - k + n].offset;
      }
    }
  }

  /** Ids of the new blocks: old ids of the replaced ones, or new altogether. */
  ghost predicate IdFrom(bs: seq<Block>, i: nat, n: nat, e: nat) {
    !HasId(bs, e) || exists j :: i <= j < i + n && j < |bs| && bs[j].id == e
  }

  lemma ReplacedIds(bs: seq<Block>, r: seq<Block>, i: nat, n: nat, k: nat)
    requires Replaced(bs, r, i, n, k) && DistinctIds(bs)
    requires forall j :: i <= j < i + k ==> IdFrom(bs, i, n, r[j].id)
    requires forall j, h :: i <= j < h < i + k ==> r[j].id != r[h].id
    ensures DistinctIds(r)
  {
    forall j, h | 0 <= j < |r| && i <= h < i + k && (j < i || j >= i + k) ensures r[j].id != r[h].id {
      var g := if j < i then j else j - k + n;
      assert r[j] == bs[g];
      assert HasId(bs, bs[g].id);
    }
  }

  /** Blocks other than the replaced ones are still there. */
  lemma ReplacedKeeps(bs: seq<Block>, r: seq<Block>, i: nat, n: nat, k: nat, g: nat) returns (j: nat)
    requires Replaced(bs, r, i, n, k) && g < |bs| && !(i <= g < i + n)
    ensures j < |r| && r[j] == bs[g] && !(i <= j < i + k)
  {
    j := if g < i then g else g - n + k;
  }

  lemma ReplacedHomes(m: Model, r: Model, i: nat, n: nat, k: nat)
    requires Replaced(m.bs, r.bs, i, n, k) && Homes(m) && r.nLists == m.nLists && r.maxSize == m.maxSize
    requires forall e :: e in r.home ==> e in m.home && r.home[e] == m.home[e]
    requires forall e :: e in r.home ==> forall j :: i <= j < i + n ==> m.bs[j].id != e
    requires forall j :: i <= j < i + k ==> r.bs[j].id !in r.home
    ensures Homes(r)
    ensures WellFiled(m) ==> WellFiled(r)
  {
    forall e | e in r.home ensures HasId(r.bs, e) {
      assert HasId(m.bs, e);
      var g :| 0 <= g < |m.bs| && m.bs[g].id == e;
      var j := ReplacedKeeps(m.bs, r.bs, i, n, k, g);
      assert r.bs[j].id == e;
    }
  }

  lemma ReplacedCoalesced(m: Model, r: Model, i: nat, n: nat, k: nat)
    requires Replaced(m.bs, r.bs, i, n, k) && Coalesced(m)
    requires forall e :: e in r.home ==> e in m.home
    requires forall j :: i <= j < i + k ==> r.bs[j].id !in r.home
    ensures Coalesced(r)
  {
    forall j, h | 0 <= j && h == j + 1 && h < |r.bs| ensures r.bs[j].id !in r.home || r.bs[h].id !in r.home {
      if j >= i + k {
        assert r.bs[j] == m.bs[j - k + n] && r.bs[h] == m.bs[h - k + n];
      }
    }
  }

  /** What becomes of the blocks in use. `used` is the one of the replaced blocks in use. */
  lemma ReplacedLive(m: Model, r: Model, i: nat, n: nat, k: nat, used: nat)
    requires Replaced(m.bs, r.bs, i, n, k) && DistinctIds(m.bs)
    requires forall j :: 0 <= j < |m.bs| && !(i <= j < i + n) ==> (m.bs[j].id in r.home <==> m.bs[j].id in m.home)
    requires i <= used < i + n && forall j :: i <= j < i + n ==> (m.bs[j].id in m.home <==> j != used)
    requires forall j :: i <= j < i + k ==> r.bs[j].id !in r.home
    ensures Live(r) == Live(m) - {m.bs[used]} + (set j | i <= j < i + k :: r.bs[j])
  {
    forall b | b in Live(m) - {m.bs[used]} ensures b in Live(r) {
      var g :| 0 <= g < |m.bs| && m.bs[g].id !in m.home && m.bs[g] == b;
      var j := ReplacedKeeps(m.bs, r.bs, i, n, k, g);
      assert r.bs[j] == b;
    }
    forall b | b in Live(r) ensures b in Live(m) - {m.bs[used]} + (set j | i <= j < i + k :: r.bs[j]) {
      var j :| 0 <= j < |r.bs| && r.bs[j].id !in r.home && r.bs[j] == b;
      if !(i <= j < i + k) {
        var g := if j < i then j else j - k + n;
        assert m.bs[g] == b && m.bs[g].id != m.bs[used].id;
      }
    }
    forall j | i <= j < i + k ensures r.bs[j] in Live(r) {
    }
  }

  /** What merging puts in place of the two blocks. */
  lemma MergePrevIs(m: Model, i: nat, len: nat)
    requires 0 < i < |m.bs| && Tiles(m.bs, len)
    ensures var r := MergePrev(m, i);
      (Replaced(m.bs, r.bs, i - 1, 2, 1)
       && r.bs[i-1] == Block(m.bs[i].id, m.bs[i-1].offset, m.bs[i-1].size + m.bs[i].size)
       && r.home == m.home - {m.bs[i-1].id} && r.nLists == m.nLists && r.maxSize == m.maxSize)
  {
  }

  lemma MergePrevOk(m: Model, len: nat, i: nat)
    requires Ok(m, len) && 0 < i < |m.bs| && m.bs[i].id !in m.home && m.IsFree(i - 1)
    ensures Ok(MergePrev(m, i), len)
    ensures Live(MergePrev(m, i)) == Live(m) - {m.bs[i]} + {MergePrev(m, i).bs[i-1]}
    ensures WellFiled(m) ==> WellFiled(MergePrev(m, i))
  {
    hide MergePrev, Homes, Coalesced, WellFiled, Live, HasId, Tiles, DistinctIds;
    var r := MergePrev(m, i);
    MergePrevIs(m, i, len);
    MergedParts(m, r, i - 1, len, i);
    assert (set j | i - 1 <= j < i - 1 + 1 :: r.bs[j]) == {r.bs[i-1]};
  }

  /** The parts common to merging either way: blocks `a` and `a + 1` become one, `used` keeping its id. */
  lemma MergedParts(m: Model, r: Model, a: nat, len: nat, used: nat)
    requires Ok(m, len) && a + 1 < |m.bs| && (used == a || used == a + 1)
    requires Replaced(m.bs, r.bs, a, 2, 1)
    requires r.bs[a] == Block(m.bs[used].id, m.bs[a].offset, m.bs[a].size + m.bs[a+1].size)
    requires m.bs[used].id !in m.home && m.bs[if used == a then a + 1 else a].id in m.home
    requires r.home == m.home - {m.bs[if used == a then a + 1 else a].id}
    requires r.nLists == m.nLists && r.maxSize == m.maxSize
    ensures Ok(r, len)
    ensures Live(r) == Live(m) - {m.bs[used]} + (set j | a <= j < a + 1 :: r.bs[j])
    ensures WellFiled(m) ==> WellFiled(r)
  {
    hide Tiles, DistinctIds, Homes, Coalesced, Live, WellFiled;
    MergedTiles(m.bs, r.bs, a, len, used);
    MergedIds(m.bs, r.bs, a, used);
    MergedHomes(m, r, a, used);
    ReplacedCoalesced(m, r, a, 2, 1);
    MergedLive(m, r, a, used);
  }

  lemma MergedTiles(bs: seq<Block>, r: seq<Block>, a: nat, len: nat, used: nat)
    requires Tiles(bs, len) && a + 1 < |bs| && Replaced(bs, r, a, 2, 1) && used < |bs|
    requires r[a] == Block(bs[used].id, bs[a].offset, bs[a].size + bs[a+1].size)
    ensures Tiles(r, len)
  {
    assert bs[a].End() == bs[a+1].offset;
    ReplacedTiles(bs, r, a, 2, 1, len);
  }

  lemma MergedIds(bs: seq<Block>, r: seq<Block>, a: nat, used: nat)
    requires DistinctIds(bs) && a + 1 < |bs| && Replaced(bs, r, a, 2, 1) && (used == a || used == a + 1)
    requires r[a].id == bs[used].id
    ensures DistinctIds(r)
  {
    ReplacedIds(bs, r, a, 2, 1);
  }

  lemma MergedHomes(m: Model, r: Model, a: nat, used: nat)
    requires Homes(m) && a + 1 < |m.bs| && (used == a || used == a + 1)
    requires Replaced(m.bs, r.bs, a, 2, 1) && r.bs[a].id == m.bs[used].id && m.bs[used].id !in m.home
    requires r.home == m.home - {m.bs[if used == a then a + 1 else a].id}
    requires r.nLists == m.nLists && r.maxSize == m.maxSize
    ensures Homes(r)
    ensures WellFiled(m) ==> WellFiled(r)
  {
    ReplacedHomes(m, r, a, 2, 1);
  }

  lemma MergedLive(m: Model, r: Model, a: nat, used: nat)
    requires DistinctIds(m.bs) && a + 1 < |m.bs| && (used == a || used == a + 1)
    requires Replaced(m.bs, r.bs, a, 2, 1) && r.bs[a].id == m.bs[used].id
    requires m.bs[used].id !in m.home && m.bs[if used == a then a + 1 else a].id in m.home
    requires r.home == m.home - {m.bs[if used == a then a + 1 else a].id}
    ensures Live(r) == Live(m) - {m.bs[used]} + (set j | a <= j < a + 1 :: r.bs[j])
  {
    ReplacedLive(m, r, a, 2, 1, used);
  }

  lemma MergeNextIs(m: Model, i: nat)
    requires i + 1 < |m.bs|
    ensures var r := MergeNext(m, i);
      (Replaced(m.bs, r.bs, i, 2, 1)
       && r.bs[i] == Block(m.bs[i].id, m.bs[i].offset, m.bs[i].size + m.bs[i+1].size)
       && r.home == m.home - {m.bs[i+1].id} && r.nLists == m.nLists && r.maxSize == m.maxSize)
  {
  }

  lemma MergeNextOk(m: Model, len: nat, i: nat)
    requires Ok(m, len) && i + 1 < |m.bs| && m.bs[i].id !in m.home && m.IsFree(i + 1)
    ensures Ok(MergeNext(m, i), len)
    ensures Live(MergeNext(m, i)) == Live(m) - {m.bs[i]} + {MergeNext(m, i).bs[i]}
    ensures WellFiled(m) ==> WellFiled(MergeNext(m, i))
  {
    hide MergeNext, Homes, Coalesced, WellFiled, Live, HasId, Tiles, DistinctIds;
    var r := MergeNext(m, i);
    MergeNextIs(m, i);
    MergedParts(m, r, i, len, i);
    assert (set j | i <= j < i + 1 :: r.bs[j]) == {r.bs[i]};
  }

  lemma FreeAtHomes(m: Model, i: nat)
    requires Homes(m) && DistinctIds(m.bs) && i < |m.bs| && m.bs[i].id !in m.home && m.bs[i].size > 0
    ensures Homes(FreeAt(m, i))
    ensures WellFiled(m) ==> WellFiled(FreeAt(m, i))
  {
    var r := FreeAt(m, i);
    forall e | e in r.home ensures r.home[e] < r.nLists && HasId(r.bs, e) {
      assert r.bs[i].id == m.bs[i].id;
      assert e in m.home ==> m.home[e] < m.nLists && HasId(m.bs, e);
    }
    forall j | 0 <= j < |r.bs| && r.bs[j].id in r.home ensures r.home[r.bs[j].id] in {0, r.bs[j].size} {
      assert j != i ==> m.bs[j].id != m.bs[i].id;
    }
  }

  lemma FreeAtCoalesced(m: Model, i: nat)
    requires Coalesced(m) && DistinctIds(m.bs) && i < |m.bs| && !PrevFree(m, i) && !NextFree(m, i)
    ensures Coalesced(FreeAt(m, i))
  {
  }

  lemma FreeAtLive(m: Model, i: nat)
    requires DistinctIds(m.bs) && i < |m.bs| && m.bs[i].id !in m.home
    ensures Live(FreeAt(m, i)) == Live(m) - {m.bs[i]}
  {
    var r := FreeAt(m, i);
    forall b | b in Live(m) - {m.bs[i]} ensures b in Live(r) {
      var k :| 0 <= k < |m.bs| && m.bs[k].id !in m.home && m.bs[k] == b;
      assert r.bs[k] == b;
    }
  }

  lemma FreeAtOk(m: Model, len: nat, i: nat)
    requires Ok(m, len) && i < |m.bs| && m.bs[i].id !in m.home && !PrevFree(m, i) && !NextFree(m, i)
    ensures Ok(FreeAt(m, i), len)
    ensures Live(FreeAt(m, i)) == Live(m) - {m.bs[i]}
    ensures WellFiled(m) ==> WellFiled(FreeAt(m, i))
  {
    hide Homes, Coalesced, Live, WellFiled, DistinctIds;
    FreeAtHomes(m, i);
    FreeAtCoalesced(m, i);
    FreeAtLive(m, i);
  }

  lemma PutPrevOk(m: Model, len: nat, i: nat)
    requires Ok(m, len) && i < |m.bs| && m.bs[i].id !in m.home
    ensures var (r, j) := PutPrev(m, i);
            && Ok(r, len) && j < |r.bs| && r.bs[j].id == m.bs[i].id && r.bs[j].id !in r.home && !PrevFree(r, j)
            && Live(r) == Live(m) - {m.bs[i]} + {r.bs[j]}
            && (NextFree(r, j) <==> NextFree(m, i))
            && (NextFree(m, i) ==> (Misfiled(r, j + 1) <==> Misfiled(m, i + 1)))
            && (WellFiled(m) ==> WellFiled(r)) && r.nLists == m.nLists && r.maxSize == m.maxSize
  {
    if PrevFree(m, i) {
      MergePrevOk(m, len, i);
      var r := MergePrev(m, i);
      assert i + 1 < |m.bs| ==> r.bs[i] == m.bs[i+1];
      assert i > 1 ==> r.bs[i-2] == m.bs[i-2];
    }
  }

  lemma PutNextOk(m: Model, len: nat, i: nat)
    requires Ok(m, len) && i < |m.bs| && m.bs[i].id !in m.home && !PrevFree(m, i)
    ensures var r := PutNext(m, i);
            && Ok(r, len) && i < |r.bs| && r.bs[i].id == m.bs[i].id && r.bs[i].id !in r.home
            && !PrevFree(r, i) && !NextFree(r, i)
            && Live(r) == Live(m) - {m.bs[i]} + {r.bs[i]}
            && (WellFiled(m) ==> WellFiled(r)) && r.nLists == m.nLists && r.maxSize == m.maxSize
  {
    if NextFree(m, i) {
      MergeNextOk(m, len, i);
      var r := MergeNext(m, i);
      assert i + 2 < |m.bs| ==> r.bs[i+1] == m.bs[i+2];
    }
  }

  lemma LiveId(m: Model, a: Block, i: nat)
    requires DistinctIds(m.bs) && i < |m.bs| && a in Live(m) && a.id == m.bs[i].id
    ensures a == m.bs[i]
  {
  }

  /** Put frees exactly the block it is given; the heap stays well formed and, filed or misfiled,
      blocks that were well filed stay so. */
  lemma PutOk(m: Model, len: nat, i: nat)
    requires Ok(m, len) && i < |m.bs| && m.bs[i].id !in m.home
    ensures Ok(PutModel(m, i), len)
    ensures Live(PutModel(m, i)) == Live(m) - {m.bs[i]}
    ensures WellFiled(m) ==> WellFiled(PutModel(m, i)) && !PutCorrupts(m, i)
  {
    PutPrevOk(m, len, i);
    var (m1, j) := PutPrev(m, i);
    PutNextOk(m1, len, j);
    var m2 := PutNext(m1, j);
    FreeAtOk(m2, len, j);
    assert m.bs[i] in Live(m);
    forall a | a in Live(m) && a.id == m.bs[i].id ensures a == m.bs[i] {
      LiveId(m, a, i);
    }
    assert Live(FreeAt(m2, j)) == Live(m) - {m.bs[i]};
  }

  lemma TakeAtLive(m: Model, i: nat)
    requires DistinctIds(m.bs) && i < |m.bs| && m.IsFree(i)
    ensures Live(TakeAt(m, i)) == Live(m) + {m.bs[i]} && m.bs[i] !in Live(m)
  {
    var r := TakeAt(m, i);
    assert r.bs[i] in Live(r);
    forall b | b in Live(m) ensures b in Live(r) {
      var k :| 0 <= k < |m.bs| && m.bs[k].id !in m.home && m.bs[k] == b;
      assert r.bs[k] == b;
    }
  }

  lemma TakeAtOk(m: Model, len: nat, i: nat)
    requires Ok(m, len) && i < |m.bs| && m.IsFree(i)
    ensures Ok(TakeAt(m, i), len)
    ensures Live(TakeAt(m, i)) == Live(m) + {m.bs[i]} && m.bs[i] !in Live(m)
    ensures !PrevFree(TakeAt(m, i), i) && !NextFree(TakeAt(m, i), i)
    ensures WellFiled(m) ==> WellFiled(TakeAt(m, i))
  {
    assert i > 0 ==> m.bs[i-1].id !in m.home;
    assert i + 1 < |m.bs| ==> m.bs[i+1].id !in m.home;
    hide Live, DistinctIds, Tiles;
    TakeAtLive(m, i);
  }

  /** The two parts of block `i`: one keeps its id, the other has a new one. */
  predicate Halves(bs: seq<Block>, r: seq<Block>, i: nat, f: nat)
    requires i < |bs| && i + 1 < |r|
  {
    (r[i].id == bs[i].id && r[i+1].id == f) || (r[i].id == f && r[i+1].id == bs[i].id)
  }

  lemma HalvesTiles(bs: seq<Block>, r: seq<Block>, i: nat, len: nat)
    requires Tiles(bs, len) && i < |bs| && Replaced(bs, r, i, 1, 2)
    requires r[i].size > 0 && r[i+1].size > 0 && r[i].offset == bs[i].offset
    requires r[i].End() == r[i+1].offset && r[i+1].End() == bs[i].End()
    ensures Tiles(r, len)
  {
    ReplacedTiles(bs, r, i, 1, 2, len);
  }

  lemma HalvesIds(bs: seq<Block>, r: seq<Block>, i: nat, f: nat)
    requires DistinctIds(bs) && !HasId(bs, f) && i < |bs| && Replaced(bs, r, i, 1, 2) && Halves(bs, r, i, f)
    ensures DistinctIds(r) && bs[i].id != f
  {
    assert HasId(bs, bs[i].id);
    ReplacedIds(bs, r, i, 1, 2);
  }

  lemma HalvesHomes(m: Model, r: Model, i: nat, f: nat)
    requires Homes(m) && !HasId(m.bs, f) && i < |m.bs| && m.bs[i].id !in m.home
    requires Replaced(m.bs, r.bs, i, 1, 2) && Halves(m.bs, r.bs, i, f)
    requires r.home == m.home && r.nLists == m.nLists && r.maxSize == m.maxSize
    ensures Homes(r) && f !in m.home && (WellFiled(m) ==> WellFiled(r))
  {
    ReplacedHomes(m, r, i, 1, 2);
  }

  lemma HalvesLive(m: Model, r: Model, i: nat, f: nat)
    requires DistinctIds(m.bs) && Coalesced(m) && i < |m.bs| && m.bs[i].id !in m.home && f !in m.home
    requires Replaced(m.bs, r.bs, i, 1, 2) && Halves(m.bs, r.bs, i, f) && r.home == m.home
    ensures Coalesced(r)
    ensures Live(r) == Live(m) - {m.bs[i]} + (set j | i <= j < i + 2 :: r.bs[j])
  {
    ReplacedCoalesced(m, r, i, 1, 2);
    hide Coalesced;
    ReplacedLive(m, r, i, 1, 2, i);
  }

  /** The parts common to cutting either way: block `i` in use becomes two. */
  lemma CutParts(m: Model, r: Model, i: nat, len: nat, f: nat)
    requires Ok(m, len) && i < |m.bs| && m.bs[i].id !in m.home && !HasId(m.bs, f)
    requires Replaced(m.bs, r.bs, i, 1, 2) && Halves(m.bs, r.bs, i, f)
    requires r.bs[i].size > 0 && r.bs[i+1].size > 0 && r.bs[i].offset == m.bs[i].offset
    requires r.bs[i].End() == r.bs[i+1].offset && r.bs[i+1].End() == m.bs[i].End()
    requires r.home == m.home && r.nLists == m.nLists && r.maxSize == m.maxSize
    ensures Ok(r, len) && f !in m.home
    ensures Live(r) == Live(m) - {m.bs[i]} + (set j | i <= j < i + 2 :: r.bs[j])
    ensures WellFiled(m) ==> WellFiled(r)
  {
    hide Tiles, DistinctIds, Homes, Coalesced, Live, WellFiled, HasId, Halves;
    HalvesTiles(m.bs, r.bs, i, len);
    HalvesIds(m.bs, r.bs, i, f);
    HalvesHomes(m, r, i, f);
    HalvesLive(m, r, i, f);
  }

  lemma CutAtOk(m: Model, len: nat, i: nat, size: nat, f: nat)
    requires Ok(m, len) && i < |m.bs| && 0 < size < m.bs[i].size && m.bs[i].id !in m.home && !HasId(m.bs, f)
    ensures Ok(CutAt(m, i, size, f), len) && f !in m.home
    ensures Live(CutAt(m, i, size, f)) ==
      Live(m) - {m.bs[i]} + {CutAt(m, i, size, f).bs[i], CutAt(m, i, size, f).bs[i+1]}
    ensures WellFiled(m) ==> WellFiled(CutAt(m, i, size, f))
  {
    var r := CutAt(m, i, size, f);
    hide Homes, Coalesced, WellFiled, Live, HasId, DistinctIds, Tiles;
    CutParts(m, r, i, len, f);
    assert (set j | i <= j < i + 2 :: r.bs[j]) == {r.bs[i], r.bs[i+1]};
  }

  lemma CutFrontOk(m: Model, len: nat, i: nat, size: nat, f: nat)
    requires Ok(m, len) && i < |m.bs| && 0 < size < m.bs[i].size && m.bs[i].id !in m.home && !HasId(m.bs, f)
    ensures Ok(CutFront(m, i, size, f), len) && f !in m.home
    ensures Live(CutFront(m, i, size, f)) ==
      Live(m) - {m.bs[i]} + {CutFront(m, i, size, f).bs[i], CutFront(m, i, size, f).bs[i+1]}
    ensures WellFiled(m) ==> WellFiled(CutFront(m, i, size, f))
  {
    var r := CutFront(m, i, size, f);
    hide Homes, Coalesced, WellFiled, Live, HasId, DistinctIds, Tiles;
    CutParts(m, r, i, len, f);
    assert (set j | i <= j < i + 2 :: r.bs[j]) == {r.bs[i], r.bs[i+1]};
  }

  lemma FreshInLive(m: Model, f: nat)
    requires !HasId(m.bs, f)
    ensures forall a :: a in Live(m) ==> a.id != f
  {
    forall a | a in Live(m) ensures a.id != f {
      var k :| 0 <= k < |m.bs| && m.bs[k] == a;
      assert m.bs[k].id == f ==> HasId(m.bs, f);
    }
  }

  /** Cutting a block in use and freeing what is behind the cut. */
  lemma TrimOk(m: Model, len: nat, i: nat, size: nat, f: nat)
    requires Ok(m, len) && i < |m.bs| && 0 < size < m.bs[i].size && m.bs[i].id !in m.home && !HasId(m.bs, f)
    requires !PrevFree(m, i) && !NextFree(m, i)
    ensures var r := FreeAt(CutAt(m, i, size, f), i + 1);
            && Ok(r, len) && i + 1 < |r.bs| && r.bs[i] == Block(m.bs[i].id, m.bs[i].offset, size)
            && r.bs[i].id !in r.home
            && Live(r) == Live(m) - {m.bs[i]} + {r.bs[i]}
            && (WellFiled(m) ==> WellFiled(r)) && !PrevFree(r, i) && WellFiledAt(r, i + 1)
  {
    hide Tiles, Coalesced, WellFiled, Live, HasId, Ok, DistinctIds, Homes;
    CutAtOk(m, len, i, size, f);
    var c := CutAt(m, i, size, f);
    FreshInLive(m, f);
    assert c.bs[i+1] !in Live(m);
    assert i + 2 < |c.bs| ==> c.bs[i+2] == m.bs[i+1];
    assert i > 0 ==> c.bs[i-1] == m.bs[i-1];
    OtherId(m, i, f);
    FreeAtOk(c, len, i + 1);
    assert c.bs[i] != c.bs[i+1];
  }

  lemma OtherId(m: Model, i: nat, f: nat)
    requires i < |m.bs| && !HasId(m.bs, f)
    ensures m.bs[i].id != f && (i > 0 ==> m.bs[i-1].id != f) && (i + 1 < |m.bs| ==> m.bs[i+1].id != f)
  {
  }

  /** First fit hands out exactly `size` of the block it takes. */
  lemma SplitAtOk(m: Model, len: nat, i: nat, size: nat, f: nat)
    requires Ok(m, len) && i < |m.bs| && m.IsFree(i) && 0 < size <= m.bs[i].size && !HasId(m.bs, f)
    ensures var r := SplitAt(m, i, size, f);
            && Ok(r, len) && i < |r.bs| && r.bs[i] == Block(m.bs[i].id, m.bs[i].offset, size) && r.bs[i].id !in r.home
            && Live(r) == Live(m) + {r.bs[i]}
            && (forall a :: a in Live(m) ==> a.id != r.bs[i].id)
            && (WellFiled(m) ==> WellFiled(r)) && !PrevFree(r, i)
            && (NextFree(r, i) ==> WellFiledAt(r, i + 1))
            && r.maxSize == m.maxSize
  {
    var e := m.bs[i];
    forall a | a in Live(m) ensures a.id != e.id {
      var k :| 0 <= k < |m.bs| && m.bs[k].id !in m.home && m.bs[k] == a;
    }
    TakeAtOk(m, len, i);
    hide Tiles, Coalesced, WellFiled, Live, HasId, Homes;
    if size < e.size {
      TrimOk(TakeAt(m, i), len, i, size, f);
    }
  }

  lemma ExtendOk(m: Model, len: nat, id: nat, size: nat)
    requires Ok(m, len) && size > 0 && !HasId(m.bs, id)
    ensures var r := Extend(m, id, len, size);
            && Ok(r, len + size) && r.bs[|m.bs|] == Block(id, len, size) && id !in r.home
            && Live(r) == Live(m) + {Block(id, len, size)}
            && (forall a :: a in Live(m) ==> a.id != id)
            && (WellFiled(m) ==> WellFiled(r))
  {
    var r := Extend(m, id, len, size);
    forall k | 0 <= k < |m.bs| ensures m.bs[k].id != id {
      assert m.bs[k].id == id ==> HasId(m.bs, id);
    }
    assert id in m.home ==> HasId(m.bs, id);
    forall e | e in r.home ensures HasId(r.bs, e) {
      var k :| 0 <= k < |m.bs| && m.bs[k].id == e;
      assert r.bs[k].id == e;
    }
    forall b | b in Live(m) ensures b in Live(r) {
      var k :| 0 <= k < |m.bs| && m.bs[k].id !in m.home && m.bs[k] == b;
      assert r.bs[k] == b;
    }
    assert r.bs[|m.bs|] in Live(r);
  }

  /** Asking for a larger size than ever keeps blocks well filed only if list 0 holds none that small. */
  lemma AskedOk(m: Model, len: nat, size: nat)
    requires Ok(m, len)
    ensures Ok(Asked(m, size), len) && Live(Asked(m, size)) == Live(m)
    ensures WellFiled(m) ==>
      (WellFiled(Asked(m, size)) <==>
        size <= m.maxSize ||
          forall i :: 0 <= i < |m.bs| && m.bs[i].id in m.home && m.home[m.bs[i].id] == 0 ==> m.bs[i].size > size)
  {
  }

  // ---- get ----

  /** A block on the free list of exactly this size. */
  predicate Exact(m: Model, i: nat, size: nat)
    requires i < |m.bs|
  {
    m.bs[i].id in m.home && m.home[m.bs[i].id] == size
  }

  /** A block on list 0 that is large enough. */
  predicate Fits(m: Model, i: nat, size: nat)
    requires i < |m.bs|
  {
    m.bs[i].id in m.home && m.home[m.bs[i].id] == 0 && m.bs[i].size >= size
  }

  ghost predicate NoneExact(m: Model, size: nat) {
    forall i :: 0 <= i < |m.bs| ==> !Exact(m, i, size)
  }

  ghost predicate NoneFits(m: Model, size: nat) {
    forall i :: 0 <= i < |m.bs| ==> !Fits(m, i, size)
  }

  /** What a successful get does: `r` hands out block `i`, of exactly `size`. */
  ghost predicate GetStep(m: Model, r: Model, i: nat, size: nat, len: nat, len': nat) {
    if i < |m.bs| && Exact(m, i, size) then
      r == TakeAt(m, i) && len' == len
    else if i < |m.bs| then
      && NoneExact(m, size) && Fits(m, i, size) && len' == len
      && exists f :: !HasId(m.bs, f) && r == SplitAt(m, i, size, f)
    else
      && NoneExact(m, size) && NoneFits(m, size) && i == |m.bs| && len' == len + size
      && exists id :: !HasId(m.bs, id) && r == Extend(m, id, len, size)
  }

  /** Get hands out a fresh block of exactly the size asked for and touches no other block in use. */
  ghost predicate Granted(m: Model, r: Model, i: nat, size: nat, len': nat) {
    && Ok(r, len') && i < |r.bs| && r.bs[i].size == size && r.bs[i].id !in r.home
    && Live(r) == Live(m) + {r.bs[i]} && (forall a :: a in Live(m) ==> a.id != r.bs[i].id)
    && (WellFiled(m) ==> WellFiled(r))
    && (NextFree(r, i) ==> WellFiledAt(r, i + 1))
    && (PrevFree(r, i) <==> i == |m.bs| > 0 && m.IsFree(i - 1))
    && (PrevFree(r, i) ==> (Misfiled(r, i - 1) <==> Misfiled(m, i - 1)))
    && r.maxSize == m.maxSize
  }

  lemma GetExactOk(m: Model, i: nat, size: nat, len: nat)
    requires Ok(m, len) && size > 0 && i < |m.bs| && Exact(m, i, size)
    ensures Granted(m, TakeAt(m, i), i, size, len)
  {
    forall a | a in Live(m) ensures a.id != m.bs[i].id {
      var k :| 0 <= k < |m.bs| && m.bs[k].id !in m.home && m.bs[k] == a;
    }
    hide Live, WellFiled, Tiles, DistinctIds, Coalesced, HasId;
    TakeAtOk(m, len, i);
  }

  lemma GetFitOk(m: Model, i: nat, size: nat, len: nat, f: nat)
    requires Ok(m, len) && size > 0 && i < |m.bs| && Fits(m, i, size) && !HasId(m.bs, f)
    ensures Granted(m, SplitAt(m, i, size, f), i, size, len)
  {
    hide Live, WellFiled, Ok, HasId;
    SplitAtOk(m, len, i, size, f);
  }

  lemma GetExtendOk(m: Model, size: nat, len: nat, id: nat)
    requires Ok(m, len) && size > 0 && !HasId(m.bs, id)
    ensures Granted(m, Extend(m, id, len, size), |m.bs|, size, len + size)
  {
    hide Live, WellFiled, Ok, HasId;
    ExtendOk(m, len, id, size);
    var r := Extend(m, id, len, size);
    assert |m.bs| > 0 ==> r.bs[|m.bs|-1] == m.bs[|m.bs|-1];
  }

  lemma GetOk(m: Model, r: Model, i: nat, size: nat, len: nat, len': nat)
    requires Ok(m, len) && size > 0 && GetStep(m, r, i, size, len, len')
    ensures Granted(m, r, i, size, len')
  {
    hide Live, WellFiled, Ok, HasId, Granted;
    if i < |m.bs| && Exact(m, i, size) {
      GetExactOk(m, i, size, len);
    } else if i < |m.bs| {
      var f :| !HasId(m.bs, f) && r == SplitAt(m, i, size, f);
      GetFitOk(m, i, size, len, f);
    } else {
      var id :| !HasId(m.bs, id) && r == Extend(m, id, len, size);
      GetExtendOk(m, size, len, id);
    }
  }

  // ---- aligned get ----

  function AlignUp(o: nat, a: nat): (r: nat)
    requires a > 0
    ensures r % a == 0 && o <= r < o + a
  {
    AlignUpFacts(o, a);
    (o + a - 1) / a * a
  }

  lemma AlignUpFacts(o: nat, a: nat)
    requires a > 0
    ensures var r := (o + a - 1) / a * a; r % a == 0 && o <= r < o + a
  {
    var q := (o + a - 1) / a;
    assert o + a - 1 == q * a + (o + a - 1) % a;
    MulMod(q, a);
  }

  lemma MulMod(q: nat, a: nat)
    requires a > 0
    ensures (q * a) % a == 0
  {
    var x := q * a;
    var d := q - x / a;
    assert x == (x / a) * a + x % a;
    assert d * a == q * a - (x / a) * a;
    assert d >= 1 ==> d * a >= a;
    assert d <= -1 ==> d * a + a <= 0;
  }

  /** Giving back the front piece `i` of a block: the rest stays, and so does what follows it. */
  lemma PutFrontOk(m: Model, len: nat, i: nat)
    requires Ok(m, len) && i + 1 < |m.bs| && m.bs[i].id !in m.home && m.bs[i+1].id !in m.home
    ensures PutCorrupts(m, i) <==> i > 0 && Misfiled(m, i - 1)
    ensures var r, k := PutModel(m, i), if PrevFree(m, i) then i else i + 1;
            && k < |r.bs| && r.bs[k] == m.bs[i+1] && r.bs[k].id !in r.home && r.maxSize == m.maxSize
            && (NextFree(r, k) <==> NextFree(m, i + 1))
            && (NextFree(r, k) && WellFiledAt(m, i + 2) ==> WellFiledAt(r, k + 1))
  {
    assert m.bs[i].id != m.bs[i+1].id;
    if i > 0 { assert m.bs[i-1].id != m.bs[i+1].id; }
    if i + 2 < |m.bs| { assert m.bs[i+2].id != m.bs[i].id; }
    if PrevFree(m, i) && i + 2 < |m.bs| { assert m.bs[i+2].id != m.bs[i-1].id; }
    hide Ok, Live, WellFiled, HasId;
  }
}

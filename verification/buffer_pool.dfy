/** The buffer pool of `goes/elib/hw/buf.go`: buffers carved from DMA memory go out by `AllocRefsStride` and come
  * back by `FreeRefs`, which may also follow and free whole chains.
  */
module BufferPools {
  import opened Basics

  /** A buffer reference: an offset in DMA memory and the flag that the buffer names a next one. */
  datatype Ref = Ref(offset: nat, nextValid: bool)

  const CHUNK := 0x10_0000

  // ---- Sets of offsets ----

  function Offsets(rs: seq<Ref>): set<nat> {
    set r | r in rs :: r.offset
  }

  predicate Distinct(rs: seq<Ref>) {
    forall i, j :: 0 <= i < j < |rs| ==> rs[i].offset != rs[j].offset
  }

  predicate NoDup(s: seq<nat>) {
    forall i, j :: 0 <= i < j < |s| ==> s[i] != s[j]
  }

  function SetOf(s: seq<nat>): set<nat> {
    set o | o in s
  }

  function OffsetSeq(rs: seq<Ref>): (s: seq<nat>)
    ensures |s| == |rs|
  {
    seq(|rs|, i requires 0 <= i < |rs| => rs[i].offset)
  }

  lemma OffsetsMore(rs: seq<Ref>, r: Ref)
    ensures Offsets(rs + [r]) == Offsets(rs) + {r.offset}
    ensures Distinct(rs) && r.offset !in Offsets(rs) ==> Distinct(rs + [r])
  {
    assert forall x :: x in rs + [r] <==> x in rs || x == r;
    forall i | 0 <= i < |rs| ensures rs[i].offset in Offsets(rs) {
      assert rs[i] in rs;
    }
  }

  lemma OffsetsJoin(a: seq<Ref>, b: seq<Ref>)
    requires Distinct(a) && NoDup(OffsetSeq(b)) && forall o :: o in OffsetSeq(b) ==> o !in Offsets(a)
    ensures Distinct(a + b)
    ensures Offsets(a + b) == Offsets(a) + SetOf(OffsetSeq(b))
  {
    forall r | r in b ensures r.offset in OffsetSeq(b) {
      var i :| 0 <= i < |b| && b[i] == r;
      assert OffsetSeq(b)[i] == r.offset;
    }
    forall o | o in OffsetSeq(b) ensures o in Offsets(a + b) {
      var i :| 0 <= i < |b| && OffsetSeq(b)[i] == o;
      assert b[i] in a + b;
    }
    forall i, j | 0 <= i < j < |a + b| ensures (a + b)[i].offset != (a + b)[j].offset {
      if i < |a| && |a| <= j {
        assert a[i] in a && OffsetSeq(b)[j - |a|] in OffsetSeq(b);
      } else if |a| <= i {
        assert OffsetSeq(b)[i - |a|] != OffsetSeq(b)[j - |a|];
      }
    }
  }

  /** The last buffers of a list are exactly what is missing from the rest. */
  lemma OffsetsCut(rs: seq<Ref>, k: nat)
    requires k <= |rs| && Distinct(rs)
    ensures Distinct(rs[..k]) && Offsets(rs[..k]) !! Offsets(rs[k..])
    ensures Offsets(rs) == Offsets(rs[..k]) + Offsets(rs[k..])
  {
    assert rs == rs[..k] + rs[k..];
    forall x, y | x in rs[..k] && y in rs[k..] ensures x.offset != y.offset {
      var i :| 0 <= i < k && rs[i] == x;
      var j :| k <= j < |rs| && rs[j] == y;
    }
  }

  // ---- How many buffers a growth makes ----

  /** The halving loop of `AllocRefsStride`: at most a megabyte at a time. */
  function Halved(n: nat, nb: nat): (nat, nat)
    decreases nb
  {
    if nb > CHUNK then Halved(n / 2, nb / 2) else (n, nb)
  }

  lemma {:induction false} HalvedLess(n: nat, nb: nat)
    ensures Halved(n, nb).0 <= n
    decreases nb
  {
    if nb > CHUNK { HalvedLess(n / 2, nb / 2); }
  }

  lemma HalfStep(n: nat, nb: nat, b: nat)
    requires b > 0 && n * b <= nb < (n + 1) * b
    ensures (n / 2) * b <= nb / 2 < (n / 2 + 1) * b
  {
    var m := n / 2;
    assert 2 * (m * b) == (2 * m) * b <= n * b;
    assert (n + 1) * b <= (2 * m + 2) * b == 2 * ((m + 1) * b);
  }

  lemma {:induction false} HalvedPositive(n: nat, nb: nat, b: nat)
    requires 0 < b <= CHUNK / 2 && n > 0 && n * b <= nb < (n + 1) * b
    ensures Halved(n, nb).0 > 0 && Halved(n, nb).0 * b <= Halved(n, nb).1 <= CHUNK
    decreases nb
  {
    if nb > CHUNK {
      assert n != 1;
      HalfStep(n, nb, b);
      HalvedPositive(n / 2, nb / 2, b);
    }
  }

  function Round256(x: nat): (r: nat)
    ensures x <= r < x + 256 && r % 256 == 0
  {
    (x + 255) / 256 * 256
  }

  lemma {:induction false} HalvedNone(nb: nat)
    ensures Halved(0, nb).0 == 0
    decreases nb
  {
    if nb > CHUNK { HalvedNone(nb / 2); }
  }

  /** Fewer than 2^k buffers over more than 2^(k-1) megabytes are halved away. */
  lemma {:induction false} HalvedAway(k: nat, n: nat, nb: nat)
    requires k > 0 && n < Pow2(k) && nb >= Pow2(k - 1) * (CHUNK + 1)
    ensures Halved(n, nb).0 == 0
  {
    assert nb > CHUNK by { assert Pow2(k - 1) * (CHUNK + 1) >= CHUNK + 1; }
    if k == 1 {
      HalvedNone(nb / 2);
    } else {
      assert Pow2(k - 1) * (CHUNK + 1) == 2 * (Pow2(k - 2) * (CHUNK + 1));
      HalvedAway(k - 1, n / 2, nb / 2);
    }
  }

  /** The growth loop makes progress on every request exactly when a buffer is at most half a megabyte. */
  lemma GrowsIff(b: nat)
    requires b > 0
    ensures (forall w: nat :: w > 0 ==> Halved(Round256(w), Round256(w) * b).0 > 0) <==> b <= CHUNK / 2
  {
    if b <= CHUNK / 2 {
      forall w: nat | w > 0 ensures Halved(Round256(w), Round256(w) * b).0 > 0 {
        var n := Round256(w);
        HalvedPositive(n, n * b, b);
      }
    } else {
      var w := 0x1FFF_FF00;
      assert Round256(w) == w;
      assert Pow2(29) == 0x2000_0000 && Pow2(28) == 0x1000_0000 by { PowersOfTwo(); }
      assert w * b >= w * (CHUNK / 2 + 1);
      HalvedAway(29, w, w * b);
    }
  }

  lemma PowersOfTwo()
    ensures Pow2(28) == 0x1000_0000 && Pow2(29) == 0x2000_0000
  {
    assert Pow2(8) == 0x100;
    assert Pow2(16) == 0x1_0000;
    assert Pow2(24) == 0x100_0000;
  }

  // ---- Chains ----

  /** The buffers of a chain, by offset, from the one that r names. */
  ghost predicate IsChain(c: seq<nat>, r: Ref, next: map<nat, Ref>)
    decreases |c|
  {
    && |c| > 0 && c[0] == r.offset
    && (if r.nextValid
        then r.offset in next && |c| > 1 && IsChain(c[1..], next[r.offset], next)
        else |c| == 1)
  }

  /** Following a chain reads the buffers before its last one only. */
  lemma {:induction false} ChainKept(c: seq<nat>, r: Ref, next: map<nat, Ref>, next': map<nat, Ref>)
    requires IsChain(c, r, next)
    requires forall i :: 0 <= i < |c| && c[i] in next ==> c[i] in next' && next'[c[i]] == next[c[i]]
    ensures IsChain(c, r, next')
    decreases |c|
  {
    if r.nextValid {
      assert c[0] == r.offset;
      forall i | 0 <= i < |c[1..]| && c[1..][i] in next
        ensures c[1..][i] in next' && next'[c[1..][i]] == next[c[1..][i]]
      {
        assert c[1..][i] == c[i + 1];
      }
      ChainKept(c[1..], next[r.offset], next, next');
    }
  }

  /** `freeNext.add`: every buffer after the head, which has been read already. */
  method FollowNext(list: seq<Ref>, r: Ref, nextRef: Ref, next: map<nat, Ref>, ghost c: seq<nat>)
    returns (list': seq<Ref>)
    requires |c| > 0 && (if r.nextValid then |c| > 1 && IsChain(c[1..], nextRef, next) else |c| == 1)
    ensures OffsetSeq(list') == OffsetSeq(list) + c[1..]
  {
    list' := list;
    if !r.nextValid { return; }
    var n := nextRef;
    ghost var k := 1;
    while true
      invariant 1 <= k < |c| && IsChain(c[k..], n, next)
      invariant OffsetSeq(list') == OffsetSeq(list) + c[1..k]
      decreases |c| - k
    {
      assert OffsetSeq(list' + [n]) == OffsetSeq(list') + [n.offset];
      list' := list' + [n];
      assert c[k..][0] == c[k] && c[1..k] + [c[k]] == c[1..k + 1];
      if !n.nextValid { assert |c[k..]| == 1 && c[1..k + 1] == c[1..]; break; }
      assert c[k..][1..] == c[k + 1..];
      n := next[n.offset];
      k := k + 1;
    }
  }

  /** The headers of the given buffers are reset, and no other header has changed. */
  ghost predicate ResetOnly(next': map<nat, Ref>, next: map<nat, Ref>, given: set<nat>) {
    && next'.Keys == next.Keys
    && forall o :: o in next ==> next'[o] == if o in given then Ref(0, false) else next[o]
  }

  lemma ResetBoth(next'': map<nat, Ref>, next': map<nat, Ref>, next: map<nat, Ref>, a: seq<nat>, b: seq<nat>)
    requires ResetOnly(next', next, SetOf(a)) && ResetOnly(next'', next', SetOf(b))
    ensures ResetOnly(next'', next, SetOf(a + b))
  {
  }

  lemma NothingMore(next: map<nat, Ref>, rs: seq<Ref>)
    requires |rs| == 0
    ensures ResetOnly(next, next, SetOf(OffsetSeq(rs)))
  {
  }

  /** Headers of the buffers there were before are as they were. */
  ghost predicate KeepsNext(next': map<nat, Ref>, next: map<nat, Ref>) {
    next.Keys <= next'.Keys && forall o :: o in next ==> next'[o] == next[o]
  }

  lemma KeepsAll(next: map<nat, Ref>)
    ensures KeepsNext(next, next)
  {
  }

  lemma KeepsTrans(next'': map<nat, Ref>, next': map<nat, Ref>, next: map<nat, Ref>)
    requires KeepsNext(next'', next') && KeepsNext(next', next)
    ensures KeepsNext(next'', next)
  {
  }

  lemma KeepsMore(next': map<nat, Ref>, next: map<nat, Ref>, o: nat)
    requires KeepsNext(next', next) && o !in next'
    ensures KeepsNext(next'[o := Ref(0, false)], next)
  {
  }

  /** A chain of other buffers is still a chain after buffers are given back. */
  lemma ChainSurvivesFree(c: seq<nat>, r: Ref, next: map<nat, Ref>, next': map<nat, Ref>, given: set<nat>)
    requires IsChain(c, r, next) && ResetOnly(next', next, given) && SetOf(c) !! given
    ensures IsChain(c, r, next')
  {
    forall i | 0 <= i < |c| && c[i] in next ensures c[i] in next' && next'[c[i]] == next[c[i]] {
      assert c[i] in SetOf(c);
    }
    ChainKept(c, r, next, next');
  }

  /** Every chain is still one after buffers are handed out. */
  lemma ChainSurvivesAlloc(c: seq<nat>, r: Ref, next: map<nat, Ref>, next': map<nat, Ref>)
    requires IsChain(c, r, next) && KeepsNext(next', next)
    ensures IsChain(c, r, next')
  {
    ChainKept(c, r, next, next');
  }

  /** One chain for each ref. */
  ghost predicate Chains(chains: seq<seq<nat>>, rs: seq<Ref>, next: map<nat, Ref>) {
    |chains| == |rs| && forall i :: 0 <= i < |rs| ==> IsChain(chains[i], rs[i], next)
  }

  /** No buffer is in two places of the chains: they are acyclic and disjoint. */
  predicate Separate(chains: seq<seq<nat>>) {
    forall i, j, k, l ::
      (0 <= i < |chains| && 0 <= j < |chains| && 0 <= k < |chains[i]| && 0 <= l < |chains[j]|
       && chains[i][k] == chains[j][l]) ==> i == j && k == l
  }

  function Members(chains: seq<seq<nat>>): set<nat> {
    set c, o | c in chains && o in c :: o
  }

  /** What follows the heads of the first n chains. */
  function Tails(chains: seq<seq<nat>>, n: nat): seq<nat>
    requires n <= |chains|
  {
    if n == 0 then []
    else Tails(chains, n - 1) + if |chains[n - 1]| == 0 then [] else chains[n - 1][1..]
  }

  lemma FourTails(chains: seq<seq<nat>>, n: nat)
    requires n + 4 <= |chains| && forall i :: n <= i < n + 4 ==> |chains[i]| > 0
    ensures Tails(chains, n + 4)
      == Tails(chains, n) + chains[n][1..] + chains[n + 1][1..] + chains[n + 2][1..] + chains[n + 3][1..]
  {
    assert Tails(chains, n + 1) == Tails(chains, n) + chains[n][1..];
    assert Tails(chains, n + 2) == Tails(chains, n + 1) + chains[n + 1][1..];
    assert Tails(chains, n + 3) == Tails(chains, n + 2) + chains[n + 2][1..];
  }

  ghost predicate InTails(chains: seq<seq<nat>>, n: nat, o: nat) {
    exists i, k :: 0 <= i < n && i < |chains| && 1 <= k < |chains[i]| && chains[i][k] == o
  }

  lemma {:induction false} TailsPlaces(chains: seq<seq<nat>>, n: nat)
    requires n <= |chains| && Separate(chains)
    ensures NoDup(Tails(chains, n)) && forall o :: o in Tails(chains, n) <==> InTails(chains, n, o)
  {
    if n > 0 {
      TailsPlaces(chains, n - 1);
      var before, c := Tails(chains, n - 1), chains[n - 1];
      if |c| > 0 {
        forall i, j | 0 <= i < j < |before + c[1..]| ensures (before + c[1..])[i] != (before + c[1..])[j] {
          if |before| <= i {
            assert c[i - |before| + 1] != c[j - |before| + 1];
          } else if |before| <= j {
            assert InTails(chains, n - 1, before[i]);
            assert c[1..][j - |before|] == c[j - |before| + 1];
          }
        }
      }
      forall o | InTails(chains, n, o) ensures o in Tails(chains, n) {
        var i, k :| 0 <= i < n && 1 <= k < |chains[i]| && chains[i][k] == o;
        if i < n - 1 { assert InTails(chains, n - 1, o); } else { assert c[1..][k - 1] == o; }
      }
      forall o | o in Tails(chains, n) ensures InTails(chains, n, o) {
        if o in before {
          assert InTails(chains, n - 1, o);
        } else {
          var k :| 0 <= k < |c[1..]| && c[1..][k] == o;
          assert c[k + 1] == o;
        }
      }
    }
  }

  lemma Member(chains: seq<seq<nat>>, i: nat, k: nat)
    requires i < |chains| && k < |chains[i]|
    ensures chains[i][k] in Members(chains)
  {
    assert chains[i] in chains && chains[i][k] in chains[i];
  }

  /** The heads and the tails list every buffer of every chain, once. */
  lemma HeadsAndTails(chains: seq<seq<nat>>, rs: seq<Ref>, next: map<nat, Ref>)
    requires Chains(chains, rs, next) && Separate(chains)
    ensures NoDup(OffsetSeq(rs) + Tails(chains, |chains|))
    ensures SetOf(OffsetSeq(rs) + Tails(chains, |chains|)) == Members(chains)
  {
    TailsPlaces(chains, |chains|);
    var heads, tails := OffsetSeq(rs), Tails(chains, |chains|);
    forall i | 0 <= i < |rs| ensures |chains[i]| > 0 && chains[i][0] == heads[i] {
      assert IsChain(chains[i], rs[i], next);
    }
    forall i, j | 0 <= i < j < |heads + tails| ensures (heads + tails)[i] != (heads + tails)[j] {
      if |heads| <= j {
        assert InTails(chains, |chains|, (heads + tails)[j]);
      }
      if j < |heads| {
        assert chains[i][0] != chains[j][0];
      }
    }
    forall o | o in Members(chains) ensures o in heads + tails {
      var c :| c in chains && o in c;
      var i :| 0 <= i < |chains| && chains[i] == c;
      var k :| 0 <= k < |c| && c[k] == o;
      if k == 0 { assert heads[i] == o; } else { assert InTails(chains, |chains|, o); }
    }
    forall o | o in heads + tails ensures o in Members(chains) {
      if o in tails {
        assert InTails(chains, |chains|, o);
        var i, k :| 0 <= i < |chains| && 1 <= k < |chains[i]| && chains[i][k] == o;
        Member(chains, i, k);
      } else {
        var i :| 0 <= i < |heads| && heads[i] == o;
        Member(chains, i, 0);
      }
    }
  }

  lemma DistinctSeq(rs: seq<Ref>, all: set<nat>)
    requires forall r :: r in rs ==> r.offset in all
    ensures Distinct(rs) <==> NoDup(OffsetSeq(rs))
    ensures SetOf(OffsetSeq(rs)) == Offsets(rs) <= all
  {
    forall i | 0 <= i < |rs| ensures OffsetSeq(rs)[i] in Offsets(rs) { assert rs[i] in rs; }
    if NoDup(OffsetSeq(rs)) {
      forall i, j | 0 <= i < j < |rs| ensures rs[i].offset != rs[j].offset {
        assert OffsetSeq(rs)[i] != OffsetSeq(rs)[j];
      }
    }
    forall r | r in rs ensures r.offset in OffsetSeq(rs) {
      var i :| 0 <= i < |rs| && rs[i] == r;
      assert OffsetSeq(rs)[i] == r.offset;
    }
  }

  lemma ListDistinct(rs: seq<Ref>, list: seq<Ref>)
    requires NoDup(OffsetSeq(rs) + OffsetSeq(list))
    ensures Distinct(list) && forall r :: r in list ==> r.offset in SetOf(OffsetSeq(rs) + OffsetSeq(list))
  {
    forall r | r in list ensures r.offset in OffsetSeq(list) {
      var i :| 0 <= i < |list| && list[i] == r;
      assert OffsetSeq(list)[i] == r.offset;
    }
    forall i, j | 0 <= i < j < |list| ensures list[i].offset != list[j].offset {
      var s := OffsetSeq(rs) + OffsetSeq(list);
      assert s[|rs| + i] == OffsetSeq(list)[i] && s[|rs| + j] == OffsetSeq(list)[j];
      assert s[|rs| + i] != s[|rs| + j];
    }
  }

  lemma HeadsDistinct(chains: seq<seq<nat>>, rs: seq<Ref>, next: map<nat, Ref>)
    requires Chains(chains, rs, next) && Separate(chains)
    ensures Distinct(rs)
  {
    forall i, j | 0 <= i < j < |rs| ensures rs[i].offset != rs[j].offset {
      assert chains[i][0] == rs[i].offset && chains[j][0] == rs[j].offset;
    }
  }

  lemma NoneSeq()
    ensures OffsetSeq([]) == []
  {
  }

  lemma SeqJoin(a: seq<Ref>, b: seq<Ref>)
    ensures OffsetSeq(a + b) == OffsetSeq(a) + OffsetSeq(b)
  {
  }

  lemma HeadsOne(rs: seq<Ref>, i: nat, c: Ref)
    requires i < |rs| && c.offset == rs[i].offset
    ensures OffsetSeq(rs[..i + 1]) == OffsetSeq(rs[..i]) + OffsetSeq([c])
  {
  }

  lemma HeadsJoin(rs: seq<Ref>, i: nat, j: nat)
    requires i <= j <= |rs|
    ensures OffsetSeq(rs[..j]) == OffsetSeq(rs[..i]) + OffsetSeq(rs[i..j])
  {
  }

  /** Only the headers of the first i heads are reset. */
  ghost predicate HeadsReset(next': map<nat, Ref>, next: map<nat, Ref>, rs: seq<Ref>, i: nat)
    requires i <= |rs|
  {
    ResetOnly(next', next, SetOf(OffsetSeq(rs[..i])))
  }

  lemma NothingReset(chains: seq<seq<nat>>, rs: seq<Ref>, next: map<nat, Ref>)
    ensures HeadsReset(next, next, rs, 0) && Tails(chains, 0) == []
  {
  }

  lemma AllReset(next': map<nat, Ref>, next: map<nat, Ref>, rs: seq<Ref>)
    requires HeadsReset(next', next, rs, |rs|)
    ensures ResetOnly(next', next, SetOf(OffsetSeq(rs)))
  {
    assert rs[..|rs|] == rs;
  }

  lemma FourReset(next'': map<nat, Ref>, next': map<nat, Ref>, next: map<nat, Ref>, rs: seq<Ref>, i: nat)
    requires i + 4 <= |rs| && Distinct(rs) && HeadsReset(next', next, rs, i)
    requires forall r :: r in rs ==> r.offset in next'
    requires next''.Keys == next'.Keys
    requires forall o :: o in next'' && o !in OffsetSeq(rs[i..i + 4]) ==> next''[o] == next'[o]
    requires forall o :: o in OffsetSeq(rs[i..i + 4]) ==> o in next'' && next''[o] == Ref(0, false)
    ensures HeadsReset(next'', next, rs, i + 4) && next.Keys == next'.Keys
    ensures next'[rs[i].offset] == next[rs[i].offset] && next'[rs[i + 1].offset] == next[rs[i + 1].offset]
    ensures next'[rs[i + 2].offset] == next[rs[i + 2].offset] && next'[rs[i + 3].offset] == next[rs[i + 3].offset]
  {
    HeadsJoin(rs, i, i + 4);
  }

  lemma OneReset(next'': map<nat, Ref>, next': map<nat, Ref>, next: map<nat, Ref>, rs: seq<Ref>, i: nat)
    requires i < |rs| && Distinct(rs) && HeadsReset(next', next, rs, i)
    requires rs[i].offset in next' && next'' == next'[rs[i].offset := Ref(0, false)]
    ensures HeadsReset(next'', next, rs, i + 1) && next'[rs[i].offset] == next[rs[i].offset]
  {
    HeadsOne(rs, i, rs[i]);
    assert OffsetSeq([rs[i]])[0] == rs[i].offset;
    assert forall h :: 0 <= h < i ==> OffsetSeq(rs[..i])[h] != rs[i].offset;
  }

  /** Resetting the heads leaves the rest of a chain readable. */
  lemma TailKept(chains: seq<seq<nat>>, rs: seq<Ref>, next: map<nat, Ref>, next': map<nat, Ref>, i: nat, k: nat)
    requires Chains(chains, rs, next) && Separate(chains) && k < i <= |rs| && HeadsReset(next', next, rs, i)
    ensures |chains[k]| > 0
    ensures if rs[k].nextValid
      then |chains[k]| > 1 && rs[k].offset in next && IsChain(chains[k][1..], next[rs[k].offset], next')
      else |chains[k]| == 1
  {
    assert IsChain(chains[k], rs[k], next);
    if rs[k].nextValid {
      var c := chains[k][1..];
      forall m | 0 <= m < |c| && c[m] in next ensures next'[c[m]] == next[c[m]] {
        assert c[m] == chains[k][m + 1];
        forall h | 0 <= h < i ensures OffsetSeq(rs[..i])[h] != c[m] {
          assert IsChain(chains[h], rs[h], next);
          assert chains[h][0] != chains[k][m + 1];
        }
      }
      ChainKept(c, next[rs[k].offset], next, next');
    }
  }

  // ---- Copying with a stride ----

  /** dst with the first n elements of src at every stride-th place. */
  function Strided(dst: seq<Ref>, src: seq<Ref>, stride: nat, n: nat): (r: seq<Ref>)
    requires n <= |src| && forall i :: 0 <= i < n ==> i * stride < |dst|
    ensures |r| == |dst|
  {
    if n == 0 then dst else Strided(dst, src, stride, n - 1)[(n - 1) * stride := src[n - 1]]
  }

  lemma MulLess(i: nat, j: nat, s: nat)
    requires i < j && s > 0
    ensures i * s < j * s
  {
    assert j * s == i * s + (j - i) * s;
  }

  lemma {:induction false} StridedAt(dst: seq<Ref>, src: seq<Ref>, stride: nat, n: nat, i: nat)
    requires stride > 0 && i < n <= |src| && forall k :: 0 <= k < n ==> k * stride < |dst|
    ensures Strided(dst, src, stride, n)[i * stride] == src[i]
  {
    if i < n - 1 {
      StridedAt(dst, src, stride, n - 1, i);
      MulLess(i, n - 1, stride);
    }
  }

  lemma {:induction false} StridedElse(dst: seq<Ref>, src: seq<Ref>, stride: nat, n: nat, p: nat)
    requires n <= |src| && (forall k :: 0 <= k < n ==> k * stride < |dst|) && p < |dst|
    requires forall k :: 0 <= k < n ==> k * stride != p
    ensures Strided(dst, src, stride, n)[p] == dst[p]
  {
    if n > 0 { StridedElse(dst, src, stride, n - 1, p); }
  }

  lemma {:induction false} StridedOne(dst: seq<Ref>, src: seq<Ref>, n: nat)
    requires n <= |src| && |dst| >= n
    ensures (forall k :: 0 <= k < n ==> k * 1 < |dst|) && Strided(dst, src, 1, n) == src[..n] + dst[n..]
  {
    if n > 0 { StridedOne(dst, src, n - 1); }
  }

  /** `copyRefs`, four at a time. */
  method CopyRefs(dst: seq<Ref>, src: seq<Ref>, stride: nat) returns (r: seq<Ref>)
    requires forall i :: 0 <= i < |src| ==> i * stride < |dst|
    ensures r == Strided(dst, src, stride, |src|)
  {
    r := dst;
    if stride == 1 {
      assert |src| > 0 ==> (|src| - 1) * stride < |dst|;
      StridedOne(dst, src, |src|);
      r := src + dst[|src|..];
      assert src[..|src|] == src;
    } else {
      var i: nat, ri: nat, n := 0, 0, |src|;
      while i + 4 <= n
        invariant 0 <= i <= n && ri == i * stride && r == Strided(dst, src, stride, i)
      {
        assert (i + 1) * stride == ri + stride && (i + 2) * stride == ri + 2 * stride;
        assert (i + 3) * stride == ri + 3 * stride && (i + 4) * stride == ri + 4 * stride;
        r := r[ri := src[i]];
        r := r[ri + stride := src[i + 1]];
        r := r[ri + 2 * stride := src[i + 2]];
        r := r[ri + 3 * stride := src[i + 3]];
        FourStrides(dst, src, stride, i);
        i := i + 4;
        ri := ri + 4 * stride;
      }
      while i < n
        invariant 0 <= i <= n && ri == i * stride && r == Strided(dst, src, stride, i)
      {
        r := r[ri := src[i]];
        assert (i + 1) * stride == ri + stride;
        i := i + 1;
        ri := ri + stride;
      }
    }
  }

  lemma FourStrides(dst: seq<Ref>, src: seq<Ref>, stride: nat, i: nat)
    requires i + 4 <= |src| && forall k :: 0 <= k < |src| ==> k * stride < |dst|
    ensures Strided(dst, src, stride, i + 4)
      == Strided(dst, src, stride, i)[i * stride := src[i]][(i + 1) * stride := src[i + 1]]
         [(i + 2) * stride := src[i + 2]][(i + 3) * stride := src[i + 3]]
  {
    assert Strided(dst, src, stride, i + 1) == Strided(dst, src, stride, i)[i * stride := src[i]];
    assert Strided(dst, src, stride, i + 2) == Strided(dst, src, stride, i + 1)[(i + 1) * stride := src[i + 1]];
    assert Strided(dst, src, stride, i + 3) == Strided(dst, src, stride, i + 2)[(i + 2) * stride := src[i + 2]];
  }

  // ---- The pool ----

  /** A free list: no buffer twice, and no ref that names a next buffer. */
  predicate Free(rs: seq<Ref>) {
    Distinct(rs) && forall r :: r in rs ==> !r.nextValid
  }

  /** Buffers of size bytes at these offsets do not overlap, and end by top. */
  ghost predicate Apart(os: set<nat>, size: nat, top: nat) {
    && (forall x :: x in os ==> x + size <= top)
    && (forall x, y :: x in os && y in os && x < y ==> x + size <= y)
  }

  /** What is carved is free or held, not both. */
  predicate Part(rs: seq<Ref>, held: set<nat>, carved: set<nat>) {
    Offsets(rs) + held == carved && Offsets(rs) !! held
  }

  lemma CarvedOne(rs: seq<Ref>, held: set<nat>, carved: set<nat>, o: nat)
    requires Free(rs) && Part(rs, held, carved) && o !in carved
    ensures Free(rs + [Ref(o, false)]) && Part(rs + [Ref(o, false)], held, carved + {o})
  {
    OffsetsMore(rs, Ref(o, false));
  }

  lemma Nothing(rs: seq<Ref>, chains: seq<seq<nat>>)
    requires |rs| == 0
    ensures OffsetSeq(rs) == [] && Offsets(rs) == {}
    ensures |chains| == 0 ==> Members(chains) == {} && Tails(chains, 0) == []
  {
  }

  lemma FreedMore(rs: seq<Ref>, held: set<nat>, carved: set<nat>, clean: seq<Ref>)
    requires Free(rs) && Part(rs, held, carved) && NoDup(OffsetSeq(clean))
    requires (forall r :: r in clean ==> !r.nextValid) && SetOf(OffsetSeq(clean)) <= held
    ensures Free(rs + clean) && Part(rs + clean, held - SetOf(OffsetSeq(clean)), carved)
  {
    forall o | o in OffsetSeq(clean) ensures o !in Offsets(rs) {
      assert o in SetOf(OffsetSeq(clean));
    }
    OffsetsJoin(rs, clean);
  }

  /** The offsets carved so far: those below a chunk's start, and those of the chunk from o on. */
  ghost predicate Cutting(os: set<nat>, size: nat, start: nat, o: nat, top: nat) {
    && (forall x :: x in os ==> x + size <= start || (o <= x && x + size <= top))
    && (forall x, y :: x in os && y in os && x < y ==> x + size <= y)
  }

  lemma CutOne(os: set<nat>, size: nat, start: nat, o: nat, top: nat)
    requires Cutting(os, size, start, o + size, top) && start <= o && o + size <= top && size > 0
    ensures o !in os && Cutting(os + {o}, size, start, o, top)
  {
  }

  lemma CutNone(os: set<nat>, size: nat, start: nat, o: nat, top: nat)
    requires Apart(os, size, start)
    ensures Cutting(os, size, start, o, top)
  {
  }

  lemma CutAll(os: set<nat>, size: nat, start: nat, o: int, top: nat)
    requires o >= 0 && start <= top && Cutting(os, size, start, o, top)
    ensures Apart(os, size, top)
  {
  }

  /** Where the k-th buffer of a chunk starts. */
  function Place(offset: nat, size: nat, k: int): int { offset + k * size }

  lemma PlaceZero(offset: nat, size: nat)
    ensures Place(offset, size, 0) == offset
  {
  }

  lemma ChunkEnds(offset: nat, size: nat, n: nat)
    requires n > 0
    ensures offset + (n - 1) * size == Place(offset, size, n - 1)
    ensures Place(offset, size, n - 1) + size == offset + n * size
  {
  }

  lemma PlaceStep(offset: nat, size: nat, k: int)
    ensures Place(offset, size, k + 1) == Place(offset, size, k) + size
    ensures k >= 0 ==> Place(offset, size, k) >= offset
  {
  }

  /** The buffers of a chunk, the one at its start last. */
  function Chunk(offset: nat, size: nat, n: nat): (s: seq<nat>)
    ensures |s| == n
  {
    if n == 0 then [] else
    assert (n - 1) * size >= 0;
    [Place(offset, size, n - 1)] + Chunk(offset, size, n - 1)
  }

  lemma ListedOne(rs: seq<Ref>, k: nat, o: nat, offset: nat, size: nat, left: nat, all: seq<nat>)
    requires k <= |rs| && left > 0 && o == Place(offset, size, left - 1)
    requires OffsetSeq(rs[k..]) + Chunk(offset, size, left) == all
    ensures OffsetSeq((rs + [Ref(o, false)])[k..]) + Chunk(offset, size, left - 1) == all
  {
    assert OffsetSeq(rs[k..]) + [o] + Chunk(offset, size, left - 1) == all;
    assert (rs + [Ref(o, false)])[k..] == rs[k..] + [Ref(o, false)];
  }

  class BufferPool {
    /** Bytes of a buffer with its overhead. */
    const size: nat
    /** Free buffers, handed out from the end. */
    var refs: seq<Ref>
    /** The header of each buffer: the next buffer of its chain, read only when a ref's flag says so. */
    var next: map<nat, Ref>
    /** Where the DMA allocator's next memory starts: it never hands out the same memory twice. */
    var top: nat
    /** Buffers carved from DMA memory so far, and those that clients hold. */
    ghost var carved: set<nat>
    ghost var held: set<nat>

    /** Every buffer is either free or held, no free buffer is listed twice, and no two buffers overlap. */
    ghost predicate Valid()
      reads this
    {
      && 0 < size <= CHUNK / 2
      && Free(refs)
      && Part(refs, held, carved)
      && next.Keys == carved
      && Apart(carved, size, top)
    }

    constructor (size: nat)
      requires 0 < size <= CHUNK / 2
      ensures Valid() && refs == [] && held == {} && this.size == size
    {
      this.size := size;
      refs, next, top := [], map[], 0;
      carved, held := {}, {};
    }

    /** One turn of the growth loop: a chunk of memory, no more than a megabyte, cut into buffers. */
    method Grow(want: nat, got: nat) returns (nAlloc: nat)
      requires Valid() && got == |refs| < want
      modifies this`refs, this`next, this`top, this`carved
      ensures Valid() && old(carved) <= carved
      ensures nAlloc > 0 && |refs| == got + nAlloc && refs[..got] == old(refs)
      ensures nAlloc == Halved(Round256(want - got), Round256(want - got) * size).0
      ensures KeepsNext(next, old(next)) && OffsetSeq(refs[got..]) == Chunk(old(top), size, nAlloc)
    {
      var b := size;
      nAlloc := Round256(want - got);
      var nb: nat := nAlloc * b;
      ghost var n0, nb0 := nAlloc, nb;
      HalvedPositive(nAlloc, nb, b);
      while nb > CHUNK
        invariant Halved(nAlloc, nb) == Halved(n0, nb0)
        decreases nb
      {
        nAlloc := nAlloc / 2;
        nb := nb / 2;
      }
      var offset := top;
      top := top + nb;
      Carve(offset, nAlloc);
    }

    /** The inner loop: the smallest offset ends up last, where buffers are handed out first. */
    method Carve(offset: nat, n: nat)
      requires n > 0 && offset + n * size <= top && 0 < size <= CHUNK / 2
      requires Free(refs) && Part(refs, held, carved) && next.Keys == carved && Apart(carved, size, offset)
      modifies this`refs, this`next, this`carved
      ensures Valid() && old(carved) <= carved && |refs| == |old(refs)| + n && refs[..|old(refs)|] == old(refs)
      ensures KeepsNext(next, old(next)) && OffsetSeq(refs[|old(refs)|..]) == Chunk(offset, size, n)
    {
      hide Free, Part, Offsets, Distinct, Cutting, Apart, OffsetSeq, Chunk, Place, KeepsNext;
      assert OffsetSeq(refs[|refs|..]) == [] by { NoneSeq(); }
      KeepsAll(next);
      ghost var refs0, carved0 := refs, carved;
      var o: int := offset + (n - 1) * size;
      assert o == Place(offset, size, n - 1) && offset <= o + size <= top by { ChunkEnds(offset, size, n); }
      CutNone(carved, size, offset, o + size, top);
      for i := 0 to n
        invariant o == Place(offset, size, n - 1 - i) && offset <= o + size <= top
        invariant Free(refs) && Part(refs, held, carved) && next.Keys == carved
        invariant |refs| == |refs0| + i && refs[..|refs0|] == refs0 && carved0 <= carved
        invariant Cutting(carved, size, offset, o + size, top)
        invariant KeepsNext(next, old(next))
        invariant OffsetSeq(refs[|refs0|..]) + Chunk(offset, size, n - i) == Chunk(offset, size, n)
      {
        PlaceStep(offset, size, n - 1 - i);
        assert offset <= o;
        CutOne(carved, size, offset, o, top);
        KeepsMore(next, old(next), o);
        CarvedOne(refs, held, carved, o);
        ListedOne(refs, |refs0|, o, offset, size, n - i, Chunk(offset, size, n));
        refs := refs + [Ref(o, false)];
        next := next[o := Ref(0, false)];
        carved := carved + {o};
        PlaceStep(offset, size, n - 1 - i - 1);
        o := o - size;
      }
      PlaceStep(offset, size, -1);
      assert o + size == Place(offset, size, 0) == offset by { PlaceZero(offset, size); }
      CutAll(carved, size, offset, o + size, top);
    }

    /** The growth loop of `AllocRefsStride`: until there are enough, and fewer than 256 more. */
    method GrowUntil(want: nat) returns (got: nat)
      requires Valid()
      modifies this`refs, this`next, this`top, this`carved
      ensures Valid() && old(carved) <= carved && KeepsNext(next, old(next))
      ensures want <= got == |refs| && old(refs) <= refs
      ensures if want <= |old(refs)| then refs == old(refs) && carved == old(carved) else got < want + 256
    {
      hide Free, Part, Apart, KeepsNext, Halved, Chunk;
      KeepsAll(next);
      got := |refs|;
      while got < want
        invariant Valid() && got == |refs| && old(carved) <= carved && KeepsNext(next, old(next)) && old(refs) <= refs
        invariant if want <= |old(refs)| then refs == old(refs) && carved == old(carved) else got < want + 256
        decreases want - got
      {
        HalvedLess(Round256(want - got), Round256(want - got) * size);
        ghost var before := next;
        var nAlloc := Grow(want, got);
        KeepsTrans(next, before, old(next));
        got := got + nAlloc;
      }
    }

    /** `AllocRefsStride`: grow until there are enough, then hand out from the end of the free list. */
    method AllocRefsStride(dst: seq<Ref>, want: nat, stride: nat) returns (r: seq<Ref>, ghost taken: seq<Ref>)
      requires Valid() && |dst| == want * stride && stride > 0
      modifies this
      ensures Valid() && old(carved) <= carved && KeepsNext(next, old(next))
      ensures |taken| == want && Free(taken) && Offsets(taken) !! old(held) && held == old(held) + Offsets(taken)
      ensures want <= |old(refs)| ==> carved == old(carved) && old(refs) == refs + taken
      ensures want > |old(refs)| ==> |refs| < 256 && old(refs) <= refs + taken
      ensures (forall i :: 0 <= i < want ==> i * stride < |dst|) && r == Strided(dst, taken, stride, want)
    {
      var got := GrowUntil(want);
      forall i | 0 <= i < want ensures i * stride < |dst| { MulLess(i, want, stride); }
      r := CopyRefs(dst, refs[got - want..got], stride);
      taken := refs[got - want..];
      OffsetsCut(refs, got - want);
      assert refs == refs[..got - want] + taken && taken == refs[got - want..got];
      refs := refs[..got - want];
      held := held + Offsets(taken);
    }

    /** `free1` and one lane of `free4`: the header is read, then reset. */
    method Free1(r: Ref) returns (clean: Ref, n: Ref)
      requires r.offset in next
      modifies this`next
      ensures clean == Ref(r.offset, false) && n == old(next)[r.offset]
      ensures next == old(next)[r.offset := Ref(0, false)]
    {
      clean := Ref(r.offset, false);
      n := next[r.offset];
      next := next[r.offset := Ref(0, false)];
    }

    method Free4(src: seq<Ref>, i: nat) returns (clean: seq<Ref>, slow: bool, n0: Ref, n1: Ref, n2: Ref, n3: Ref)
      requires i + 4 <= |src| && forall r :: r in src ==> r.offset in next
      requires Distinct(src)
      modifies this`next
      ensures next.Keys == old(next).Keys
      ensures OffsetSeq(clean) == OffsetSeq(src[i..i + 4]) && forall r :: r in clean ==> !r.nextValid
      ensures slow == (src[i].nextValid || src[i + 1].nextValid || src[i + 2].nextValid || src[i + 3].nextValid)
      ensures n0 == old(next)[src[i].offset] && n1 == old(next)[src[i + 1].offset]
      ensures n2 == old(next)[src[i + 2].offset] && n3 == old(next)[src[i + 3].offset]
      ensures forall o :: o in next && o !in OffsetSeq(src[i..i + 4]) ==> next[o] == old(next)[o]
      ensures forall o :: o in OffsetSeq(src[i..i + 4]) ==> o in next && next[o] == Ref(0, false)
    {
      var r0, r1, r2, r3 := src[i], src[i + 1], src[i + 2], src[i + 3];
      assert OffsetSeq(src[i..i + 4]) == [r0.offset, r1.offset, r2.offset, r3.offset];
      clean := [Ref(r0.offset, false), Ref(r1.offset, false), Ref(r2.offset, false), Ref(r3.offset, false)];
      n0, n1, n2, n3 := next[r0.offset], next[r1.offset], next[r2.offset], next[r3.offset];
      var reset := Ref(0, false);
      next := next[r0.offset := reset][r1.offset := reset][r2.offset := reset][r3.offset := reset];
      slow := r0.nextValid || r1.nextValid || r2.nextValid || r3.nextValid;
    }

    /** `freeRefsNoNext`, into a fresh end of the free list. */
    method FreeRefsNoNext(src: seq<Ref>) returns (clean: seq<Ref>)
      requires Distinct(src) && forall r :: r in src ==> r.offset in next
      modifies this`next
      ensures ResetOnly(next, old(next), SetOf(OffsetSeq(src)))
      ensures OffsetSeq(clean) == OffsetSeq(src) && forall r :: r in clean ==> !r.nextValid
    {
      hide OffsetSeq, Distinct, HeadsReset;
      var i: nat, n: nat := 0, |src|;
      clean := [];
      NothingReset([], src, next);
      while n >= 4
        invariant i + n == |src| && next.Keys == old(next).Keys
        invariant HeadsReset(next, old(next), src, i)
        invariant OffsetSeq(clean) == OffsetSeq(src[..i]) && forall r :: r in clean ==> !r.nextValid
      {
        ghost var before := next;
        var c, _, _, _, _, _ := Free4(src, i);
        FourReset(next, before, old(next), src, i);
        SeqJoin(clean, c);
        HeadsJoin(src, i, i + 4);
        clean := clean + c;
        i, n := i + 4, n - 4;
      }
      while n > 0
        invariant i + n == |src| && next.Keys == old(next).Keys
        invariant HeadsReset(next, old(next), src, i)
        invariant OffsetSeq(clean) == OffsetSeq(src[..i]) && forall r :: r in clean ==> !r.nextValid
      {
        ghost var before := next;
        var c, _ := Free1(src[i]);
        OneReset(next, before, old(next), src, i);
        SeqJoin(clean, [c]);
        HeadsOne(src, i, c);
        clean := clean + [c];
        i, n := i + 1, n - 1;
      }
      assert src[..i] == src;
      AllReset(next, old(next), src);
    }

    /** Four turns of `freeRefsNext`: the headers are read and reset, then the tails are followed if any ref has one. */
    method FreeFour(src: seq<Ref>, i: nat, list: seq<Ref>, ghost chains: seq<seq<nat>>, ghost next0: map<nat, Ref>)
      returns (c: seq<Ref>, list': seq<Ref>)
      requires i + 4 <= |src| && Chains(chains, src, next0) && Separate(chains) && Distinct(src)
      requires (forall r :: r in src ==> r.offset in next) && HeadsReset(next, next0, src, i)
      requires OffsetSeq(list) == Tails(chains, i)
      modifies this`next
      ensures next.Keys == old(next).Keys && HeadsReset(next, next0, src, i + 4)
      ensures OffsetSeq(c) == OffsetSeq(src[i..i + 4]) && forall r :: r in c ==> !r.nextValid
      ensures OffsetSeq(list') == Tails(chains, i + 4)
    {
      hide OffsetSeq, Distinct, Separate, Tails, IsChain, HeadsReset;
      list' := list;
      var slow, n0, n1, n2, n3;
      ghost var before := next;
      c, slow, n0, n1, n2, n3 := Free4(src, i);
      FourReset(next, before, next0, src, i);
      TailKept(chains, src, next0, next, i + 4, i);
      TailKept(chains, src, next0, next, i + 4, i + 1);
      TailKept(chains, src, next0, next, i + 4, i + 2);
      TailKept(chains, src, next0, next, i + 4, i + 3);
      if slow {
        list' := FollowNext(list', src[i], n0, next, chains[i]);
        list' := FollowNext(list', src[i + 1], n1, next, chains[i + 1]);
        list' := FollowNext(list', src[i + 2], n2, next, chains[i + 2]);
        list' := FollowNext(list', src[i + 3], n3, next, chains[i + 3]);
      }
      FourTails(chains, i);
    }

    method FreeOne(src: seq<Ref>, i: nat, list: seq<Ref>, ghost chains: seq<seq<nat>>, ghost next0: map<nat, Ref>)
      returns (c: Ref, list': seq<Ref>)
      requires i < |src| && Chains(chains, src, next0) && Separate(chains) && Distinct(src)
      requires (forall r :: r in src ==> r.offset in next) && HeadsReset(next, next0, src, i)
      requires OffsetSeq(list) == Tails(chains, i)
      modifies this`next
      ensures next.Keys == old(next).Keys && HeadsReset(next, next0, src, i + 1)
      ensures c.offset == src[i].offset && !c.nextValid
      ensures OffsetSeq(list') == Tails(chains, i + 1)
    {
      hide OffsetSeq, Distinct, Separate, IsChain, HeadsReset;
      list' := list;
      var n0;
      ghost var before := next;
      c, n0 := Free1(src[i]);
      OneReset(next, before, next0, src, i);
      TailKept(chains, src, next0, next, i + 1, i);
      if src[i].nextValid {
        list' := FollowNext(list', src[i], n0, next, chains[i]);
      }
    }

    /** `freeRefsNext`: the heads are freed while the rest of each chain is listed. */
    method FreeRefsNext(src: seq<Ref>, ghost chains: seq<seq<nat>>) returns (clean: seq<Ref>, list: seq<Ref>)
      requires Chains(chains, src, next) && Separate(chains)
      requires forall r :: r in src ==> r.offset in next
      modifies this`next
      ensures ResetOnly(next, old(next), SetOf(OffsetSeq(src)))
      ensures OffsetSeq(clean) == OffsetSeq(src) && forall r :: r in clean ==> !r.nextValid
      ensures OffsetSeq(list) == Tails(chains, |chains|)
    {
      hide OffsetSeq, Distinct, Separate, IsChain, HeadsReset, Tails;
      var i: nat, n: nat := 0, |src|;
      clean, list := [], [];
      HeadsDistinct(chains, src, next);
      NothingReset(chains, src, next);
      NoneSeq();
      while n >= 4
        invariant i + n == |src| && next.Keys == old(next).Keys && HeadsReset(next, old(next), src, i)
        invariant OffsetSeq(clean) == OffsetSeq(src[..i]) && forall r :: r in clean ==> !r.nextValid
        invariant OffsetSeq(list) == Tails(chains, i)
      {
        var c;
        c, list := FreeFour(src, i, list, chains, old(next));
        SeqJoin(clean, c);
        HeadsJoin(src, i, i + 4);
        clean := clean + c;
        i, n := i + 4, n - 4;
      }
      while n > 0
        invariant i + n == |src| && next.Keys == old(next).Keys && HeadsReset(next, old(next), src, i)
        invariant OffsetSeq(clean) == OffsetSeq(src[..i]) && forall r :: r in clean ==> !r.nextValid
        invariant OffsetSeq(list) == Tails(chains, i)
      {
        var c;
        c, list := FreeOne(src, i, list, chains, old(next));
        SeqJoin(clean, [c]);
        HeadsOne(src, i, c);
        clean := clean + [c];
        i, n := i + 1, n - 1;
      }
      assert src[..i] == src;
      AllReset(next, old(next), src);
    }

    method FreeChains(rh: seq<Ref>, ghost chains: seq<seq<nat>>) returns (clean: seq<Ref>)
      requires Chains(chains, rh, next) && Separate(chains)
      requires (forall r :: r in rh ==> r.offset in next) && Members(chains) <= next.Keys
      modifies this`next
      ensures ResetOnly(next, old(next), Members(chains)) && forall r :: r in clean ==> !r.nextValid
      ensures OffsetSeq(clean) == OffsetSeq(rh) + Tails(chains, |chains|) && NoDup(OffsetSeq(clean))
      ensures SetOf(OffsetSeq(clean)) == Members(chains)
    {
      hide NoDup, OffsetSeq, Tails, Distinct, Separate, IsChain, Chains, Members;
      HeadsAndTails(chains, rh, next);
      var list;
      clean, list := FreeRefsNext(rh, chains);
      ListDistinct(rh, list);
      NoneSeq();
      ghost var mid := next;
      if |list| > 0 {
        var more := FreeRefsNoNext(list);
        SeqJoin(clean, more);
        clean := clean + more;
      } else {
        NothingMore(next, list);
      }
      ResetBoth(next, mid, old(next), OffsetSeq(rh), OffsetSeq(list));
    }

    /** `FreeRefs`. The buffers given back are the heads, and with freeNext every buffer of every chain. */
    method FreeRefs(rh: seq<Ref>, freeNext: bool, ghost chains: seq<seq<nat>>)
      requires Valid() && forall r :: r in rh ==> r.offset in held
      requires if freeNext
        then Chains(chains, rh, next) && Separate(chains) && Members(chains) <= held
        else Distinct(rh)
      modifies this
      ensures Valid() && carved == old(carved)
      ensures |old(refs)| <= |refs| && refs[..|old(refs)|] == old(refs)
      ensures OffsetSeq(refs[|old(refs)|..]) == OffsetSeq(rh) + (if freeNext then Tails(chains, |chains|) else [])
      ensures held == old(held) - if freeNext then Members(chains) else Offsets(rh)
      ensures ResetOnly(next, old(next), if freeNext then Members(chains) else Offsets(rh))
    {
      hide OffsetSeq, Tails, Distinct, Separate, IsChain, Offsets, Members, NoDup, Free, Apart;
      if |rh| == 0 { Nothing(rh, chains); assert refs[|old(refs)|..] == []; return; }
      var clean;
      if !freeNext {
        DistinctSeq(rh, held);
        clean := FreeRefsNoNext(rh);
      } else {
        clean := FreeChains(rh, chains);
      }
      FreedMore(refs, held, carved, clean);
      refs := refs + clean;
      held := held - SetOf(OffsetSeq(clean));
    }
  }
}

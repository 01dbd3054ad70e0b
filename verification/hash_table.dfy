/** The bucketed hash table of `goes/elib/hash.go` over the key table of one client,
  * `pair_hash` of `goes/elib/mctree/pair.go`.
  *
  * `Hash` knows only displacements and bucket maxima; the keys live in the client, which the table asks
  * to hash the key at a slot, to compare it and to move all slots when the table grows. Seeds and new
  * capacities are inputs: growth draws them from a list and stops undone when the list runs out.
  */
module HashTables {
  import opened Basics
  import opened HashProbe

  type Hasher<!K> = (nat, K) -> (nat, nat)

  ghost function BaseOf<K>(hash: Hasher<K>, g: Geometry, k: K): nat {
    BaseIndex(g, hash(g.seed, k))
  }

  /** The slot's displacement leads back to the base index of the key it holds. */
  ghost predicate SlotOk<K>(hash: Hasher<K>, g: Geometry, diffs: seq<nat>, maxes: seq<nat>, i: nat, k: K)
    requires i < |diffs|
  {
    && 0 < diffs[i] <= g.Bucket()
    && i == Xor(BaseOf(hash, g, k), diffs[i] - 1)
    && g.BucketOf(i) < |maxes| && diffs[i] <= maxes[g.BucketOf(i)]
  }

  ghost predicate TableShape(g: Geometry, diffs: seq<nat>, maxes: seq<nat>) {
    g.Ok() && |diffs| == g.Cap() && |maxes| == g.Buckets()
  }

  /** The valid slots are the ones that hold a key, no key is held twice, and each slot is well placed. */
  ghost predicate TableOk<K(!new)>(hash: Hasher<K>, g: Geometry, diffs: seq<nat>, maxes: seq<nat>, keys: map<nat, K>) {
    && TableShape(g, diffs, maxes)
    && (forall i: nat :: i in keys <==> i < |diffs| && diffs[i] != 0)
    && (forall i :: i in keys ==> SlotOk(hash, g, diffs, maxes, i, keys[i]))
    && (forall i, j :: i in keys && j in keys && keys[i] == keys[j] ==> i == j)
  }

  function Placed(diffs: seq<nat>, i: nat, d: nat): seq<nat>
    requires i < |diffs|
  {
    diffs[i := d + 1]
  }

  function Raised(maxes: seq<nat>, b: nat, d: nat): seq<nat>
    requires b < |maxes|
  {
    if d + 1 > maxes[b] then maxes[b := d + 1] else maxes
  }

  lemma PlacedTwice(diffs: seq<nat>, maxes: seq<nat>, i: nat, b: nat, d: nat)
    requires i < |diffs| && b < |maxes|
    ensures |Placed(diffs, i, d)| == |diffs| && Placed(Placed(diffs, i, d), i, d) == Placed(diffs, i, d)
    ensures |Raised(maxes, b, d)| == |maxes| && Raised(Raised(maxes, b, d), b, d) == Raised(maxes, b, d)
  {
  }

  /** Storing a new key at a free probe of its own sequence. */
  lemma PlaceOk<K(!new)>(hash: Hasher<K>, g: Geometry, diffs: seq<nat>, maxes: seq<nat>, keys: map<nat, K>, k: K,
                  d: nat)
    requires TableOk(hash, g, diffs, maxes, keys) && k !in keys.Values
    requires d < g.Bucket()
    requires var i := Xor(BaseOf(hash, g, k), d); i < |diffs| ==> diffs[i] == 0
    ensures var i := Xor(BaseOf(hash, g, k), d);
      && i < |diffs| && g.BucketOf(i) < |maxes| && i !in keys
      && TableOk(hash, g, Placed(diffs, i, d), Raised(maxes, g.BucketOf(i), d), keys[i := k])
  {
    hide Xor, Pow2, BaseIndex, Geometry.BucketOf, Geometry.Cap, Geometry.Bucket, Geometry.Buckets, Geometry.Ok;
    BaseInRange(g, hash(g.seed, k));
    ProbeInRange(g, BaseOf(hash, g, k), d);
    var i := Xor(BaseOf(hash, g, k), d);
    var diffs', maxes', keys' := Placed(diffs, i, d), Raised(maxes, g.BucketOf(i), d), keys[i := k];
    forall j | j in keys' ensures SlotOk(hash, g, diffs', maxes', j, keys'[j]) {
      if j != i {
        assert SlotOk(hash, g, diffs, maxes, j, keys[j]);
      }
    }
    forall a, b | a in keys' && b in keys' && keys'[a] == keys'[b] ensures a == b {
      assert a != i ==> keys[a] in keys.Values;
      assert b != i ==> keys[b] in keys.Values;
    }
  }

  lemma RemoveOk<K(!new)>(hash: Hasher<K>, g: Geometry, diffs: seq<nat>, maxes: seq<nat>, keys: map<nat, K>, i: nat)
    requires TableOk(hash, g, diffs, maxes, keys) && i in keys
    ensures TableOk(hash, g, diffs[i := 0], maxes, keys - {i})
  {
    hide Xor, Pow2, BaseIndex, Geometry.BucketOf, Geometry.Cap, Geometry.Bucket, Geometry.Buckets, Geometry.Ok;
    var diffs', keys' := diffs[i := 0], keys - {i};
    forall j | j in keys' ensures SlotOk(hash, g, diffs', maxes, j, keys'[j]) {
      assert SlotOk(hash, g, diffs, maxes, j, keys[j]);
    }
  }

  /** Every stored copy of a key is on the key's probe sequence, below the bucket's maximum. */
  lemma FoundOnProbe<K(!new)>(hash: Hasher<K>, g: Geometry, diffs: seq<nat>, maxes: seq<nat>, keys: map<nat, K>, k: K)
    requires TableOk(hash, g, diffs, maxes, keys) && k in keys.Values
    ensures var base := BaseOf(hash, g, k);
      exists d :: 0 <= d < g.Bucket() && Xor(base, d) in keys && keys[Xor(base, d)] == k
        && diffs[Xor(base, d)] == d + 1 && g.BucketOf(base) < |maxes| && d + 1 <= maxes[g.BucketOf(base)]
  {
    hide Xor, Pow2, BaseIndex, Geometry.BucketOf, Geometry.Cap, Geometry.Bucket, Geometry.Buckets, Geometry.Ok;
    var i :| i in keys && keys[i] == k;
    assert SlotOk(hash, g, diffs, maxes, i, keys[i]);
    var d := diffs[i] - 1;
    BaseInRange(g, hash(g.seed, k));
    ProbeInRange(g, BaseOf(hash, g, k), d);
    assert Xor(BaseOf(hash, g, k), d) in keys;
  }

  // ---- The client's side ----

  ghost predicate Owned<K(!new)>(offsets: map<nat, nat>, pairs: seq<K>) {
    && (forall i :: i in offsets ==> offsets[i] < |pairs|)
    && (forall i, j :: i in offsets && j in offsets && offsets[i] == offsets[j] ==> i == j)
  }

  ghost function KeysOf<K(!new)>(offsets: map<nat, nat>, pairs: seq<K>): map<nat, K>
    requires Owned(offsets, pairs)
  {
    map i | i in offsets :: pairs[offsets[i]]
  }

  ghost predicate Distinct<K(!new)>(offsets: map<nat, nat>, pairs: seq<K>) {
    && Owned(offsets, pairs)
    && (forall i, j :: i in offsets && j in offsets && pairs[offsets[i]] == pairs[offsets[j]] ==> i == j)
  }

  /** The finite map that the table stands for: the offset at which each stored key is kept. */
  ghost function Dict<K(!new)>(offsets: map<nat, nat>, pairs: seq<K>): map<K, nat>
    requires Distinct(offsets, pairs)
  {
    map i | i in offsets :: pairs[offsets[i]] := offsets[i]
  }

  lemma AbsentKey<K(!new)>(offsets: map<nat, nat>, pairs: seq<K>, k: K, i: nat)
    requires Owned(offsets, pairs) && forall j :: j in offsets ==> pairs[offsets[j]] != k
    ensures k !in KeysOf(offsets, pairs).Values
    ensures i in KeysOf(offsets, pairs) <==> i in offsets
  {
  }

  /** What a list of slot moves makes of the client's table. */
  function Applied(copies: seq<(nat, nat)>, offsets: map<nat, nat>): map<nat, nat>
    requires forall c :: c in copies ==> c.0 in offsets
  {
    if |copies| == 0 then map[]
    else
      var c := copies[|copies| - 1];
      Applied(copies[..|copies| - 1], offsets)[c.1 := offsets[c.0]]
  }

  /** Which offsets are in use decides the finite map; which slots they sit in does not. */
  lemma DictMoved<K(!new)>(a: map<nat, nat>, b: map<nat, nat>, pairs: seq<K>)
    requires Distinct(a, pairs) && Distinct(b, pairs) && a.Values == b.Values
    ensures Dict(a, pairs) == Dict(b, pairs)
  {
    forall k ensures k in Dict(a, pairs) ==> k in Dict(b, pairs) && Dict(b, pairs)[k] == Dict(a, pairs)[k] {
      DictInside(a, b, pairs, k);
    }
    forall k ensures k in Dict(b, pairs) ==> k in Dict(a, pairs) {
      DictInside(b, a, pairs, k);
    }
  }

  lemma DictInside<K(!new)>(a: map<nat, nat>, b: map<nat, nat>, pairs: seq<K>, k: K)
    requires Distinct(a, pairs) && Distinct(b, pairs) && a.Values == b.Values
    ensures k in Dict(a, pairs) ==> k in Dict(b, pairs) && Dict(b, pairs)[k] == Dict(a, pairs)[k]
  {
    if k in Dict(a, pairs) {
      var i :| i in a && pairs[a[i]] == k;
      assert a[i] in b.Values;
      var j :| j in b && b[j] == a[i];
      assert pairs[b[j]] in Dict(b, pairs);
    }
  }

  class PairTable<K(==, !new)> {
    var offsets: map<nat, nat>
    var pairs: seq<K>
    var freePairs: seq<nat>

    constructor ()
      ensures offsets == map[] && pairs == [] && freePairs == []
    {
      offsets, pairs, freePairs := map[], [], [];
    }

    function KeyAt(i: nat): K
      requires i in offsets && offsets[i] < |pairs|
      reads this
    {
      pairs[offsets[i]]
    }

    /** `pair_hash.HashResize`. */
    method HashResize(copies: seq<(nat, nat)>)
      requires forall c :: c in copies ==> c.0 in offsets
      modifies this`offsets
      ensures offsets == Applied(copies, old(offsets))
    {
      var moved: map<nat, nat> := map[];
      for n := 0 to |copies|
        invariant moved == Applied(copies[..n], offsets)
      {
        assert copies[..n + 1][..n] == copies[..n];
        moved := moved[copies[n].1 := offsets[copies[n].0]];
      }
      assert copies[..|copies|] == copies;
      offsets := moved;
    }
  }

  // ---- Growing ----

  /** The moves so far take each slot below src to one new slot, and nothing else. */
  ghost predicate Copied(copies: seq<(nat, nat)>, offsets: map<nat, nat>, src: nat) {
    && (forall c :: c in copies ==> c.0 in offsets)
    && var a := Applied(copies, offsets);
      && |a| == |copies|
      && (forall d :: d in a ==> exists s :: s in offsets && s < src && offsets[s] == a[d])
      && (forall s :: s in offsets && s < src ==> offsets[s] in a.Values)
      && (forall d, e :: d in a && e in a && a[d] == a[e] ==> d == e)
  }

  lemma AppliedStep(copies: seq<(nat, nat)>, offsets: map<nat, nat>, src: nat, dst: nat)
    requires (forall c :: c in copies ==> c.0 in offsets) && src in offsets
    ensures forall c :: c in copies + [(src, dst)] ==> c.0 in offsets
    ensures Applied(copies + [(src, dst)], offsets) == Applied(copies, offsets)[dst := offsets[src]]
  {
    var b := copies + [(src, dst)];
    assert b[..|b| - 1] == copies;
  }

  lemma CopyStep(copies: seq<(nat, nat)>, offsets: map<nat, nat>, src: nat, dst: nat)
    requires Copied(copies, offsets, src) && src in offsets
    requires forall i, j :: i in offsets && j in offsets && offsets[i] == offsets[j] ==> i == j
    requires dst !in Applied(copies, offsets)
    ensures Copied(copies + [(src, dst)], offsets, src + 1)
    ensures Applied(copies + [(src, dst)], offsets) == Applied(copies, offsets)[dst := offsets[src]]
  {
    hide Applied;
    AppliedStep(copies, offsets, src, dst);
    ValuesStep(copies, offsets, src, dst);
  }

  lemma ValuesStep(copies: seq<(nat, nat)>, offsets: map<nat, nat>, src: nat, dst: nat)
    requires Copied(copies, offsets, src) && src in offsets && dst !in Applied(copies, offsets)
    ensures forall s :: s in offsets && s < src + 1 ==>
      offsets[s] in Applied(copies, offsets)[dst := offsets[src]].Values
  {
    hide Applied;
    var a := Applied(copies, offsets);
    var a' := a[dst := offsets[src]];
    assert a'[dst] == offsets[src];
    forall s | s in offsets && s < src + 1 ensures offsets[s] in a'.Values {
      if s < src {
        var d :| d in a && a[d] == offsets[s];
        assert a'[d] == offsets[s];
      }
    }
  }

  /** The next key to move is not among the ones already moved. */
  lemma CopyNew<K(!new)>(copies: seq<(nat, nat)>, offsets: map<nat, nat>, pairs: seq<K>, src: nat)
    requires Distinct(offsets, pairs) && Copied(copies, offsets, src) && src in offsets
    ensures Owned(Applied(copies, offsets), pairs) && offsets[src] !in Applied(copies, offsets).Values
    ensures pairs[offsets[src]] !in KeysOf(Applied(copies, offsets), pairs).Values
  {
    hide Applied;
  }

  /** The new table holds exactly the keys moved so far. */
  ghost predicate CopyState<K(!new)>(hash: Hasher<K>, g: Geometry, diffs: seq<nat>, maxes: seq<nat>,
                                     copies: seq<(nat, nat)>, offsets: map<nat, nat>, pairs: seq<K>, src: nat) {
    && Copied(copies, offsets, src)
    && Owned(Applied(copies, offsets), pairs)
    && TableOk(hash, g, diffs, maxes, KeysOf(Applied(copies, offsets), pairs))
  }

  lemma CopyStart<K(!new)>(hash: Hasher<K>, g: Geometry, diffs: seq<nat>, maxes: seq<nat>,
                           offsets: map<nat, nat>, pairs: seq<K>, none: seq<(nat, nat)>)
    requires TableShape(g, diffs, maxes) && (forall i :: 0 <= i < |diffs| ==> diffs[i] == 0) && none == []
    ensures CopyState(hash, g, diffs, maxes, none, offsets, pairs, 0)
  {
    EmptyOk(hash, g, diffs, maxes, pairs);
  }

  lemma CopySkip<K(!new)>(hash: Hasher<K>, g: Geometry, diffs: seq<nat>, maxes: seq<nat>,
                          copies: seq<(nat, nat)>, offsets: map<nat, nat>, pairs: seq<K>, src: nat)
    requires CopyState(hash, g, diffs, maxes, copies, offsets, pairs, src) && src !in offsets
    ensures CopyState(hash, g, diffs, maxes, copies, offsets, pairs, src + 1)
  {
    hide Applied, TableOk;
  }

  lemma CopyInvStep<K(!new)>(copies: seq<(nat, nat)>, offsets: map<nat, nat>, pairs: seq<K>, src: nat, dst: nat)
    requires Distinct(offsets, pairs) && Copied(copies, offsets, src) && src in offsets
    requires dst !in Applied(copies, offsets)
    ensures Owned(Applied(copies, offsets), pairs)
    ensures Copied(copies + [(src, dst)], offsets, src + 1)
    ensures Owned(Applied(copies + [(src, dst)], offsets), pairs)
    ensures KeysOf(Applied(copies + [(src, dst)], offsets), pairs)
      == KeysOf(Applied(copies, offsets), pairs)[dst := pairs[offsets[src]]]
  {
    CopyNew(copies, offsets, pairs, src);
    CopyStep(copies, offsets, src, dst);
    OwnedStep(Applied(copies, offsets), pairs, dst, offsets[src]);
    hide *;
  }

  lemma CopyShape<K(!new)>(hash: Hasher<K>, g: Geometry, diffs: seq<nat>, maxes: seq<nat>,
                           copies: seq<(nat, nat)>, offsets: map<nat, nat>, pairs: seq<K>, src: nat)
    requires CopyState(hash, g, diffs, maxes, copies, offsets, pairs, src)
    ensures TableShape(g, diffs, maxes)
  {
  }

  /** The key at src, stored at a free probe d of the new table. */
  lemma CopyPlace<K(!new)>(hash: Hasher<K>, g: Geometry, diffs: seq<nat>, maxes: seq<nat>,
                           copies: seq<(nat, nat)>, offsets: map<nat, nat>, pairs: seq<K>, src: nat, d: nat)
    requires Distinct(offsets, pairs) && src in offsets && d < g.Bucket()
    requires CopyState(hash, g, diffs, maxes, copies, offsets, pairs, src)
    requires var i := Xor(BaseOf(hash, g, pairs[offsets[src]]), d); i < |diffs| ==> diffs[i] == 0
    ensures var i := Xor(BaseOf(hash, g, pairs[offsets[src]]), d);
      && i < |diffs| && g.BucketOf(i) < |maxes|
      && CopyState(hash, g, Placed(diffs, i, d), Raised(maxes, g.BucketOf(i), d), copies + [(src, i)], offsets, pairs,
                   src + 1)
  {
    var k := pairs[offsets[src]];
    var i := Xor(BaseOf(hash, g, k), d);
    var keys := KeysOf(Applied(copies, offsets), pairs);
    hide Copied, Applied, BaseIndex, Xor, Pow2, Geometry.Cap, Geometry.Bucket, Geometry.Buckets, Geometry.Ok,
         Geometry.BucketOf, SlotOk, Placed, Raised, TableShape;
    CopyNew(copies, offsets, pairs, src);
    PlaceOk(hash, g, diffs, maxes, keys, k, d);
    assert i !in keys;
    CopyInvStep(copies, offsets, pairs, src, i);
  }

  lemma OwnedStep<K(!new)>(a: map<nat, nat>, pairs: seq<K>, dst: nat, o: nat)
    requires Owned(a, pairs) && o < |pairs| && o !in a.Values && dst !in a
    ensures Owned(a[dst := o], pairs)
    ensures KeysOf(a[dst := o], pairs) == KeysOf(a, pairs)[dst := pairs[o]]
  {
    forall i | i in a ensures a[i] != o {
      assert a[i] in a.Values;
    }
  }

  /** Once every slot is past, the moves keep exactly the offsets in use. */
  lemma CopyDone<K(!new)>(hash: Hasher<K>, g: Geometry, diffs: seq<nat>, maxes: seq<nat>,
                          copies: seq<(nat, nat)>, offsets: map<nat, nat>, pairs: seq<K>, n: nat)
    requires Distinct(offsets, pairs) && (forall i :: i in offsets ==> i < n)
    requires CopyState(hash, g, diffs, maxes, copies, offsets, pairs, n)
    ensures (forall c :: c in copies ==> c.0 in offsets) && Copied(copies, offsets, n)
    ensures |Applied(copies, offsets)| == |copies|
    ensures var a := Applied(copies, offsets);
      && Distinct(a, pairs) && a.Values == offsets.Values && Dict(a, pairs) == Dict(offsets, pairs)
      && TableOk(hash, g, diffs, maxes, KeysOf(a, pairs))
  {
    hide Applied, TableOk;
    var a := Applied(copies, offsets);
    forall o ensures o in a.Values <==> o in offsets.Values {
      if o in a.Values {
        var d :| d in a && a[d] == o;
      }
    }
    assert Distinct(a, pairs);
    DictMoved(a, offsets, pairs);
  }

  /** A capacity drawn by `Cap.NextUnit` and the seed drawn with it. */
  datatype AnySize = Size(log2Cap0: nat, log2Cap1: nat, two: bool, seed: nat)

  type Size = z: AnySize | 0 < z.log2Cap0 && (z.two ==> z.log2Cap1 < z.log2Cap0) witness Size(3, 0, false, 0)

  function GeometryOf(z: Size): (g: Geometry)
    ensures g.Ok()
  {
    Alloc(z.log2Cap0, z.log2Cap1, z.two, z.seed)
  }

  predicate Growing(cap: nat, sizes: seq<Size>)
    decreases |sizes|
  {
    |sizes| == 0 || (GeometryOf(sizes[0]).Cap() > cap && Growing(GeometryOf(sizes[0]).Cap(), sizes[1..]))
  }

  ghost predicate UsableOn<K(!new)>(hash: Hasher<K>, g: Geometry, diffs: seq<nat>, maxes: seq<nat>,
                                    offsets: map<nat, nat>, pairs: seq<K>) {
    Distinct(offsets, pairs) && TableOk(hash, g, diffs, maxes, KeysOf(offsets, pairs))
  }

  /** Every slot that a key with this base may take is taken. */
  ghost predicate Full(g: Geometry, diffs: seq<nat>, base: nat) {
    forall d: nat :: d < g.Bucket() ==> Xor(base, d) < |diffs| && diffs[Xor(base, d)] != 0
  }

  class Hash<K(==, !new)> {
    const hash: Hasher<K>
    const table: PairTable<K>
    var geo: Geometry
    var bitDiffs: seq<nat>
    var maxBucketBitDiffs: seq<nat>
    var nElts: nat
    var resizeCopies: seq<(nat, nat)>
    var resizeCap: nat

    ghost predicate Usable()
      reads this, table
    {
      UsableOn(hash, geo, bitDiffs, maxBucketBitDiffs, table.offsets, table.pairs)
    }

    ghost predicate Valid()
      reads this, table
    {
      && nElts == |table.offsets|
      && (if |bitDiffs| == 0
          then table.offsets == map[] && Distinct(table.offsets, table.pairs) && resizeCap == 0 && resizeCopies == []
          else Usable() && resizeCap < |bitDiffs|)
    }

    constructor (hash: Hasher<K>, table: PairTable<K>)
      requires table.offsets == map[]
      ensures Valid() && this.table == table && this.hash == hash && bitDiffs == []
    {
      this.hash, this.table := hash, table;
      geo := Geometry(0, 0, false, 0, 0, 0);
      bitDiffs, maxBucketBitDiffs, nElts, resizeCopies, resizeCap := [], [], 0, [], 0;
    }

    /** Probe for the key until a match, the bucket's end, or the bucket's maximum. */
    method SearchBase(base: nat, k: K) returns (matchDiff: nat, ok: bool)
      requires Usable() && base == BaseOf(hash, geo, k)
      ensures ok ==> Xor(base, matchDiff) in table.offsets && table.KeyAt(Xor(base, matchDiff)) == k
      ensures !ok ==> forall i :: i in table.offsets ==> table.KeyAt(i) != k
    {
      hide Xor, Pow2, BaseIndex, Geometry.BucketOf, Geometry.Cap, Geometry.Bucket, Geometry.Buckets, Geometry.Ok;
      ghost var keys := KeysOf(table.offsets, table.pairs);
      var n := geo.Bucket();
      BaseInRange(geo, hash(geo.seed, k));
      ProbeInRange(geo, base, 0);
      var max := maxBucketBitDiffs[geo.BucketOf(base)];
      var diff := 0;
      matchDiff, ok := n, false;
      while diff < n
        invariant 0 <= diff <= n && !ok
        invariant forall e: nat :: e < diff && Xor(base, e) in keys && bitDiffs[Xor(base, e)] == e + 1
                    ==> keys[Xor(base, e)] != k
      {
        ProbeInRange(geo, base, diff);
        var i := Xor(base, diff);
        if bitDiffs[i] == diff + 1 {
          if table.KeyAt(i) == k {
            matchDiff, ok := diff, true;
            return;
          }
        } else if diff + 1 >= max {
          break;
        }
        diff := diff + 1;
      }
      if k in keys.Values {
        FoundOnProbe(hash, geo, bitDiffs, maxBucketBitDiffs, keys, k);
      }
      assert k !in keys.Values;
      assert forall i :: i in table.offsets ==> keys[i] in keys.Values;
    }

    /** Take the first free slot of the probe sequence. */
    method SearchFree(base: nat) returns (i: nat, diff: nat, ok: bool)
      requires TableShape(geo, bitDiffs, maxBucketBitDiffs) && base < geo.Cap()
      modifies this`bitDiffs, this`maxBucketBitDiffs
      ensures ok ==> diff < geo.Bucket() && i == Xor(base, diff) && i < |old(bitDiffs)| && old(bitDiffs)[i] == 0
      ensures ok ==> geo.BucketOf(i) == geo.BucketOf(base) < |old(maxBucketBitDiffs)|
      ensures ok ==> bitDiffs == Placed(old(bitDiffs), i, diff)
      ensures ok ==> maxBucketBitDiffs == Raised(old(maxBucketBitDiffs), geo.BucketOf(i), diff)
      ensures !ok ==> bitDiffs == old(bitDiffs) && maxBucketBitDiffs == old(maxBucketBitDiffs)
      ensures !ok ==> Full(geo, bitDiffs, base)
      ensures ok ==> forall d: nat :: d < diff ==> Xor(base, d) < |bitDiffs| && old(bitDiffs)[Xor(base, d)] != 0
    {
      hide Xor, Pow2, Geometry.BucketOf, Geometry.Cap, Geometry.Bucket, Geometry.Buckets, Geometry.Ok;
      var n := geo.Bucket();
      i, diff, ok := 0, 0, false;
      while diff < n
        invariant 0 <= diff <= n && !ok
        invariant bitDiffs == old(bitDiffs) && maxBucketBitDiffs == old(maxBucketBitDiffs)
        invariant forall d: nat :: d < diff ==> Xor(base, d) < |bitDiffs| && bitDiffs[Xor(base, d)] != 0
      {
        ProbeInRange(geo, base, diff);
        i := Xor(base, diff);
        if bitDiffs[i] == 0 {
          SetDiff(i, base, diff);
          ok := true;
          return;
        }
        diff := diff + 1;
      }
    }

    /** `bitDiff.set`. */
    method SetDiff(i: nat, base: nat, diff: nat)
      requires i < |bitDiffs| && geo.BucketOf(base) < |maxBucketBitDiffs|
      modifies this`bitDiffs, this`maxBucketBitDiffs
      ensures bitDiffs == Placed(old(bitDiffs), i, diff)
      ensures maxBucketBitDiffs == Raised(old(maxBucketBitDiffs), geo.BucketOf(base), diff)
    {
      hide Geometry.BucketOf;
      var b := geo.BucketOf(base);
      if diff + 1 > maxBucketBitDiffs[b] {
        maxBucketBitDiffs := maxBucketBitDiffs[b := diff + 1];
      }
      bitDiffs := bitDiffs[i := diff + 1];
    }

    method Get(k: K) returns (i: nat, ok: bool)
      requires Valid()
      ensures ok <==> exists j :: j in table.offsets && table.KeyAt(j) == k
      ensures if ok then i in table.offsets && table.KeyAt(i) == k else i == 0
    {
      hide TableOk, BaseIndex, Xor, Pow2;
      i, ok := 0, false;
      if |bitDiffs| == 0 { return; }
      var base := BaseIndex(geo, hash(geo.seed, k));
      var diff;
      diff, ok := SearchBase(base, k);
      if ok { i := Xor(base, diff); }
    }

    /** Give up the key's slot. The client then drops its entry for the slot. */
    method Unset(k: K) returns (i: nat, ok: bool, panics: bool)
      requires Valid()
      modifies this`bitDiffs, this`nElts
      ensures panics <==> |bitDiffs| == 0
      ensures ok <==> exists j :: j in table.offsets && table.KeyAt(j) == k
      ensures !ok ==> Valid() && i == 0 && bitDiffs == old(bitDiffs)
      ensures ok ==> i in table.offsets && table.KeyAt(i) == k && nElts == |table.offsets| - 1
      ensures ok ==> TableOk(hash, geo, bitDiffs, maxBucketBitDiffs, KeysOf(table.offsets, table.pairs) - {i})
      ensures |bitDiffs| == |old(bitDiffs)|
    {
      hide BaseIndex, Xor, Pow2, Geometry.Cap, Geometry.Bucket, Geometry.Buckets, Geometry.Ok, Geometry.BucketOf;
      i, ok, panics := 0, false, |bitDiffs| == 0;
      // There is no bucket to look at before the first growth.
      if panics { return; }
      var base := BaseIndex(geo, hash(geo.seed, k));
      var diff;
      diff, ok := SearchBase(base, k);
      if ok {
        i := Xor(base, diff);
        RemoveOk(hash, geo, bitDiffs, maxBucketBitDiffs, KeysOf(table.offsets, table.pairs), i);
        bitDiffs := bitDiffs[i := 0];
        assert |table.offsets| > 0;
        nElts := nElts - 1;
      }
    }

    /** `grow`: an empty table of the next capacity. */
    method Grow(z: Size)
      modifies this`geo, this`bitDiffs, this`maxBucketBitDiffs, this`nElts
      ensures geo == GeometryOf(z) && nElts == 0
      ensures |bitDiffs| == geo.Cap() > 0 && TableShape(geo, bitDiffs, maxBucketBitDiffs)
      ensures forall i :: 0 <= i < |bitDiffs| ==> bitDiffs[i] == 0
      ensures forall b :: 0 <= b < |maxBucketBitDiffs| ==> maxBucketBitDiffs[b] == 0
    {
      geo := GeometryOf(z);
      bitDiffs := seq(geo.Cap(), _ => 0);
      maxBucketBitDiffs := seq(geo.Buckets(), _ => 0);
      nElts := 0;
    }

    /** `searchIndex`: a free slot for the key that the client keeps at slot src. */
    method SearchIndex(src: nat, ghost copies: seq<(nat, nat)>) returns (dst: nat, ok: bool)
      requires Distinct(table.offsets, table.pairs) && src in table.offsets
      requires CopyState(hash, geo, bitDiffs, maxBucketBitDiffs, copies, table.offsets, table.pairs, src)
      modifies this`bitDiffs, this`maxBucketBitDiffs
      ensures |bitDiffs| == |old(bitDiffs)|
      ensures ok ==> CopyState(hash, geo, bitDiffs, maxBucketBitDiffs, copies + [(src, dst)],
                               table.offsets, table.pairs, src + 1)
      ensures !ok ==> Full(geo, bitDiffs, BaseOf(hash, geo, table.KeyAt(src)))
    {
      hide Full, BaseIndex, Xor, Pow2, Geometry.Cap, Geometry.Bucket, Geometry.Buckets, Geometry.Ok, Geometry.BucketOf,
           CopyState;
      var k := table.KeyAt(src);
      var base := BaseIndex(geo, hash(geo.seed, k));
      CopyShape(hash, geo, bitDiffs, maxBucketBitDiffs, copies, table.offsets, table.pairs, src);
      BaseInRange(geo, hash(geo.seed, k));
      ghost var diffs, maxes := bitDiffs, maxBucketBitDiffs;
      var diff;
      dst, diff, ok := SearchFree(base);
      if ok {
        CopyPlace(hash, geo, diffs, maxes, copies, table.offsets, table.pairs, src, diff);
      }
    }

    /** One turn of the copy loop. */
    method CopySlot(src: nat, n: nat) returns (ok: bool)
      requires Distinct(table.offsets, table.pairs) && src in table.offsets && n < |resizeCopies|
      requires CopyState(hash, geo, bitDiffs, maxBucketBitDiffs, resizeCopies[..n], table.offsets, table.pairs, src)
      modifies this`bitDiffs, this`maxBucketBitDiffs, this`resizeCopies
      ensures |bitDiffs| == |old(bitDiffs)| && |resizeCopies| == |old(resizeCopies)|
      ensures ok ==>
        CopyState(hash, geo, bitDiffs, maxBucketBitDiffs, resizeCopies[..n + 1], table.offsets, table.pairs, src + 1)
      ensures !ok ==> Full(geo, bitDiffs, BaseOf(hash, geo, table.KeyAt(src)))
    {
      hide CopyState, Full;
      var dst;
      dst, ok := SearchIndex(src, resizeCopies[..n]);
      if ok {
        resizeCopies := resizeCopies[n := (src, dst)];
        assert resizeCopies[..n + 1] == old(resizeCopies)[..n] + [(src, dst)];
      }
    }

    /** Find a slot in the new table for each key of the old one, and have the client move them. */
    method Copy(bds: seq<nat>) returns (ok: bool)
      requires Distinct(table.offsets, table.pairs)
      requires forall i: nat :: i in table.offsets <==> i < |bds| && bds[i] != 0
      requires TableShape(geo, bitDiffs, maxBucketBitDiffs)
      requires forall i :: 0 <= i < |bitDiffs| ==> bitDiffs[i] == 0
      requires resizeCap < |bds| || |resizeCopies| >= |bds|
      modifies this`bitDiffs, this`maxBucketBitDiffs, this`nElts, this`resizeCopies, this`resizeCap, table`offsets
      ensures |bitDiffs| == |old(bitDiffs)|
      ensures resizeCap == (if old(resizeCap) < |bds| then |bds| else old(resizeCap))
      ensures !ok ==> table.offsets == old(table.offsets) && |resizeCopies| >= |bds|
      ensures !ok ==> exists src :: src in table.offsets && Full(geo, bitDiffs, BaseOf(hash, geo, table.KeyAt(src)))
      ensures ok ==> Usable() && nElts == |table.offsets|
      ensures ok ==> table.offsets.Values == old(table.offsets).Values
      ensures ok ==> Copied(resizeCopies, old(table.offsets), |bds|)
      ensures ok ==> table.offsets == Applied(resizeCopies, old(table.offsets))
    {
      hide BaseIndex, Xor, Pow2, Geometry.Cap, Geometry.Bucket, Geometry.Buckets, Geometry.Ok, Geometry.BucketOf,
           CopyState, Copied, Applied, TableOk, TableShape, KeysOf, Owned, Dict, Full;
      if resizeCap < |bds| {
        resizeCopies, resizeCap := seq(|bds|, _ => (0, 0)), |bds|;
      }
      ghost var offsets, pairs := table.offsets, table.pairs;
      var src, n: nat := 0, 0;
      ok := true;
      CopyStart(hash, geo, bitDiffs, maxBucketBitDiffs, offsets, pairs, resizeCopies[..0]);
      while src < |bds|
        invariant 0 <= src <= |bds| && n <= src && |resizeCopies| >= |bds| && |bitDiffs| == |old(bitDiffs)|
        invariant table.offsets == offsets && table.pairs == pairs
        invariant resizeCap == if old(resizeCap) < |bds| then |bds| else old(resizeCap)
        invariant CopyState(hash, geo, bitDiffs, maxBucketBitDiffs, resizeCopies[..n], offsets, pairs, src)
      {
        if bds[src] != 0 {
          ok := CopySlot(src, n);
          if !ok { return; }
          n := n + 1;
        } else {
          CopySkip(hash, geo, bitDiffs, maxBucketBitDiffs, resizeCopies[..n], offsets, pairs, src);
        }
        src := src + 1;
      }
      CopyDone(hash, geo, bitDiffs, maxBucketBitDiffs, resizeCopies[..n], offsets, pairs, |bds|);
      resizeCopies := resizeCopies[..n];
      table.HashResize(resizeCopies);
      nElts := n;
    }

    /** Slot i is set aside for key k, which the client has yet to store. */
    ghost predicate Reserved(i: nat, k: K)
      reads this, table
    {
      && Distinct(table.offsets, table.pairs)
      && i !in table.offsets && nElts == |table.offsets| + 1 && resizeCap < |bitDiffs|
      && TableOk(hash, geo, bitDiffs, maxBucketBitDiffs, KeysOf(table.offsets, table.pairs)[i := k])
    }

    /** Take a free slot of the bucket for a key that is not stored. */
    method TakeSlot(base: nat, k: K) returns (i: nat, done: bool)
      requires Valid() && |bitDiffs| > 0 && base == BaseOf(hash, geo, k)
      requires forall j :: j in table.offsets ==> table.KeyAt(j) != k
      modifies this`bitDiffs, this`maxBucketBitDiffs, this`nElts
      ensures |bitDiffs| == |old(bitDiffs)|
      ensures if done then Reserved(i, k) else Valid()
      ensures done <==> !Full(geo, old(bitDiffs), base)
    {
      hide BaseIndex, Xor, Pow2, Geometry.Cap, Geometry.Bucket, Geometry.Buckets, Geometry.Ok, Geometry.BucketOf,
           SlotOk, TableOk, TableShape, Placed, Raised, KeysOf, Dict, Full;
      UsableShape();
      BaseInRange(geo, hash(geo.seed, k));
      ghost var diffs, maxes, keys := bitDiffs, maxBucketBitDiffs, KeysOf(table.offsets, table.pairs);
      var diff;
      i, diff, done := SearchFree(base);
      if done {
        NotFull(geo, diffs, base, diff);
        AbsentKey(table.offsets, table.pairs, k, i);
        PlaceOk(hash, geo, diffs, maxes, keys, k, diff);
        // The slot is set a second time, to the same value.
        PlacedTwice(diffs, maxes, i, geo.BucketOf(i), diff);
        SetDiff(i, base, diff);
        nElts := nElts + 1;
        hide Owned;
      }
    }

    lemma NotFull(g: Geometry, diffs: seq<nat>, base: nat, diff: nat)
      requires diff < g.Bucket() && Xor(base, diff) < |diffs| && diffs[Xor(base, diff)] == 0
      ensures !Full(g, diffs, base)
    {
    }

    /** One turn of `Set` without growing: done exactly if the key is stored or its bucket has room. */
    method TrySet(k: K) returns (i: nat, exists_: bool, done: bool)
      requires Valid() && |bitDiffs| > 0
      modifies this`bitDiffs, this`maxBucketBitDiffs, this`nElts
      ensures |bitDiffs| == |old(bitDiffs)|
      ensures done ==> (exists_ <==> k in Dict(table.offsets, table.pairs))
      ensures done && exists_ ==> Valid() && i in table.offsets && table.KeyAt(i) == k
      ensures done && !exists_ ==> Reserved(i, k)
      ensures !done ==> Valid() && !exists_
      ensures done <==> k in Dict(table.offsets, table.pairs) || !Full(geo, old(bitDiffs), BaseOf(hash, geo, k))
    {
      hide BaseIndex, Xor, Pow2, TableOk, KeysOf, Reserved, Full;
      var base := BaseIndex(geo, hash(geo.seed, k));
      var diff;
      diff, exists_ := SearchBase(base, k);
      i, done := Xor(base, diff), exists_;
      if !exists_ {
        i, done := TakeSlot(base, k);
      }
    }

    lemma UsableShape()
      requires Usable()
      ensures TableShape(geo, bitDiffs, maxBucketBitDiffs) && geo.Ok()
    {
    }

    /** The growth loop of `Set`: draw sizes until one takes every key. */
    method GrowAndCopy(sizes: seq<Size>) returns (rest: seq<Size>, ok: bool)
      requires Valid() && Growing(|bitDiffs|, sizes)
      modifies this`geo, this`bitDiffs, this`maxBucketBitDiffs, this`nElts, this`resizeCopies, this`resizeCap,
               table`offsets
      ensures ok ==> Valid() && |bitDiffs| > 0 && |rest| < |sizes| && Growing(|bitDiffs|, rest)
      ensures |rest| <= |sizes| && rest == sizes[|sizes| - |rest|..] && (!ok ==> |rest| == 0)
      ensures |rest| < |sizes| ==> geo == GeometryOf(sizes[|sizes| - |rest| - 1])
      ensures |rest| == |sizes| ==> geo == old(geo) && bitDiffs == old(bitDiffs)
      ensures table.offsets.Values == old(table.offsets).Values && Distinct(table.offsets, table.pairs)
      ensures Dict(table.offsets, table.pairs) == old(Dict(table.offsets, table.pairs))
    {
      hide TableOk, KeysOf, Dict, TableShape, GeometryOf, Full, Geometry.Cap;
      var save := bitDiffs;
      ghost var offsets := table.offsets;
      InUse();
      rest, ok := sizes, false;
      while !ok && |rest| > 0
        invariant Growing(|bitDiffs|, rest) && |rest| <= |sizes| && (ok ==> |rest| < |sizes|)
        invariant rest == sizes[|sizes| - |rest|..]
        invariant |rest| < |sizes| ==> geo == GeometryOf(sizes[|sizes| - |rest| - 1])
        invariant |rest| == |sizes| ==> geo == old(geo) && bitDiffs == old(bitDiffs) && !ok
        invariant |save| <= |bitDiffs| && (|rest| < |sizes| ==> |save| < |bitDiffs|)
        invariant Distinct(table.offsets, table.pairs)
        invariant !ok ==> table.offsets == offsets
        invariant forall i: nat :: i in offsets <==> i < |save| && save[i] != 0
        invariant !ok ==> resizeCap < |save| || |resizeCopies| >= |save|
        invariant resizeCap <= |save|
        invariant ok ==> Usable() && nElts == |table.offsets| && |bitDiffs| > 0
        invariant table.offsets.Values == offsets.Values
        decreases |rest|
      {
        ok := GrowOnce(rest[0], save);
        rest := rest[1..];
      }
      DictMoved(table.offsets, offsets, table.pairs);
    }

    /** A table of the next size, and an attempt to move every key to it. */
    method GrowOnce(z: Size, save: seq<nat>) returns (ok: bool)
      requires Distinct(table.offsets, table.pairs)
      requires forall i: nat :: i in table.offsets <==> i < |save| && save[i] != 0
      requires resizeCap <= |save| && (resizeCap < |save| || |resizeCopies| >= |save|)
      requires GeometryOf(z).Cap() > |save|
      modifies this`geo, this`bitDiffs, this`maxBucketBitDiffs, this`nElts, this`resizeCopies, this`resizeCap,
               table`offsets
      ensures geo == GeometryOf(z) && |bitDiffs| == geo.Cap() && resizeCap == |save|
      ensures !ok ==> table.offsets == old(table.offsets) && |resizeCopies| >= |save|
      ensures !ok ==> exists src :: src in table.offsets && Full(geo, bitDiffs, BaseOf(hash, geo, table.KeyAt(src)))
      ensures ok ==> Usable() && nElts == |table.offsets|
      ensures table.offsets.Values == old(table.offsets).Values
    {
      hide TableOk, Owned, KeysOf, Dict, TableShape, GeometryOf, Full, Copied, Applied;
      Grow(z);
      ok := Copy(save);
    }

    /** The client's slots are those in use. */
    lemma InUse()
      requires Valid()
      ensures forall i: nat :: i in table.offsets <==> i < |bitDiffs| && bitDiffs[i] != 0
    {
      if |bitDiffs| > 0 {
        assert forall i: nat :: i in KeysOf(table.offsets, table.pairs) <==> i in table.offsets;
      }
    }

    /** Find the key, or reserve a slot for it, growing as often as its bucket is full; `rest` are the sizes not
      * used. */
    method Set(k: K, sizes: seq<Size>) returns (i: nat, exists_: bool, done: bool, rest: seq<Size>)
      requires Valid() && Growing(|bitDiffs|, sizes)
      modifies this`geo, this`bitDiffs, this`maxBucketBitDiffs, this`nElts, this`resizeCopies, this`resizeCap,
               table`offsets
      ensures Distinct(table.offsets, table.pairs) && table.offsets.Values == old(table.offsets).Values
      ensures Dict(table.offsets, table.pairs) == old(Dict(table.offsets, table.pairs))
      ensures done ==> (exists_ <==> k in Dict(table.offsets, table.pairs))
      ensures done && exists_ ==> Valid() && i in table.offsets && table.KeyAt(i) == k
      ensures done && !exists_ ==> Reserved(i, k)
      ensures |rest| <= |sizes| && rest == sizes[|sizes| - |rest|..] && (!done ==> |rest| == 0)
      ensures geo == if |rest| == |sizes| then old(geo) else GeometryOf(sizes[|sizes| - |rest| - 1])
      ensures old(HasRoom(k)) ==> done && |rest| == |sizes| && table.offsets == old(table.offsets)
      ensures !old(HasRoom(k)) && |sizes| > 0 ==> |rest| < |sizes|
    {
      hide Xor, BaseIndex, TableOk, KeysOf, Owned, Dict, Growing, Reserved, Full, GeometryOf;
      rest := sizes;
      i, exists_, done := 0, false, false;
      while true
        invariant Valid() && Growing(|bitDiffs|, rest) && !exists_ && !done
        invariant table.offsets.Values == old(table.offsets).Values
        invariant Dict(table.offsets, table.pairs) == old(Dict(table.offsets, table.pairs))
        invariant |rest| <= |sizes| && rest == sizes[|sizes| - |rest|..]
        invariant geo == if |rest| == |sizes| then old(geo) else GeometryOf(sizes[|sizes| - |rest| - 1])
        invariant |rest| == |sizes| ==> bitDiffs == old(bitDiffs) && table.offsets == old(table.offsets)
        invariant |rest| < |sizes| ==> !old(HasRoom(k))
        decreases |rest|
      {
        if |bitDiffs| > 0 {
          i, exists_, done := TrySet(k);
          if done { return; }
        }
        ghost var before := rest;
        var ok;
        rest, ok := GrowAndCopy(rest);
        Suffix(sizes, before, rest);
        if !ok { return; }
      }
    }

    /** No growth is needed to set the key: it is stored, or its bucket has a free slot. */
    ghost predicate HasRoom(k: K)
      reads this, table
      requires Valid()
    {
      |bitDiffs| > 0 && (k in Dict(table.offsets, table.pairs) || !Full(geo, bitDiffs, BaseOf(hash, geo, k)))
    }
  }

  lemma Suffix<T>(a: seq<T>, b: seq<T>, c: seq<T>)
    requires |c| <= |b| <= |a| && b == a[|a| - |b|..] && c == b[|b| - |c|..]
    ensures c == a[|a| - |c|..]
    ensures |c| < |b| ==> b[|b| - |c| - 1] == a[|a| - |c| - 1]
  {
  }

  lemma EmptyOk<K(!new)>(hash: Hasher<K>, g: Geometry, diffs: seq<nat>, maxes: seq<nat>, pairs: seq<K>)
    requires TableShape(g, diffs, maxes) && forall i :: 0 <= i < |diffs| ==> diffs[i] == 0
    ensures TableOk(hash, g, diffs, maxes, KeysOf(map[], pairs))
  {
  }
}

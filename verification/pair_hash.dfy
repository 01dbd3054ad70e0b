/** `pair_hash` of `goes/elib/mctree/pair.go`: the client that gives every stored key a lasting offset. */
module PairHashes {
  import opened HashProbe
  import opened HashTables

  /** The offsets not in use are exactly the ones on the free list. */
  ghost predicate PoolOk<K(!new)>(offsets: map<nat, nat>, pairs: seq<K>, free: seq<nat>) {
    && (forall o: nat :: o < |pairs| ==> (o in free <==> o !in offsets.Values))
    && (forall p :: 0 <= p < |free| ==> free[p] < |pairs|)
    && (forall p, q :: 0 <= p < q < |free| ==> free[p] != free[q])
  }

  lemma DictAt<K(!new)>(offsets: map<nat, nat>, pairs: seq<K>, i: nat)
    requires Distinct(offsets, pairs) && i in offsets
    ensures pairs[offsets[i]] in Dict(offsets, pairs) && Dict(offsets, pairs)[pairs[offsets[i]]] == offsets[i]
  {
  }

  lemma DictSlot<K(!new)>(offsets: map<nat, nat>, pairs: seq<K>, k: K) returns (i: nat)
    requires Distinct(offsets, pairs) && k in Dict(offsets, pairs)
    ensures i in offsets && pairs[offsets[i]] == k && Dict(offsets, pairs)[k] == offsets[i]
  {
    i :| i in offsets && pairs[offsets[i]] == k;
  }

  lemma StoreKeys<K(!new)>(offsets: map<nat, nat>, pairs: seq<K>, pairs': seq<K>, i: nat, o: nat, k: K)
    requires Distinct(offsets, pairs) && i !in offsets && o !in offsets.Values && k !in Dict(offsets, pairs)
    requires o < |pairs'| && |pairs| <= |pairs'| && pairs'[o] == k
    requires forall p :: 0 <= p < |pairs| && p != o ==> pairs'[p] == pairs[p]
    ensures Distinct(offsets[i := o], pairs')
    ensures KeysOf(offsets[i := o], pairs') == KeysOf(offsets, pairs)[i := k]
    ensures forall j :: j in offsets ==> pairs'[offsets[j]] == pairs[offsets[j]] != k
  {
    hide Dict;
    forall j | j in offsets ensures offsets[j] != o && pairs'[offsets[j]] == pairs[offsets[j]] != k {
      assert offsets[j] in offsets.Values;
      DictAt(offsets, pairs, j);
    }
  }

  lemma StoredStays<K(!new)>(offsets: map<nat, nat>, pairs: seq<K>, pairs': seq<K>, i: nat, o: nat, k: K, x: K)
    requires Distinct(offsets, pairs) && i !in offsets && Distinct(offsets[i := o], pairs') && x in Dict(offsets, pairs)
    requires |pairs| <= |pairs'| && forall j :: j in offsets ==> pairs'[offsets[j]] == pairs[offsets[j]] != k
    ensures x != k && x in Dict(offsets[i := o], pairs') && Dict(offsets[i := o], pairs')[x] == Dict(offsets, pairs)[x]
  {
    hide Dict;
    var j := DictSlot(offsets, pairs, x);
    assert offsets[i := o][j] == offsets[j];
    DictAt(offsets[i := o], pairs', j);
  }

  lemma StoredOnly<K(!new)>(offsets: map<nat, nat>, pairs: seq<K>, pairs': seq<K>, i: nat, o: nat, k: K, x: K)
    requires Distinct(offsets, pairs) && i !in offsets && Distinct(offsets[i := o], pairs')
    requires o < |pairs'| && pairs'[o] == k && x in Dict(offsets[i := o], pairs') && x != k
    requires |pairs| <= |pairs'| && forall j :: j in offsets ==> pairs'[offsets[j]] == pairs[offsets[j]] != k
    ensures x in Dict(offsets, pairs)
  {
    hide Dict;
    var j := DictSlot(offsets[i := o], pairs', x);
    DictAt(offsets, pairs, j);
  }

  /** Storing key k at slot i under an offset o not yet in use. */
  lemma StoreDict<K(!new)>(offsets: map<nat, nat>, pairs: seq<K>, pairs': seq<K>, i: nat, o: nat, k: K)
    requires Distinct(offsets, pairs) && i !in offsets && o !in offsets.Values && k !in Dict(offsets, pairs)
    requires o < |pairs'| && |pairs| <= |pairs'| && pairs'[o] == k
    requires forall p :: 0 <= p < |pairs| && p != o ==> pairs'[p] == pairs[p]
    ensures Distinct(offsets[i := o], pairs')
    ensures Dict(offsets[i := o], pairs') == Dict(offsets, pairs)[k := o]
  {
    hide Dict, KeysOf, Owned, Distinct;
    StoreKeys(offsets, pairs, pairs', i, o, k);
    var offsets' := offsets[i := o];
    var d, d' := Dict(offsets, pairs), Dict(offsets', pairs');
    assert pairs'[offsets'[i]] == k;
    DictAt(offsets', pairs', i);
    forall x | x in d ensures x in d' && d'[x] == d[x] && x != k {
      StoredStays(offsets, pairs, pairs', i, o, k, x);
    }
    forall x | x in d' && x != k ensures x in d {
      StoredOnly(offsets, pairs, pairs', i, o, k, x);
    }
  }

  lemma DropKeys<K(!new)>(offsets: map<nat, nat>, pairs: seq<K>, i: nat)
    requires Distinct(offsets, pairs) && i in offsets
    ensures Distinct(offsets - {i}, pairs) && KeysOf(offsets - {i}, pairs) == KeysOf(offsets, pairs) - {i}
    ensures (offsets - {i}).Values == offsets.Values - {offsets[i]}
  {
    var offsets' := offsets - {i};
    forall o ensures o in offsets'.Values <==> o in offsets.Values && o != offsets[i] {
      if o in offsets.Values && o != offsets[i] {
        var j :| j in offsets && offsets[j] == o;
        assert offsets'[j] == o;
      }
    }
  }

  lemma DropDict<K(!new)>(offsets: map<nat, nat>, pairs: seq<K>, i: nat)
    requires Distinct(offsets, pairs) && i in offsets
    ensures Distinct(offsets - {i}, pairs)
    ensures Dict(offsets - {i}, pairs) == Dict(offsets, pairs) - {pairs[offsets[i]]}
  {
    DropKeys(offsets, pairs, i);
    hide Dict, KeysOf, Owned;
    var d, d', k := Dict(offsets, pairs), Dict(offsets - {i}, pairs), pairs[offsets[i]];
    forall x ensures x in d' <==> x in d && x != k {
      DropKey(offsets, pairs, i, x);
    }
    forall x | x in d' ensures d[x] == d'[x] {
      DropKey(offsets, pairs, i, x);
    }
  }

  lemma DropKey<K(!new)>(offsets: map<nat, nat>, pairs: seq<K>, i: nat, x: K)
    requires Distinct(offsets, pairs) && i in offsets && Distinct(offsets - {i}, pairs)
    ensures x in Dict(offsets - {i}, pairs) <==> x in Dict(offsets, pairs) && x != pairs[offsets[i]]
    ensures x in Dict(offsets - {i}, pairs) ==> Dict(offsets - {i}, pairs)[x] == Dict(offsets, pairs)[x]
  {
    hide Dict;
    var offsets' := offsets - {i};
    if x in Dict(offsets', pairs) {
      var j := DictSlot(offsets', pairs, x);
      DictAt(offsets, pairs, j);
    } else if x in Dict(offsets, pairs) && x != pairs[offsets[i]] {
      var j := DictSlot(offsets, pairs, x);
      DictAt(offsets', pairs, j);
    }
  }

  class PairHash<K(==, !new)> {
    const hash: Hash<K>
    const table: PairTable<K>

    ghost predicate Valid()
      reads this, hash, table
    {
      && hash.table == table && hash.Valid() && |hash.bitDiffs| > 0
      && Distinct(table.offsets, table.pairs)
      && PoolOk(table.offsets, table.pairs, table.freePairs)
    }

    /** The finite map from keys to offsets. */
    ghost function Contents(): map<K, nat>
      requires Valid()
      reads this, hash, table
    {
      Dict(table.offsets, table.pairs)
    }

    constructor (hashOf: Hasher<K>, z: Size)
      ensures Valid() && fresh(hash) && fresh(table)
      ensures Contents() == map[]
      ensures |hash.bitDiffs| == GeometryOf(z).Cap()
    {
      var t := new PairTable();
      var h := new Hash(hashOf, t);
      table, hash := t, h;
      new;
      hash.Grow(z);
      EmptyOk(hash.hash, hash.geo, hash.bitDiffs, hash.maxBucketBitDiffs, table.pairs);
      assert KeysOf(table.offsets, table.pairs) == map[];
    }

    /** The rest of `set` for a key that is already stored: write it again at its offset. */
    method Keep(i: nat, k: K) returns (o: nat)
      requires Valid() && i in table.offsets && table.KeyAt(i) == k
      modifies table`pairs
      ensures Valid() && Contents() == old(Contents())
      ensures k in Contents() && o == Contents()[k]
    {
      o := table.offsets[i];
      table.pairs := table.pairs[o := k];
      assert table.pairs == old(table.pairs);
    }

    /** `pairs_pool.GetIndex` and `pairs.Validate`: a free offset, or one more pair. */
    method GetIndex(k: K) returns (o: nat)
      requires PoolOk(table.offsets, table.pairs, table.freePairs)
      modifies table`freePairs, table`pairs
      ensures if |old(table.freePairs)| > 0
        then o == old(table.freePairs)[|old(table.freePairs)| - 1] && table.pairs == old(table.pairs)
             && table.freePairs == old(table.freePairs)[..|old(table.freePairs)| - 1]
        else o == |old(table.pairs)| && table.freePairs == old(table.freePairs)
             && table.pairs == old(table.pairs) + [k]
      ensures o < |table.pairs|
    {
      if |table.freePairs| > 0 {
        o := table.freePairs[|table.freePairs| - 1];
        table.freePairs := table.freePairs[..|table.freePairs| - 1];
      } else {
        o := |table.pairs|;
        table.pairs := table.pairs + [k];
      }
    }

    /** The rest of `set` for a new key: enter it at slot i under a new offset. */
    method Store(i: nat, k: K) returns (o: nat)
      requires hash.table == table && hash.Reserved(i, k) && PoolOk(table.offsets, table.pairs, table.freePairs)
      requires k !in Dict(table.offsets, table.pairs)
      modifies table
      ensures Valid() && o !in old(table.offsets.Values)
      ensures Contents() == old(Dict(table.offsets, table.pairs))[k := o]
    {
      hide TableOk, Dict, KeysOf, PoolOk, Owned, Distinct, UsableOn;
      ghost var offsets, pairs, free := table.offsets, table.pairs, table.freePairs;
      o := GetIndex(k);
      table.offsets := table.offsets[i := o];
      table.pairs := table.pairs[o := k];
      assert |free| == 0 ==> table.pairs == pairs + [k];
      StoreAll(hash.hash, hash.geo, hash.bitDiffs, hash.maxBucketBitDiffs, offsets, pairs, free, table.pairs,
               table.freePairs,
               i, o, k);
    }

    /** The rest of `set`, once the hash has found or reserved slot i. */
    method Finish(i: nat, k: K, exists_: bool) returns (o: nat)
      requires hash.table == table && PoolOk(table.offsets, table.pairs, table.freePairs)
      requires Distinct(table.offsets, table.pairs) && (exists_ <==> k in Dict(table.offsets, table.pairs))
      requires if exists_ then Valid() && i in table.offsets && table.KeyAt(i) == k else hash.Reserved(i, k)
      modifies table
      ensures Valid()
      ensures Contents() == old(Dict(table.offsets, table.pairs))[k := o]
      ensures if exists_ then o == old(Dict(table.offsets, table.pairs))[k] else o !in old(table.offsets.Values)
    {
      hide TableOk, Dict, KeysOf, PoolOk, Owned, Distinct, UsableOn;
      ghost var was := Dict(table.offsets, table.pairs);
      if exists_ {
        o := Keep(i, k);
        assert was == was[k := o];
      } else {
        o := Store(i, k);
      }
    }

    /** `set`. */
    method Set(k: K, sizes: seq<Size>) returns (o: nat, exists_: bool, done: bool, rest: seq<Size>)
      requires Valid() && Growing(|hash.bitDiffs|, sizes)
      modifies hash, table
      ensures done ==> Valid()
      ensures |rest| <= |sizes| && rest == sizes[|sizes| - |rest|..] && (!done ==> |rest| == 0)
      ensures old(hash.HasRoom(k)) ==> done && |rest| == |sizes|
      ensures !old(hash.HasRoom(k)) && |sizes| > 0 ==> |rest| < |sizes|
      ensures done ==> (exists_ <==> k in old(Contents()))
      ensures done ==> Contents() == old(Contents())[k := o]
      ensures done && exists_ ==> o == old(Contents())[k]
      ensures done && !exists_ ==> o !in old(Contents()).Values
    {
      hide TableOk, Dict, KeysOf, Growing, PoolOk, Owned, Distinct, UsableOn;
      DictValues(table.offsets, table.pairs);
      ghost var offsets, pairs, free := table.offsets, table.pairs, table.freePairs;
      var i;
      o := 0;
      i, exists_, done, rest := hash.Set(k, sizes);
      if done {
        PoolMoved(offsets, table.offsets, pairs, free);
        o := Finish(i, k, exists_);
      }
    }

    /** `get`. */
    method Get(k: K) returns (o: nat, ok: bool)
      requires Valid()
      ensures ok <==> k in Contents()
      ensures ok ==> o == Contents()[k]
    {
      hide TableOk, KeysOf, PoolOk;
      var i;
      o := 0;
      i, ok := hash.Get(k);
      if ok { o := table.offsets[i]; }
    }

    /** `unset`; like the hash it panics before the first growth. */
    method Unset(k: K) returns (o: nat, ok: bool, panics: bool)
      requires Valid()
      modifies hash, table
      ensures Valid() && (panics <==> |old(hash.bitDiffs)| == 0)
      ensures ok <==> k in old(Contents())
      ensures ok ==> o == old(Contents())[k]
      ensures Contents() == old(Contents()) - {k}
    {
      hide TableOk, KeysOf, PoolOk;
      var i;
      o := 0;
      i, ok, panics := hash.Unset(k);
      if ok {
        o := Drop(i, k);
      } else {
        assert old(Contents()) == old(Contents()) - {k};
      }
    }

    /** The rest of `unset`: the offset goes back to the pool. */
    method Drop(i: nat, k: K) returns (o: nat)
      requires hash.table == table && |hash.bitDiffs| > 0 && hash.resizeCap < |hash.bitDiffs|
      requires Distinct(table.offsets, table.pairs) && PoolOk(table.offsets, table.pairs, table.freePairs)
      requires i in table.offsets && table.KeyAt(i) == k && hash.nElts == |table.offsets| - 1
      requires TableOk(hash.hash, hash.geo, hash.bitDiffs, hash.maxBucketBitDiffs,
                       KeysOf(table.offsets, table.pairs) - {i})
      modifies table
      ensures Valid() && o == old(table.offsets[i])
      ensures Contents() == old(Dict(table.offsets, table.pairs)) - {k}
    {
      hide TableOk, Dict, KeysOf, PoolOk, Owned, Distinct, UsableOn;
      DropAll(hash.hash, hash.geo, hash.bitDiffs, hash.maxBucketBitDiffs, table.offsets, table.pairs, table.freePairs,
              i);
      o := table.offsets[i];
      // PutIndex frees an index once; this one is in use.
      table.freePairs := table.freePairs + [o];
      table.offsets := table.offsets - {i};
    }
  }

  lemma DictValues<K(!new)>(offsets: map<nat, nat>, pairs: seq<K>)
    requires Distinct(offsets, pairs)
    ensures Dict(offsets, pairs).Values == offsets.Values
  {
    var d := Dict(offsets, pairs);
    forall o ensures o in d.Values <==> o in offsets.Values {
      if o in offsets.Values {
        var i :| i in offsets && offsets[i] == o;
        assert d[pairs[o]] == o;
      }
    }
  }

  lemma PoolMoved<K(!new)>(a: map<nat, nat>, b: map<nat, nat>, pairs: seq<K>, free: seq<nat>)
    requires PoolOk(a, pairs, free) && a.Values == b.Values
    ensures PoolOk(b, pairs, free)
  {
  }

  lemma FreshOffset<K(!new)>(offsets: map<nat, nat>, pairs: seq<K>, free: seq<nat>, o: nat)
    requires Owned(offsets, pairs) && PoolOk(offsets, pairs, free)
    requires if |free| > 0 then o == free[|free| - 1] else o == |pairs|
    ensures o !in offsets.Values
  {
  }

  lemma StoreAll<K(!new)>(hash: Hasher<K>, g: Geometry, diffs: seq<nat>, maxes: seq<nat>, offsets: map<nat, nat>,
                          pairs: seq<K>, free: seq<nat>, pairs': seq<K>, free': seq<nat>, i: nat, o: nat, k: K)
    requires Distinct(offsets, pairs) && PoolOk(offsets, pairs, free) && i !in offsets && k !in Dict(offsets, pairs)
    requires TableOk(hash, g, diffs, maxes, KeysOf(offsets, pairs)[i := k])
    requires if |free| > 0
      then o == free[|free| - 1] && free' == free[..|free| - 1] && o < |pairs| && pairs' == pairs[o := k]
      else o == |pairs| && free' == free && pairs' == pairs + [k]
    ensures UsableOn(hash, g, diffs, maxes, offsets[i := o], pairs')
    ensures PoolOk(offsets[i := o], pairs', free') && o !in offsets.Values
    ensures Distinct(offsets[i := o], pairs') && Dict(offsets[i := o], pairs') == Dict(offsets, pairs)[k := o]
    ensures |offsets[i := o]| == |offsets| + 1
  {
    FreshOffset(offsets, pairs, free, o);
    StorePool(offsets, pairs, free, i, o, pairs', free');
    hide TableOk, Dict, KeysOf, PoolOk, Owned;
    StoreKeys(offsets, pairs, pairs', i, o, k);
    StoreDict(offsets, pairs, pairs', i, o, k);
  }

  lemma StorePool<K(!new)>(offsets: map<nat, nat>, pairs: seq<K>, free: seq<nat>, i: nat, o: nat,
                           pairs': seq<K>, free': seq<nat>)
    requires PoolOk(offsets, pairs, free) && i !in offsets
    requires if |free| > 0 then o == free[|free| - 1] && free' == free[..|free| - 1] && |pairs'| == |pairs|
             else o == |pairs| && free' == free && |pairs'| == |pairs| + 1
    ensures PoolOk(offsets[i := o], pairs', free')
  {
    var offsets' := offsets[i := o];
    forall x ensures x in offsets'.Values <==> x in offsets.Values || x == o {
      if x in offsets.Values {
        var j :| j in offsets && offsets[j] == x;
        assert offsets'[j] == x;
      }
      assert offsets'[i] == o;
    }
  }

  lemma DropAll<K(!new)>(hash: Hasher<K>, g: Geometry, diffs: seq<nat>, maxes: seq<nat>, offsets: map<nat, nat>,
                         pairs: seq<K>, free: seq<nat>, i: nat)
    requires Distinct(offsets, pairs) && PoolOk(offsets, pairs, free) && i in offsets
    requires TableOk(hash, g, diffs, maxes, KeysOf(offsets, pairs) - {i})
    ensures UsableOn(hash, g, diffs, maxes, offsets - {i}, pairs)
    ensures PoolOk(offsets - {i}, pairs, free + [offsets[i]])
    ensures Distinct(offsets - {i}, pairs) && |offsets - {i}| == |offsets| - 1
    ensures Dict(offsets - {i}, pairs) == Dict(offsets, pairs) - {pairs[offsets[i]]}
  {
    hide TableOk, Dict, KeysOf, PoolOk;
    DropKeys(offsets, pairs, i);
    DropDict(offsets, pairs, i);
    DropPool(offsets, pairs, free, i);
    var rest := offsets - {i};
    assert offsets == rest[i := offsets[i]];
  }

  lemma DropPool<K(!new)>(offsets: map<nat, nat>, pairs: seq<K>, free: seq<nat>, i: nat)
    requires Distinct(offsets, pairs) && PoolOk(offsets, pairs, free) && i in offsets
    ensures PoolOk(offsets - {i}, pairs, free + [offsets[i]])
  {
    DropKeys(offsets, pairs, i);
    hide KeysOf;
    assert offsets[i] in offsets.Values;
    forall p, q | 0 <= p < q < |free + [offsets[i]]| ensures (free + [offsets[i]])[p] != (free + [offsets[i]])[q] {
      assert free[p] in free;
    }
  }
}

/** Trees of mask/value pairs as `goes/elib/mctree/mctree.go` keeps them, on values.
  *
  * A key is a row of bits, each with a mask and a value. A stored pair belongs to a node when the two agree
  * on every bit that both mask. A leaf names a shared vector that lists the pairs belonging to it; a fork
  * splits on one bit, and a pair that does not mask the bit goes both ways.
  */
module MaskTrees {
  datatype Bit = Bit(mask: bool, value: bool)

  type Key = seq<Bit>

  /** A tree with, at every node, its index in the node pool and its key; at a leaf, its vector (or -1). */
  datatype Tree =
    | Leaf(node: nat, key: Key, pool: int)
    | Fork(node: nat, key: Key, bit: nat, t0: Tree, t1: Tree)

  predicate Compatible(p: Key, k: Key) {
    |p| == |k| && forall b :: 0 <= b < |k| ==> p[b].mask && k[b].mask ==> p[b].value == k[b].value
  }

  predicate Matches(x: seq<bool>, p: Key) {
    |p| == |x| && forall b :: 0 <= b < |p| ==> p[b].mask ==> p[b].value == x[b]
  }

  function Sub(k: Key, bit: nat, v: bool): Key
    requires bit < |k|
  {
    k[bit := Bit(true, v)]
  }

  /** Bits of `branch`: whether a pair goes to sub-node 0, and to sub-node 1. */
  function Goes(p: Key, bit: nat, v: bool): bool
    requires bit < |p|
  {
    !p[bit].mask || p[bit].value == v
  }

  /** On a bit not yet in the node's key, the pairs of a node are those of its sub-nodes. */
  lemma GoesIff(p: Key, k: Key, bit: nat, v: bool)
    requires |p| == |k| && bit < |k| && !k[bit].mask
    ensures Compatible(p, Sub(k, bit, v)) <==> Compatible(p, k) && Goes(p, bit, v)
  {
    var s := Sub(k, bit, v);
    if Compatible(p, s) {
      assert s[bit].mask;
      forall b | 0 <= b < |k| ensures p[b].mask && k[b].mask ==> p[b].value == k[b].value {
        assert b != bit ==> s[b] == k[b];
      }
    }
  }

  // ---- Shared vectors ----

  datatype Shared = Shared(vec: seq<nat>, refs: nat)

  function VecOf(elts: seq<Shared>, pool: int): seq<nat> {
    if 0 <= pool < |elts| then elts[pool].vec else []
  }

  predicate NoDup(s: seq<nat>) {
    forall i, j :: 0 <= i < j < |s| ==> s[i] != s[j]
  }

  /** The vector lists, once each, exactly the stored pairs that belong to the key. */
  ghost predicate Holds(vec: seq<nat>, key: Key, pairs: map<nat, Key>) {
    && NoDup(vec)
    && (forall o: nat :: o in vec <==> o in pairs && Compatible(pairs[o], key))
  }

  /** A node's key has values only under its mask. */
  predicate KeyOk(k: Key) {
    forall b :: 0 <= b < |k| && !k[b].mask ==> !k[b].value
  }

  ghost predicate Good(t: Tree, elts: seq<Shared>, pairs: map<nat, Key>) {
    match t
    case Leaf(_, key, pool) => KeyOk(key) && -1 <= pool < |elts| && Holds(VecOf(elts, pool), key, pairs)
    case Fork(_, key, bit, t0, t1) =>
      && KeyOk(key) && bit < |key| && !key[bit].mask
      && t0.key == Sub(key, bit, false) && t1.key == Sub(key, bit, true)
      && Good(t0, elts, pairs) && Good(t1, elts, pairs)
  }

  ghost function Pools(t: Tree): multiset<int> {
    match t
    case Leaf(_, _, pool) => if pool >= 0 then multiset{pool} else multiset{}
    case Fork(_, _, _, t0, t1) => Pools(t0) + Pools(t1)
  }

  ghost function Nodes(t: Tree): multiset<nat> {
    match t
    case Leaf(i, _, _) => multiset{i}
    case Fork(i, _, _, t0, t1) => multiset{i} + Nodes(t0) + Nodes(t1)
  }

  // ---- Searching ----

  /** The one leaf that a search key leads to. */
  function Lookup(t: Tree, x: seq<bool>): int {
    match t
    case Leaf(_, _, pool) => pool
    case Fork(_, _, bit, t0, t1) => if bit < |x| && x[bit] then Lookup(t1, x) else Lookup(t0, x)
  }

  predicate Under(x: seq<bool>, k: Key) {
    |x| == |k| && forall b :: 0 <= b < |k| ==> k[b].mask ==> k[b].value == x[b]
  }

  /** The leaf on the search path lists every stored pair that matches the search key. */
  lemma {:induction false} LookupFinds(t: Tree, elts: seq<Shared>, pairs: map<nat, Key>, x: seq<bool>, o: nat)
    requires Good(t, elts, pairs) && Under(x, t.key) && o in pairs && Matches(x, pairs[o])
    ensures o in VecOf(elts, Lookup(t, x))
  {
    match t
    case Leaf(_, key, pool) =>
      assert Compatible(pairs[o], key);
    case Fork(_, key, bit, t0, t1) =>
      LookupFinds(if x[bit] then t1 else t0, elts, pairs, x, o);
  }

  lemma {:induction false} LookupOnce(t: Tree, elts: seq<Shared>, pairs: map<nat, Key>, x: seq<bool>)
    requires Good(t, elts, pairs)
    ensures NoDup(VecOf(elts, Lookup(t, x)))
    ensures forall o :: o in VecOf(elts, Lookup(t, x)) ==> o in pairs
  {
    if t.Fork? {
      LookupOnce(t.t0, elts, pairs, x);
      LookupOnce(t.t1, elts, pairs, x);
    }
  }

  // ---- Replacing a subtree ----

  ghost predicate Has(t: Tree, u: Tree) {
    t == u || (t.Fork? && (Has(t.t0, u) || Has(t.t1, u)))
  }

  lemma {:induction false} HasNodes(t: Tree, u: Tree)
    requires Has(t, u)
    ensures Nodes(u) <= Nodes(t) && Pools(u) <= Pools(t) && u.node in Nodes(u)
  {
    if t != u {
      if Has(t.t0, u) { HasNodes(t.t0, u); } else { HasNodes(t.t1, u); }
    }
  }

  lemma {:induction false} HasGood(t: Tree, u: Tree, elts: seq<Shared>, pairs: map<nat, Key>)
    requires Has(t, u) && Good(t, elts, pairs)
    ensures Good(u, elts, pairs)
  {
    if t != u {
      if Has(t.t0, u) { HasGood(t.t0, u, elts, pairs); } else { HasGood(t.t1, u, elts, pairs); }
    }
  }

  lemma {:induction false} HasTrans(t: Tree, u: Tree, v: Tree)
    requires Has(t, u) && Has(u, v)
    ensures Has(t, v)
  {
    if t != u {
      if Has(t.t0, u) { HasTrans(t.t0, u, v); } else { HasTrans(t.t1, u, v); }
    }
  }

  /** The tree with the subtree u replaced by s. */
  ghost function Graft(t: Tree, u: Tree, s: Tree): Tree
    requires Has(t, u)
  {
    if t == u then s
    else if Has(t.t0, u) then Fork(t.node, t.key, t.bit, Graft(t.t0, u, s), t.t1)
    else Fork(t.node, t.key, t.bit, t.t0, Graft(t.t1, u, s))
  }

  lemma {:induction false} GraftGood(t: Tree, u: Tree, s: Tree, elts: seq<Shared>, pairs: map<nat, Key>)
    requires Has(t, u) && Good(t, elts, pairs) && Good(s, elts, pairs) && s.key == u.key
    ensures Good(Graft(t, u, s), elts, pairs) && Graft(t, u, s).key == t.key
  {
    if t != u {
      if Has(t.t0, u) { GraftGood(t.t0, u, s, elts, pairs); } else { GraftGood(t.t1, u, s, elts, pairs); }
    }
  }

  lemma BagSwap<T>(a: multiset<T>, b: multiset<T>, u: multiset<T>, s: multiset<T>)
    requires u <= a
    ensures u <= a + b && (a - u + s) + b == (a + b) - u + s && b + (a - u + s) == (b + a) - u + s
  {
  }

  lemma GraftSelf(t: Tree, s: Tree)
    ensures Has(t, t) && Graft(t, t, s) == s
  {
  }

  lemma NodesSwap(i: multiset<nat>, a: multiset<nat>, b: multiset<nat>, u: multiset<nat>, s: multiset<nat>)
    requires u <= a
    ensures u <= i + a + b && i + (a - u + s) + b == (i + a + b) - u + s
  {
  }

  /** The tree after grafting into one of its sub-trees. */
  lemma GraftInto(t: Tree, u: Tree, s: Tree)
    requires Has(t, u) && t != u
    ensures t.Fork?
    ensures if Has(t.t0, u) then Graft(t, u, s) == Fork(t.node, t.key, t.bit, Graft(t.t0, u, s), t.t1)
            else Has(t.t1, u) && Graft(t, u, s) == Fork(t.node, t.key, t.bit, t.t0, Graft(t.t1, u, s))
  {
  }

  lemma {:induction false} GraftPools(t: Tree, u: Tree, s: Tree)
    requires Has(t, u)
    ensures Pools(u) <= Pools(t) && Pools(Graft(t, u, s)) == Pools(t) - Pools(u) + Pools(s)
  {
    hide Has, Graft;
    if t == u {
      GraftSelf(t, s);
    } else {
      GraftInto(t, u, s);
      if Has(t.t0, u) {
        GraftPools(t.t0, u, s);
        BagSwap(Pools(t.t0), Pools(t.t1), Pools(u), Pools(s));
      } else {
        GraftPools(t.t1, u, s);
        BagSwap(Pools(t.t1), Pools(t.t0), Pools(u), Pools(s));
      }
    }
  }

  lemma {:induction false} GraftNodes(t: Tree, u: Tree, s: Tree)
    requires Has(t, u) && s.node == u.node
    ensures Nodes(u) <= Nodes(t) && Nodes(Graft(t, u, s)) == Nodes(t) - Nodes(u) + Nodes(s)
    ensures Graft(t, u, s).node == t.node
  {
    hide Has, Graft;
    if t == u {
      GraftSelf(t, s);
    } else {
      GraftInto(t, u, s);
      var i := multiset{t.node};
      if Has(t.t0, u) {
        GraftNodes(t.t0, u, s);
        NodesSwap(i, Nodes(t.t0), Nodes(t.t1), Nodes(u), Nodes(s));
      } else {
        GraftNodes(t.t1, u, s);
        BagSwap(Nodes(t.t1), i + Nodes(t.t0), Nodes(u), Nodes(s));
      }
    }
  }

  // ---- Costs ----

  datatype Cost = Cost(occupancy: int, occupancy2: int, leafs: int)

  function LeafCost(l: int): Cost {
    Cost(l, l * l, if l > 0 then 1 else 0)
  }

  function Plus(a: Cost, b: Cost): Cost {
    Cost(a.occupancy + b.occupancy, a.occupancy2 + b.occupancy2, a.leafs + b.leafs)
  }

  function Minus(a: Cost, b: Cost): Cost {
    Cost(a.occupancy - b.occupancy, a.occupancy2 - b.occupancy2, a.leafs - b.leafs)
  }

  /** The cost recomputed over all leaves. */
  function CostOf(t: Tree, elts: seq<Shared>): Cost {
    match t
    case Leaf(_, _, pool) => LeafCost(|VecOf(elts, pool)|)
    case Fork(_, _, _, t0, t1) => Plus(CostOf(t0, elts), CostOf(t1, elts))
  }

  lemma {:induction false} GraftCost(t: Tree, u: Tree, s: Tree, elts: seq<Shared>)
    requires Has(t, u)
    ensures CostOf(Graft(t, u, s), elts) == Plus(Minus(CostOf(t, elts), CostOf(u, elts)), CostOf(s, elts))
  {
    hide Has, Graft, VecOf, LeafCost;
    if t == u {
      GraftSelf(t, s);
    } else {
      GraftInto(t, u, s);
      if Has(t.t0, u) { GraftCost(t.t0, u, s, elts); } else { GraftCost(t.t1, u, s, elts); }
    }
  }

  // ---- Framing ----

  /** Two pools agree on the vectors that a tree uses. */
  ghost predicate SameVecs(t: Tree, elts: seq<Shared>, elts': seq<Shared>) {
    |elts| <= |elts'| && forall v :: v in Pools(t) && 0 <= v < |elts| ==> elts'[v].vec == elts[v].vec
  }

  lemma {:induction false} GoodFrame(t: Tree, elts: seq<Shared>, elts': seq<Shared>, pairs: map<nat, Key>)
    requires SameVecs(t, elts, elts') && forall v :: v in Pools(t) ==> 0 <= v < |elts|
    ensures Good(t, elts, pairs) ==> Good(t, elts', pairs)
    ensures CostOf(t, elts) == CostOf(t, elts')
  {
    match t
    case Leaf(_, _, pool) =>
      assert pool >= 0 ==> pool in Pools(t);
    case Fork(_, _, _, t0, t1) =>
      assert forall v :: v in Pools(t0) || v in Pools(t1) ==> v in Pools(t);
      GoodFrame(t0, elts, elts', pairs);
      GoodFrame(t1, elts, elts', pairs);
  }
}

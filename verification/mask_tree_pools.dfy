/** The node pool and the pool of reference-counted vectors under the trees of `goes/elib/mctree/mctree.go`,
  * with the loops that build the vectors of a split and of a join.
  */
module MaskTreePools {
  import opened MaskTrees

  /** A pooled node: its key and split bit, its sub-nodes (-1 for none) and its vector (-1 for none). */
  datatype Node = Node(key: Key, splitBit: nat, sub0: int, sub1: int, pool: int)

  /** The node pool holds the tree. */
  ghost predicate Match(nodes: seq<Node>, t: Tree) {
    match t
    case Leaf(i, key, pool) =>
      i < |nodes| && nodes[i].key == key && nodes[i].sub0 == nodes[i].sub1 == -1 && nodes[i].pool == pool
    case Fork(i, key, bit, t0, t1) =>
      && i < |nodes| && nodes[i] == Node(key, bit, t0.node, t1.node, -1)
      && Match(nodes, t0) && Match(nodes, t1)
  }

  /** Exactly the nodes in the bag are in use, each once. */
  ghost predicate NodesOk(n: nat, free: set<nat>, bag: multiset<nat>) {
    && (forall i :: i in bag ==> i < n)
    && (forall i :: i in free ==> i < n)
    && (forall i: nat :: i < n ==> bag[i] <= 1 && (i in free <==> bag[i] == 0))
  }

  /** Each vector's count is the number of its users in the bag; a vector is free at count zero. */
  ghost predicate RefsOk(elts: seq<Shared>, free: set<nat>, bag: multiset<int>) {
    && (forall v :: v in bag ==> 0 <= v < |elts|)
    && (forall v :: v in free ==> v < |elts|)
    && (forall v: nat :: v < |elts| ==> elts[v].refs == bag[v] && (v in free <==> bag[v] == 0))
  }

  lemma InUse(n: nat, free: set<nat>, bag: multiset<nat>, i: nat)
    requires NodesOk(n, free, bag) && i in bag
    ensures i < n
  {
  }

  lemma UsedOnce(n: nat, free: set<nat>, bag: multiset<nat>)
    requires NodesOk(n, free, bag)
    ensures forall i :: bag[i] <= 1
  {
    forall i ensures bag[i] <= 1 {
      if i in bag {
        assert i < n;
      }
    }
  }

  /** Nodes of one part of the bag are not in the other. */
  lemma Apart(n: nat, free: set<nat>, a: multiset<nat>, b: multiset<nat>)
    requires NodesOk(n, free, a + b)
    ensures forall j :: j in a ==> j !in b
  {
    UsedOnce(n, free, a + b);
    forall j | j in a ensures j !in b {
      assert (a + b)[j] == a[j] + b[j];
    }
  }

  /** Nothing in the bag has changed from one state of the node pool to another. */
  ghost predicate Keeps(a: seq<Node>, b: seq<Node>, bag: multiset<nat>) {
    |a| <= |b| && forall i :: i in bag && i < |a| ==> b[i] == a[i]
  }

  lemma KeepsTrans(a: seq<Node>, b: seq<Node>, c: seq<Node>, bag: multiset<nat>)
    requires Keeps(a, b, bag) && Keeps(b, c, bag)
    ensures Keeps(a, c, bag)
  {
  }

  lemma KeepsLess(a: seq<Node>, b: seq<Node>, bag: multiset<nat>, less: multiset<nat>)
    requires Keeps(a, b, bag) && less <= bag
    ensures Keeps(a, b, less)
  {
  }

  lemma KeepsPut(a: seq<Node>, i: nat, x: Node, bag: multiset<nat>)
    requires i < |a| && i !in bag
    ensures Keeps(a, a[i := x], bag)
  {
  }

  /** No vector has changed, whatever has happened to the counts. */
  ghost predicate KeepsVecs(a: seq<Shared>, b: seq<Shared>) {
    |a| <= |b| && forall w :: 0 <= w < |a| ==> b[w].vec == a[w].vec
  }

  /** The vectors in the bag have not changed. */
  ghost predicate KeepsOn(a: seq<Shared>, b: seq<Shared>, bag: multiset<int>) {
    |a| <= |b| && forall w :: w in bag && 0 <= w < |a| ==> b[w].vec == a[w].vec
  }

  /** A leaf split on a bit: two new leaves for the two halves of its pairs. */
  function SplitOf(u: Tree, bit: nat, n0: nat, n1: nat, p0: int, p1: int): Tree
    requires bit < |u.key|
  {
    Fork(u.node, u.key, bit, Leaf(n0, Sub(u.key, bit, false), p0), Leaf(n1, Sub(u.key, bit, true), p1))
  }

  lemma KeepsVecsTrans(a: seq<Shared>, b: seq<Shared>, c: seq<Shared>)
    requires KeepsVecs(a, b) && KeepsVecs(b, c)
    ensures KeepsVecs(a, c)
  {
  }

  lemma {:induction false} MatchFrame(nodes: seq<Node>, nodes': seq<Node>, t: Tree)
    requires Match(nodes, t) && Keeps(nodes, nodes', Nodes(t))
    ensures Match(nodes', t)
  {
    match t
    case Leaf(i, _, _) =>
      assert i in Nodes(t);
    case Fork(i, _, _, t0, t1) =>
      assert i in Nodes(t);
      assert forall j :: j in Nodes(t0) || j in Nodes(t1) ==> j in Nodes(t);
      MatchFrame(nodes, nodes', t0);
      MatchFrame(nodes, nodes', t1);
  }

  lemma MatchKept(nodes: seq<Node>, nodes': seq<Node>, t: Tree, bag: multiset<nat>)
    requires Match(nodes, t) && Keeps(nodes, nodes', bag) && Nodes(t) <= bag
    ensures Match(nodes', t)
  {
    MatchFrame(nodes, nodes', t);
  }

  lemma {:induction false} MatchGraft(nodes: seq<Node>, nodes': seq<Node>, t: Tree, u: Tree, s: Tree)
    requires Has(t, u) && s.node == u.node && Match(nodes, t) && Match(nodes', s)
    requires forall i :: Nodes(t)[i] <= 1
    requires Keeps(nodes, nodes', Nodes(t) - Nodes(u))
    ensures Match(nodes', Graft(t, u, s))
  {
    hide Has, Graft, Keeps;
    if t == u {
      GraftSelf(t, s);
    } else {
      GraftInto(t, u, s);
      if Has(t.t0, u) {
        HasNodes(t.t0, u);
        MatchApart(t, t.t0, t.t1, u);
        KeepsLess(nodes, nodes', Nodes(t) - Nodes(u), Nodes(t.t0) - Nodes(u));
        MatchGraft(nodes, nodes', t.t0, u, s);
        GraftNodes(t.t0, u, s);
        MatchKept(nodes, nodes', t.t1, Nodes(t) - Nodes(u));
      } else {
        HasNodes(t.t1, u);
        MatchApart(t, t.t1, t.t0, u);
        KeepsLess(nodes, nodes', Nodes(t) - Nodes(u), Nodes(t.t1) - Nodes(u));
        MatchGraft(nodes, nodes', t.t1, u, s);
        GraftNodes(t.t1, u, s);
        MatchKept(nodes, nodes', t.t0, Nodes(t) - Nodes(u));
      }
      NodeKept(nodes, nodes', t, u);
    }
  }

  lemma NodeKept(nodes: seq<Node>, nodes': seq<Node>, t: Tree, u: Tree)
    requires t.Fork? && t.node !in Nodes(u) && Keeps(nodes, nodes', Nodes(t) - Nodes(u)) && t.node < |nodes|
    ensures nodes'[t.node] == nodes[t.node]
  {
    assert t.node in Nodes(t) - Nodes(u);
  }

  /** With no node used twice, the rest of a fork lies outside the subtree u. */
  lemma MatchApart(t: Tree, a: Tree, b: Tree, u: Tree)
    requires t.Fork? && ((a == t.t0 && b == t.t1) || (a == t.t1 && b == t.t0))
    requires Nodes(u) <= Nodes(a) && forall i :: Nodes(t)[i] <= 1
    ensures t.node !in Nodes(u)
    ensures Nodes(b) <= Nodes(t) - Nodes(u) && Nodes(a) - Nodes(u) <= Nodes(t) - Nodes(u)
    ensures forall i :: Nodes(a)[i] <= 1
  {
    hide Nodes;
    ForkNodes(t, a, b);
    BagApart(t.node, Nodes(a), Nodes(b), Nodes(u), Nodes(t));
  }

  lemma ForkNodes(t: Tree, a: Tree, b: Tree)
    requires t.Fork? && ((a == t.t0 && b == t.t1) || (a == t.t1 && b == t.t0))
    ensures Nodes(t) == multiset{t.node} + Nodes(a) + Nodes(b)
  {
  }

  lemma BagApart(n: nat, a: multiset<nat>, b: multiset<nat>, u: multiset<nat>, t: multiset<nat>)
    requires t == multiset{n} + a + b && u <= a && forall i :: t[i] <= 1
    ensures n !in u
    ensures b <= t - u && a - u <= t - u
    ensures forall i :: a[i] <= 1
  {
    forall i ensures t[i] == (if i == n then 1 else 0) + a[i] + b[i] {
    }
    forall i ensures u[i] <= a[i] <= t[i] {
    }
  }

  lemma Peel<T>(n: multiset<T>, a: multiset<T>, b: multiset<T>, bag: multiset<T>)
    requires n + a + b <= bag
    ensures a <= bag && b <= bag - a && n <= bag - a - b && bag - a - b - n == bag - (n + a + b)
    ensures (forall i :: bag[i] <= 1) ==> forall i :: i in a ==> i !in b && i !in n
    ensures (forall i :: bag[i] <= 1) ==> forall i :: i in b ==> i !in n
  {
    forall i ensures n[i] + a[i] + b[i] <= bag[i] {
      assert (n + a + b)[i] == n[i] + a[i] + b[i];
    }
  }

  /** Taking a fork's sub-trees and then its node out of the bags. */
  lemma ForkPeel(t: Tree, nb: multiset<nat>, pb: multiset<int>)
    requires t.Fork? && Nodes(t) <= nb && Pools(t) <= pb && forall i :: nb[i] <= 1
    ensures Nodes(t.t0) <= nb && Nodes(t.t1) <= nb - Nodes(t.t0) && t.node in nb - Nodes(t.t0) - Nodes(t.t1)
    ensures nb - Nodes(t.t0) - Nodes(t.t1) - multiset{t.node} == nb - Nodes(t)
    ensures forall i :: i in Nodes(t.t0) ==> i !in Nodes(t.t1) && i != t.node
    ensures forall i :: i in Nodes(t.t1) ==> i != t.node
    ensures forall i :: i in Nodes(t) <==> i in Nodes(t.t0) || i in Nodes(t.t1) || i == t.node
    ensures Pools(t.t0) <= pb && Pools(t.t1) <= pb - Pools(t.t0)
    ensures pb - Pools(t.t0) - Pools(t.t1) == pb - Pools(t)
  {
    var n := multiset{t.node};
    assert Nodes(t) == n + Nodes(t.t0) + Nodes(t.t1);
    assert Pools(t) == multiset{} + Pools(t.t0) + Pools(t.t1);
    Peel(n, Nodes(t.t0), Nodes(t.t1), nb);
    Peel(multiset{}, Pools(t.t0), Pools(t.t1), pb);
  }

  /** The nodes in use outside a subtree; the nodes and the uses of vectors left once its leaves are freed. */
  ghost function Outside(nb: multiset<nat>, u: Tree): multiset<nat> {
    nb - Nodes(u)
  }

  ghost function NodesLeft(nb: multiset<nat>, u: Tree): multiset<nat>
    requires u.Fork?
  {
    nb - Nodes(u.t0) - Nodes(u.t1)
  }

  ghost function PoolsLeft(pb: multiset<int>, u: Tree): multiset<int>
    requires u.Fork?
  {
    pb - Pools(u.t0) - Pools(u.t1)
  }

  /** The bag with one more use of a vector, if there is a vector. */
  ghost function Added(pb: multiset<int>, pos: int): multiset<int> {
    if pos >= 0 then pb + multiset{pos} else pb
  }

  // ---- Two trees of the same shape ----

  ghost predicate SameShape(a: Tree, b: Tree) {
    match a
    case Leaf(_, key, pool) => b.Leaf? && b.key == key && b.pool == pool
    case Fork(_, key, bit, t0, t1) =>
      b.Fork? && b.key == key && b.bit == bit && SameShape(t0, b.t0) && SameShape(t1, b.t1)
  }

  lemma {:induction false} SameShapeSame(a: Tree, b: Tree, elts: seq<Shared>, pairs: map<nat, Key>)
    requires SameShape(a, b)
    ensures Pools(a) == Pools(b) && CostOf(a, elts) == CostOf(b, elts) && a.key == b.key
    ensures Good(a, elts, pairs) ==> Good(b, elts, pairs)
  {
    hide Holds, LeafCost, VecOf;
    match a
    case Leaf(_, _, _) =>
    case Fork(_, _, _, t0, t1) =>
      SameShapeSame(t0, b.t0, elts, pairs);
      SameShapeSame(t1, b.t1, elts, pairs);
  }

  // ---- Vectors of a split and of a join ----

  function Kept(vec: seq<nat>, keep: nat -> bool): (r: seq<nat>)
    ensures |r| <= |vec|
  {
    if |vec| == 0 then []
    else if keep(vec[|vec| - 1]) then Kept(vec[..|vec| - 1], keep) + [vec[|vec| - 1]]
    else Kept(vec[..|vec| - 1], keep)
  }

  lemma {:induction false} KeptElems(vec: seq<nat>, keep: nat -> bool)
    ensures forall o :: o in Kept(vec, keep) <==> o in vec && keep(o)
    ensures NoDup(vec) ==> NoDup(Kept(vec, keep))
  {
    if |vec| > 0 {
      var rest, last := vec[..|vec| - 1], vec[|vec| - 1];
      assert vec == rest + [last];
      KeptElems(rest, keep);
      if NoDup(vec) {
        assert NoDup(rest);
        assert last !in rest;
      }
    }
  }

  lemma KeptNone(vec: seq<nat>, keep: nat -> bool)
    requires |vec| == 0
    ensures Kept(vec, keep) == []
  {
  }

  lemma KeptStep(vec: seq<nat>, n: nat, keep: nat -> bool)
    requires n < |vec|
    ensures Kept(vec[..n + 1], keep) == Kept(vec[..n], keep) + (if keep(vec[n]) then [vec[n]] else [])
  {
    assert vec[..n + 1][..n] == vec[..n];
  }

  /** The test that `branch` makes for sub-node v. */
  ghost function GoesTo(pairs: map<nat, Key>, bit: nat, v: bool): nat -> bool {
    o => o in pairs && bit < |pairs[o]| && Goes(pairs[o], bit, v)
  }

  ghost function Masks(pairs: map<nat, Key>, bit: nat): nat -> bool {
    o => o in pairs && bit < |pairs[o]| && pairs[o][bit].mask
  }

  /** The split loop: write every offset at both cursors and advance the cursors that take it. */
  method Partition(vec: seq<nat>, pairs: map<nat, Key>, bit: nat) returns (v0: seq<nat>, v1: seq<nat>)
    requires forall o :: o in vec ==> o in pairs && bit < |pairs[o]|
    ensures v0 == Kept(vec, GoesTo(pairs, bit, false))
    ensures v1 == Kept(vec, GoesTo(pairs, bit, true))
  {
    hide Kept;
    ghost var keep0, keep1 := GoesTo(pairs, bit, false), GoesTo(pairs, bit, true);
    var l := |vec|;
    var b0, b1 := new nat[l], new nat[l];
    var i0, i1 := 0, 0;
    KeptNone(vec[..0], keep0);
    KeptNone(vec[..0], keep1);
    for n := 0 to l
      invariant i0 <= n && i1 <= n
      invariant b0[..i0] == Kept(vec[..n], keep0)
      invariant b1[..i1] == Kept(vec[..n], keep1)
    {
      var o := vec[n];
      KeptStep(vec, n, keep0);
      KeptStep(vec, n, keep1);
      b0[i0] := o;
      b1[i1] := o;
      var p := pairs[o];
      var r0, r1 := 1, 1;
      if p[bit].mask {
        r1 := if p[bit].value then 1 else 0;
        r0 := 1 - r1;
      }
      assert keep0(o) == (r0 == 1) && keep1(o) == (r1 == 1);
      i0, i1 := i0 + r0, i1 + r1;
    }
    assert vec[..l] == vec;
    v0, v1 := b0[..i0], b1[..i1];
  }

  /** The join loop: all of the first vector, then what the second one does not share with it. */
  method Merge(vec0: seq<nat>, vec1: seq<nat>, pairs: map<nat, Key>, bit: nat) returns (vec: seq<nat>)
    requires forall o :: o in vec1 ==> o in pairs && bit < |pairs[o]|
    ensures vec == vec0 + Kept(vec1, Masks(pairs, bit))
  {
    var l0, l1 := |vec0|, |vec1|;
    var b := new nat[l0 + l1];
    forall i | 0 <= i < l0 { b[i] := vec0[i]; }
    var n := l0;
    for i := 0 to l1
      invariant l0 <= n <= l0 + i
      invariant b[..n] == vec0 + Kept(vec1[..i], Masks(pairs, bit))
    {
      KeptStep(vec1, i, Masks(pairs, bit));
      if pairs[vec1[i]][bit].mask {
        b[n] := vec1[i];
        n := n + 1;
      }
    }
    assert vec1[..l1] == vec1;
    vec := b[..n];
  }

  /** The two vectors of a split hold exactly the pairs of the two sub-keys. */
  lemma SplitHolds(vec: seq<nat>, key: Key, bit: nat, v: bool, pairs: map<nat, Key>)
    requires Holds(vec, key, pairs) && bit < |key| && !key[bit].mask
    ensures Holds(Kept(vec, GoesTo(pairs, bit, v)), Sub(key, bit, v), pairs)
  {
    KeptElems(vec, GoesTo(pairs, bit, v));
    forall o: nat | o in pairs && |pairs[o]| == |key|
      ensures Compatible(pairs[o], Sub(key, bit, v)) <==> Compatible(pairs[o], key) && Goes(pairs[o], bit, v)
    {
      GoesIff(pairs[o], key, bit, v);
    }
  }

  /** The vector of a join holds exactly the pairs of the parent's key, none of them twice. */
  lemma JoinHolds(vec0: seq<nat>, vec1: seq<nat>, key: Key, bit: nat, pairs: map<nat, Key>)
    requires bit < |key| && !key[bit].mask
    requires Holds(vec0, Sub(key, bit, false), pairs) && Holds(vec1, Sub(key, bit, true), pairs)
    ensures Holds(vec0 + Kept(vec1, Masks(pairs, bit)), key, pairs)
  {
    var kept := Kept(vec1, Masks(pairs, bit));
    KeptElems(vec1, Masks(pairs, bit));
    forall o: nat | o in pairs && |pairs[o]| == |key|
      ensures Compatible(pairs[o], Sub(key, bit, false)) <==> Compatible(pairs[o], key) && Goes(pairs[o], bit, false)
      ensures Compatible(pairs[o], Sub(key, bit, true)) <==> Compatible(pairs[o], key) && Goes(pairs[o], bit, true)
    {
      GoesIff(pairs[o], key, bit, false);
      GoesIff(pairs[o], key, bit, true);
    }
    forall o ensures !(o in vec0 && o in kept) {
    }
    JoinElems(vec0, kept);
  }

  /** A join takes back what a split gave, offset by offset, whatever the vector. */
  lemma {:induction false} JoinAfterSplit(vec: seq<nat>, pairs: map<nat, Key>, bit: nat)
    requires forall o :: o in vec ==> o in pairs && bit < |pairs[o]|
    ensures multiset(Kept(vec, GoesTo(pairs, bit, false))
                     + Kept(Kept(vec, GoesTo(pairs, bit, true)), Masks(pairs, bit))) == multiset(vec)
  {
    var go0, go1, masks := GoesTo(pairs, bit, false), GoesTo(pairs, bit, true), Masks(pairs, bit);
    if |vec| > 0 {
      var rest, o := vec[..|vec| - 1], vec[|vec| - 1];
      assert vec == rest + [o];
      assert o in vec;
      JoinAfterSplit(rest, pairs, bit);
      assert go0(o) <==> !(go1(o) && masks(o));
      KeptLast(rest, o, go0);
      KeptLast(rest, o, go1);
      KeptLast(Kept(rest, go1), o, masks);
    }
  }

  lemma KeptLast(rest: seq<nat>, o: nat, keep: nat -> bool)
    ensures Kept(rest + [o], keep) == Kept(rest, keep) + (if keep(o) then [o] else [])
  {
    assert (rest + [o])[..|rest|] == rest;
  }

  lemma JoinElems(a: seq<nat>, b: seq<nat>)
    requires NoDup(a) && NoDup(b) && forall o :: !(o in a && o in b)
    ensures NoDup(a + b)
  {
    forall i, j | 0 <= i < j < |a + b| ensures (a + b)[i] != (a + b)[j] {
      if i < |a| <= j {
        assert (a + b)[i] in a && (a + b)[j] in b;
      }
    }
  }
}

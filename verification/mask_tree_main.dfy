/** `Main` of `goes/elib/mctree/mctree.go`: a lowest-cost tree, a clone of it under trial, and the pools that
  * both live in. Random choices, and acceptance by floating-point cost, are arbitrary.
  */
module MaskTreeMains {
  import opened MaskTrees
  import opened MaskTreePools

  /** One of the two trees: its root and the occupancy counts kept with it. */
  datatype Info = Info(root: nat, cost: Cost)

  ghost predicate TreeOk(t: Tree, x: Info, n: nat, nodes: seq<Node>, elts: seq<Shared>, pairs: map<nat, Key>) {
    && Match(nodes, t) && t.node == x.root
    && |t.key| == n && (forall b :: 0 <= b < n ==> t.key[b] == Bit(false, false))
    && Good(t, elts, pairs)
    && (forall v :: Pools(t)[v] <= 1)
    && x.cost == CostOf(t, elts)
  }

  /** A tree whose nodes and vectors nobody touches stays good. */
  lemma TreeFrame(t: Tree, x: Info, n: nat, nodes: seq<Node>, nodes': seq<Node>, elts: seq<Shared>,
                  elts': seq<Shared>, pairs: map<nat, Key>)
    requires TreeOk(t, x, n, nodes, elts, pairs)
    requires Keeps(nodes, nodes', Nodes(t))
    requires SameVecs(t, elts, elts') && forall v :: v in Pools(t) ==> 0 <= v < |elts|
    ensures TreeOk(t, x, n, nodes', elts', pairs)
  {
    hide Match, Good, Nodes, Pools, CostOf, SameVecs;
    MatchFrame(nodes, nodes', t);
    GoodFrame(t, elts, elts', pairs);
  }

  class Pool {
    var nodes: seq<Node>
    var nodeFree: set<nat>
    var elts: seq<Shared>
    var eltFree: set<nat>
    const nBits: nat

    ghost predicate Uses(nb: multiset<nat>, pb: multiset<int>)
      reads this
    {
      NodesOk(|nodes|, nodeFree, nb) && RefsOk(elts, eltFree, pb)
    }

    constructor (nBits: nat)
      ensures this.nBits == nBits && Uses(multiset{}, multiset{}) && nodes == [] && elts == []
    {
      nodes, nodeFree, elts, eltFree := [], {}, [], {};
      this.nBits := nBits;
    }

    predicate IsSplit(i: nat)
      requires i < |nodes|
      reads this
    {
      nodes[i].sub0 >= 0 && nodes[i].sub1 >= 0
    }

    /** `new_node`: its key is left as the last user left it. */
    method NewNode(ghost nb: multiset<nat>) returns (ni: nat)
      requires NodesOk(|nodes|, nodeFree, nb)
      modifies this`nodes, this`nodeFree
      ensures NodesOk(|nodes|, nodeFree, nb + multiset{ni}) && ni !in nb
      ensures ni < |nodes| && Keeps(old(nodes), nodes, nb)
      ensures nodes[ni].sub0 == nodes[ni].sub1 == -1 && nodes[ni].pool == -1
      ensures |old(nodes)| == 0 ==> nodes[ni].key == seq(nBits, _ => Bit(false, false))
    {
      if nodeFree != {} {
        ni :| ni in nodeFree;
        nodeFree := nodeFree - {ni};
      } else {
        ni := |nodes|;
        nodes := nodes + [Node(seq(nBits, _ => Bit(false, false)), 0, -1, -1, -1)];
      }
      nodes := nodes[ni := nodes[ni].(sub0 := -1, sub1 := -1, pool := -1)];
    }

    /** `pair_offsets.get`: a vector of its own, or none for length zero. */
    method GetVec(l: nat, ghost pb: multiset<int>) returns (v: int)
      requires RefsOk(elts, eltFree, pb)
      modifies this`elts, this`eltFree
      ensures if l == 0 then v == -1 && elts == old(elts) && eltFree == old(eltFree)
              else RefsOk(elts, eltFree, pb + multiset{v}) && 0 <= v < |elts| && v !in pb
      ensures KeepsVecs(old(elts), elts)
    {
      v := -1;
      if l > 0 {
        if eltFree != {} {
          v :| v in eltFree;
          eltFree := eltFree - {v};
        } else {
          v := |elts|;
          elts := elts + [Shared([], 0)];
        }
        elts := elts[v := Shared(elts[v].vec, 1)];
      }
    }

    /** `put_pair_offsets`: the vector is free once its count reaches zero. */
    method PutVec(v: nat, ghost pb: multiset<int>) returns (freed: bool)
      requires RefsOk(elts, eltFree, pb) && v in pb
      modifies this`elts, this`eltFree
      ensures RefsOk(elts, eltFree, pb - multiset{v}) && |elts| == |old(elts)| && KeepsVecs(old(elts), elts)
      ensures freed <==> v !in pb - multiset{v}
    {
      elts := elts[v := elts[v].(refs := elts[v].refs - 1)];
      freed := elts[v].refs == 0;
      if freed {
        eltFree := eltFree + {v};
      }
    }

    /** `add_reference`. */
    method AddReference(v: int, ghost pb: multiset<int>)
      requires RefsOk(elts, eltFree, pb) && (v >= 0 ==> v in pb)
      modifies this`elts
      ensures RefsOk(elts, eltFree, if v >= 0 then pb + multiset{v} else pb)
      ensures |elts| == |old(elts)| && KeepsVecs(old(elts), elts)
    {
      if v >= 0 {
        elts := elts[v := elts[v].(refs := elts[v].refs + 1)];
      }
    }

    /** `free_node`. */
    method FreeNode(i: nat, ghost nb: multiset<nat>, ghost pb: multiset<int>)
      requires Uses(nb, pb) && i in nb && (nodes[i].pool >= 0 ==> nodes[i].pool in pb)
      modifies this
      ensures Uses(nb - multiset{i}, if old(nodes[i].pool) >= 0 then pb - multiset{old(nodes[i].pool)} else pb)
      ensures |nodes| == |old(nodes)| && |elts| == |old(elts)|
      ensures KeepsVecs(old(elts), elts) && Keeps(old(nodes), nodes, nb - multiset{i})
    {
      hide RefsOk;
      if nodes[i].pool >= 0 {
        var freed := PutVec(nodes[i].pool, pb);
      }
      nodeFree := nodeFree + {i};
      nodes := nodes[i := nodes[i].(sub0 := -1, sub1 := -1, pool := -1)];
    }

    /** `free_tree_node`. */
    method FreeTree(i: nat, ghost t: Tree, ghost nb: multiset<nat>, ghost pb: multiset<int>)
      requires Uses(nb, pb) && Match(nodes, t) && t.node == i && Nodes(t) <= nb && Pools(t) <= pb
      modifies this
      ensures Uses(nb - Nodes(t), pb - Pools(t))
      ensures |nodes| == |old(nodes)| && |elts| == |old(elts)|
      ensures KeepsVecs(old(elts), elts) && Keeps(old(nodes), nodes, nb - Nodes(t))
      decreases t
    {
      hide Nodes, Pools, RefsOk, NodesOk, Keeps, KeepsVecs;
      if nodes[i].sub0 >= 0 && nodes[i].sub1 >= 0 {
        UsedOnce(|nodes|, nodeFree, nb);
        ForkPeel(t, nb, pb);
        FreeBags(t, nb);
        ghost var a0, e0 := nodes, elts;
        ghost var nb1, nb2, pb1 := nb - Nodes(t.t0), nb - Nodes(t.t0) - Nodes(t.t1), pb - Pools(t.t0);
        FreeTree(nodes[i].sub0, t.t0, nb, pb);
        ghost var a1, e1 := nodes, elts;
        MatchKept(a0, a1, t.t1, nb1);
        KeepsOne(a0, a1, nb1, i);
        FreeTree(nodes[i].sub1, t.t1, nb1, pb1);
        ghost var a2, e2 := nodes, elts;
        KeepsOne(a1, a2, nb2, i);
        FreeNode(i, nb2, pb1 - Pools(t.t1));
        KeepsLess(a0, a1, nb1, nb - Nodes(t));
        KeepsLess(a1, a2, nb2, nb - Nodes(t));
        KeepsTrans(a0, a1, a2, nb - Nodes(t));
        KeepsTrans(a0, a2, nodes, nb - Nodes(t));
        KeepsVecsTrans(e0, e1, e2);
        KeepsVecsTrans(e0, e2, elts);
      } else {
        FreeLeaf(i, t, nb, pb);
      }
    }

    /** `clone_tree_node`: copy the tree at si onto the node di and new nodes, sharing every vector. */
    method CloneNode(di: nat, si: nat, ghost t: Tree, ghost nb: multiset<nat>, ghost pb: multiset<int>)
      returns (ghost d: Tree)
      requires Uses(nb, pb) && Match(nodes, t) && t.node == si && Nodes(t) <= nb && Pools(t) <= pb
      requires di in nb && di !in Nodes(t)
      modifies this
      ensures Match(nodes, d) && d.node == di && SameShape(t, d)
      ensures Uses(nb - multiset{di} + Nodes(d), pb + Pools(t))
      ensures |elts| == |old(elts)| && KeepsVecs(old(elts), elts) && Keeps(old(nodes), nodes, nb - multiset{di})
      decreases t, 1
    {
      if nodes[si].sub0 >= 0 && nodes[si].sub1 >= 0 {
        d := CloneFork(di, si, t, nb, pb);
      } else {
        d := CloneLeaf(di, si, t, nb, pb);
      }
    }

    method CloneLeaf(di: nat, si: nat, ghost t: Tree, ghost nb: multiset<nat>, ghost pb: multiset<int>)
      returns (ghost d: Tree)
      requires Uses(nb, pb) && Match(nodes, t) && t.node == si && t.Leaf? && Nodes(t) <= nb && Pools(t) <= pb
      requires di in nb && di != si
      modifies this
      ensures Match(nodes, d) && d.node == di && SameShape(t, d)
      ensures Uses(nb - multiset{di} + Nodes(d), pb + Pools(t))
      ensures |elts| == |old(elts)| && KeepsVecs(old(elts), elts) && Keeps(old(nodes), nodes, nb - multiset{di})
    {
      hide RefsOk, NodesOk, Nodes, Pools, Keeps;
      LeafBags(t);
      assert pb + multiset{} == pb;
      OnceOut(|nodes|, nodeFree, nb, di);
      KeepsPut(nodes, di, nodes[si], nb - multiset{di});
      AddReference(nodes[si].pool, pb);
      nodes := nodes[di := nodes[si]];
      d := Leaf(di, t.key, t.pool);
      LeafBags(d);
      assert nb - multiset{di} + multiset{di} == nb;
    }

    method CloneFork(di: nat, si: nat, ghost t: Tree, ghost nb: multiset<nat>, ghost pb: multiset<int>)
      returns (ghost d: Tree)
      requires Uses(nb, pb) && Match(nodes, t) && t.node == si && t.Fork? && Nodes(t) <= nb && Pools(t) <= pb
      requires di in nb && di !in Nodes(t)
      modifies this
      ensures Match(nodes, d) && d.node == di && SameShape(t, d)
      ensures Uses(nb - multiset{di} + Nodes(d), pb + Pools(t))
      ensures |elts| == |old(elts)| && KeepsVecs(old(elts), elts) && Keeps(old(nodes), nodes, nb - multiset{di})
      decreases t, 0
    {
      hide Nodes, Pools, RefsOk, NodesOk, Keeps, KeepsVecs;
      ghost var rest := nb - multiset{di};
      ghost var a0, e0 := nodes, elts;
      CloneBags(t, |nodes|, nodeFree, nb, pb, di);
      var n0, d0 := CloneSub(nodes[si].sub0, t.t0, nb, pb);
      ghost var a1, e1 := nodes, elts;
      InUse(|nodes|, nodeFree, nb + Nodes(d0), di);
      nodes := nodes[di := nodes[di].(sub0 := n0)];
      ghost var a2 := nodes;
      KeepsPut(a1, di, a2[di], rest);
      KeepsPut(a1, di, a2[di], Nodes(d0));
      KeepsLess(a0, a1, nb, rest);
      KeepsTrans(a0, a1, a2, rest);
      MatchKept(a0, a2, t.t1, rest);
      MatchFrame(a1, a2, d0);
      var n1, d1 := CloneSub(nodes[si].sub1, t.t1, nb + Nodes(d0), pb + Pools(t.t0));
      d := CloneEnd(di, si, n1, t, nb, pb, d0, d1, a2);
      KeepsTrans(a0, a2, nodes, rest);
      KeepsVecsTrans(e0, e1, elts);
    }

    /** The fields of a cloned fork that are copied once its sub-nodes are there. */
    method CloneEnd(di: nat, si: nat, n1: nat, ghost t: Tree, ghost nb: multiset<nat>, ghost pb: multiset<int>,
                    ghost d0: Tree, ghost d1: Tree, ghost was: seq<Node>)
      returns (ghost d: Tree)
      requires t.Fork? && t.node == si && si in nb - multiset{di} && di in nb && di !in nb - multiset{di}
      requires Uses(nb + Nodes(d0) + Nodes(d1), pb + Pools(t.t0) + Pools(t.t1))
      requires SameShape(t.t0, d0) && SameShape(t.t1, d1) && Match(was, d0) && Match(nodes, d1)
      requires Keeps(was, nodes, nb + Nodes(d0)) && di !in Nodes(d0) && di !in Nodes(d1)
      requires si < |was| && was[si] == Node(t.key, t.bit, t.t0.node, t.t1.node, -1)
      requires di < |was| && was[di].sub0 == d0.node && d1.node == n1
      modifies this`nodes
      ensures Match(nodes, d) && d.node == di && SameShape(t, d)
      ensures Uses(nb - multiset{di} + Nodes(d), pb + Pools(t))
      ensures Keeps(was, nodes, nb - multiset{di})
    {
      hide Nodes, Pools, RefsOk, NodesOk, KeepsVecs;
      ghost var rest := nb - multiset{di};
      nodes := nodes[di := Node(nodes[si].key, nodes[si].splitBit, nodes[di].sub0, n1, nodes[si].pool)];
      d := Fork(di, t.key, t.bit, d0, d1);
      MatchFrame(was, nodes, d0);
      MatchFrame(old(nodes), nodes, d1);
      ForkBag(nb, pb, di, t, d);
    }

    /** One sub-node of a clone: a new node, and the sub-tree cloned onto it. */
    method CloneSub(si: nat, ghost t: Tree, ghost nb: multiset<nat>, ghost pb: multiset<int>)
      returns (ni: nat, ghost d: Tree)
      requires Uses(nb, pb) && Match(nodes, t) && t.node == si && Nodes(t) <= nb && Pools(t) <= pb
      modifies this
      ensures Match(nodes, d) && d.node == ni && SameShape(t, d)
      ensures Uses(nb + Nodes(d), pb + Pools(t)) && forall j :: j in nb ==> j !in Nodes(d)
      ensures |elts| == |old(elts)| && KeepsVecs(old(elts), elts) && Keeps(old(nodes), nodes, nb)
      decreases t, 2
    {
      hide Nodes, Pools, RefsOk;
      ghost var was := nodes;
      ni := NewNode(nb);
      MatchFrame(was, nodes, t);
      d := CloneNode(ni, si, t, nb + multiset{ni}, pb);
      assert nb + multiset{ni} - multiset{ni} == nb;
      Apart(|nodes|, nodeFree, nb, Nodes(d));
    }

    /** The two vectors of a split, in vectors of their own. */
    method GetSplit(vec: seq<nat>, pairs: map<nat, Key>, bit: nat, ghost pb: multiset<int>)
      returns (p0: int, p1: int, i0: nat, i1: nat)
      requires RefsOk(elts, eltFree, pb) && |vec| > 0
      requires forall o :: o in vec ==> o in pairs && bit < |pairs[o]|
      modifies this`elts, this`eltFree
      ensures RefsOk(elts, eltFree, pb + multiset{p0} + multiset{p1}) && KeepsOn(old(elts), elts, pb)
      ensures p0 !in pb && p1 !in pb && p0 != p1 && 0 <= p0 < |elts| && 0 <= p1 < |elts|
      ensures elts[p0].vec == Kept(vec, GoesTo(pairs, bit, false)) && i0 == |elts[p0].vec|
      ensures elts[p1].vec == Kept(vec, GoesTo(pairs, bit, true)) && i1 == |elts[p1].vec|
    {
      p0 := GetVec(|vec|, pb);
      p1 := GetVec(|vec|, pb + multiset{p0});
      var v0, v1 := Partition(vec, pairs, bit);
      elts := elts[p0 := elts[p0].(vec := v0)][p1 := elts[p1].(vec := v1)];
      i0, i1 := |v0|, |v1|;
    }

    /** `alloc_subs`: two new nodes under node i, with its key and the split bit masked. */
    method AllocSubs(i: nat, bit: nat, ghost nb: multiset<nat>) returns (n0: nat, n1: nat)
      requires NodesOk(|nodes|, nodeFree, nb) && i in nb && i < |nodes|
      requires bit < |nodes[i].key|
      modifies this`nodes, this`nodeFree
      ensures NodesOk(|nodes|, nodeFree, nb + multiset{n0} + multiset{n1})
      ensures n0 !in nb && n1 !in nb && n0 != n1 && i < |nodes| && n0 < |nodes| && n1 < |nodes|
      ensures Keeps(old(nodes), nodes, nb - multiset{i})
      ensures nodes[i] == old(nodes)[i].(sub0 := n0, sub1 := n1, splitBit := bit)
      ensures nodes[n0].key == Sub(nodes[i].key, bit, nodes[i].key[bit].value)
      ensures nodes[n1].key == Sub(nodes[i].key, bit, true)
      ensures nodes[n0].sub0 == nodes[n0].sub1 == nodes[n0].pool == -1
      ensures nodes[n1].sub0 == nodes[n1].sub1 == nodes[n1].pool == -1
    {
      n0 := NewNode(nb);
      n1 := NewNode(nb + multiset{n0});
      nodes := nodes[i := nodes[i].(sub0 := n0, sub1 := n1, splitBit := bit)];
      var k := nodes[i].key;
      nodes := nodes[n0 := nodes[n0].(key := k[bit := Bit(true, k[bit].value)])];
      nodes := nodes[n1 := nodes[n1].(key := k[bit := Bit(true, true)])];
    }

    /** The rest of a split: `alloc_subs`, the new leaves' vectors, and the old leaf's vector given back. */
    method MakeFork(i: nat, bit: nat, p0: int, p1: int, ghost u: Tree, ghost nb: multiset<nat>, ghost pb: multiset<int>)
      returns (n0: nat, n1: nat)
      requires Uses(nb, pb) && u.Leaf? && u.node == i && i in nb && Match(nodes, u)
      requires bit < |u.key| && !u.key[bit].value && u.pool in pb && u.pool >= 0
      modifies this
      ensures Match(nodes, SplitOf(u, bit, n0, n1, p0, p1))
      ensures Uses(nb + multiset{n0} + multiset{n1}, pb - multiset{u.pool})
      ensures n0 !in nb && n1 !in nb && n0 != n1
      ensures Keeps(old(nodes), nodes, nb - multiset{i}) && KeepsVecs(old(elts), elts)
    {
      hide RefsOk, NodesOk, KeepsVecs;
      OnceOut(|nodes|, nodeFree, nb, i);
      n0, n1 := AllocSubs(i, bit, nb);
      nodes := nodes[n0 := nodes[n0].(pool := p0)][n1 := nodes[n1].(pool := p1)];
      var freed := PutVec(nodes[i].pool, pb);
      nodes := nodes[i := nodes[i].(pool := -1)];
    }

    /** The vector of a join, in a vector of its own. */
    method GetJoin(vec0: seq<nat>, vec1: seq<nat>, pairs: map<nat, Key>, bit: nat, ghost pb: multiset<int>)
      returns (pos: int, l: nat)
      requires RefsOk(elts, eltFree, pb)
      requires forall o :: o in vec1 ==> o in pairs && bit < |pairs[o]|
      modifies this`elts, this`eltFree
      ensures RefsOk(elts, eltFree, Added(pb, pos)) && KeepsOn(old(elts), elts, pb)
      ensures -1 <= pos < |elts| && pos !in pb && (pos >= 0 <==> |vec0| + |vec1| > 0)
      ensures VecOf(elts, pos) == vec0 + Kept(vec1, Masks(pairs, bit)) && l == |VecOf(elts, pos)|
    {
      pos := GetVec(|vec0| + |vec1|, pb);
      var vec := Merge(vec0, vec1, pairs, bit);
      if pos >= 0 {
        elts := elts[pos := elts[pos].(vec := vec)];
      }
      l := |vec|;
    }

    /** A joined node: it takes the merged vector, and its two leaves are freed. */
    method MakeLeaf(i: nat, pos: int, ghost u: Tree, ghost nb: multiset<nat>, ghost pb: multiset<int>)
      requires Uses(nb, pb) && u.Fork? && u.t0.Leaf? && u.t1.Leaf? && u.node == i && Match(nodes, u)
      requires Nodes(u) <= nb && Pools(u) <= pb
      modifies this
      ensures Match(nodes, Leaf(i, u.key, pos))
      ensures Uses(NodesLeft(nb, u), PoolsLeft(pb, u))
      ensures Keeps(old(nodes), nodes, Outside(nb, u)) && KeepsVecs(old(elts), elts)
    {
      hide RefsOk, NodesOk, Keeps, KeepsVecs, Nodes, Pools;
      ghost var a0, e0 := nodes, elts;
      UsedOnce(|nodes|, nodeFree, nb);
      ForkPeel(u, nb, pb);
      JoinBags(u, |nodes|, nodeFree, nb);
      var n0, n1 := nodes[i].sub0, nodes[i].sub1;
      nodes := nodes[i := nodes[i].(pool := pos, splitBit := 0, sub0 := -1, sub1 := -1)];
      ghost var a1 := nodes;
      KeepsPut(a0, i, a1[i], nb - Nodes(u));
      FreeLeaf(n0, u.t0, nb, pb);
      ghost var a2, e2 := nodes, elts;
      KeepsOne(a1, a2, nb - Nodes(u.t0), n1);
      KeepsOne(a1, a2, nb - Nodes(u.t0), i);
      FreeLeaf(n1, u.t1, nb - Nodes(u.t0), pb - Pools(u.t0));
      KeepsOne(a2, nodes, nb - Nodes(u.t0) - Nodes(u.t1), i);
      KeepsLess(a1, a2, nb - Nodes(u.t0), nb - Nodes(u));
      KeepsLess(a2, nodes, nb - Nodes(u.t0) - Nodes(u.t1), nb - Nodes(u));
      KeepsTrans(a0, a1, a2, nb - Nodes(u));
      KeepsTrans(a0, a2, nodes, nb - Nodes(u));
      KeepsVecsTrans(e0, e2, elts);
    }

    method FreeLeaf(i: nat, ghost t: Tree, ghost nb: multiset<nat>, ghost pb: multiset<int>)
      requires Uses(nb, pb) && t.Leaf? && t.node == i && Match(nodes, t) && Nodes(t) <= nb && Pools(t) <= pb
      modifies this
      ensures Uses(nb - Nodes(t), pb - Pools(t)) && |nodes| == |old(nodes)| && |elts| == |old(elts)|
      ensures Keeps(old(nodes), nodes, nb - Nodes(t)) && KeepsVecs(old(elts), elts)
    {
      hide RefsOk, NodesOk, Keeps, KeepsVecs, Nodes, Pools;
      LeafBags(t);
      assert pb - multiset{} == pb;
      FreeNode(i, nb, pb);
    }
  }

  lemma KeepsOne(a: seq<Node>, b: seq<Node>, bag: multiset<nat>, i: nat)
    requires Keeps(a, b, bag) && i in bag && i < |a|
    ensures i < |b| && b[i] == a[i]
  {
  }

  lemma FreeBags(t: Tree, nb: multiset<nat>)
    requires t.Fork? && Nodes(t) <= nb && forall i :: nb[i] <= 1
    ensures nb - Nodes(t) <= nb - Nodes(t.t0) - Nodes(t.t1) <= nb - Nodes(t.t0)
    ensures Nodes(t.t1) <= nb - Nodes(t.t0) && t.node in nb - Nodes(t.t0)
    ensures t.node in nb - Nodes(t.t0) - Nodes(t.t1)
    ensures nb - Nodes(t.t0) - Nodes(t.t1) - multiset{t.node} == nb - Nodes(t)
  {
    ForkPeel(t, nb, Pools(t));
    hide Nodes, Pools;
    forall i ensures (nb - Nodes(t))[i] <= (nb - Nodes(t.t0) - Nodes(t.t1))[i] {
      assert nb - Nodes(t.t0) - Nodes(t.t1) - multiset{t.node} == nb - Nodes(t);
    }
  }

  lemma JoinBags(u: Tree, n: nat, free: set<nat>, nb: multiset<nat>)
    requires u.Fork? && u.t0.Leaf? && u.t1.Leaf? && NodesOk(n, free, nb) && Nodes(u) <= nb
    ensures u.node < n && u.t0.node < n && u.t1.node < n
    ensures u.node != u.t0.node && u.node != u.t1.node && u.t0.node != u.t1.node
    ensures u.node in nb - Nodes(u.t0) - Nodes(u.t1) && u.t1.node in nb - Nodes(u.t0) && u.node in nb - Nodes(u.t0)
    ensures u.node !in nb - Nodes(u)
    ensures nb - Nodes(u) <= nb - Nodes(u.t0) - Nodes(u.t1) && nb - Nodes(u) <= nb - Nodes(u.t0)
  {
    UsedOnce(n, free, nb);
    LeafBags(u.t0);
    LeafBags(u.t1);
    var a, b, i := u.t0.node, u.t1.node, u.node;
    assert Nodes(u) == multiset{i} + multiset{a} + multiset{b};
    hide Nodes, NodesOk;
    InBag3(nb, i, a, b);
    InUse(n, free, nb, i);
    InUse(n, free, nb, a);
    InUse(n, free, nb, b);
  }

  lemma InBag3(nb: multiset<nat>, i: nat, a: nat, b: nat)
    requires multiset{i} + multiset{a} + multiset{b} <= nb && forall x :: nb[x] <= 1
    ensures i != a && i != b && a != b && i in nb && a in nb && b in nb
    ensures i in nb - multiset{a} - multiset{b} && b in nb - multiset{a} && i in nb - multiset{a}
    ensures var u := multiset{i} + multiset{a} + multiset{b};
      i !in nb - u && nb - u <= nb - multiset{a} - multiset{b} && nb - u <= nb - multiset{a}
  {
    var u := multiset{i} + multiset{a} + multiset{b};
    forall x
      ensures u[x] == (if x == i then 1 else 0) + (if x == a then 1 else 0) + (if x == b then 1 else 0) <= nb[x]
    {
    }
    assert u[i] <= 1 && u[a] <= 1;
  }

  lemma CloneBags(t: Tree, n: nat, free: set<nat>, nb: multiset<nat>, pb: multiset<int>, di: nat)
    requires t.Fork? && NodesOk(n, free, nb) && Nodes(t) <= nb && Pools(t) <= pb && di in nb && di !in Nodes(t)
    ensures Nodes(t.t0) <= nb && Pools(t.t0) <= pb
    ensures Nodes(t.t1) <= nb - multiset{di} && Pools(t.t1) <= pb
    ensures t.node in nb - multiset{di} && di !in nb - multiset{di}
    ensures di < n && multiset{di} <= nb && nb - multiset{di} <= nb
  {
    hide Nodes, Pools;
    UsedOnce(n, free, nb);
    ForkPeel(t, nb, pb);
    assert (nb - multiset{di})[di] == nb[di] - 1;
    forall i ensures Nodes(t.t1)[i] <= (nb - multiset{di})[i] {
      if i == di { assert di !in Nodes(t.t1); }
    }
  }

  lemma OnceOut(n: nat, free: set<nat>, nb: multiset<nat>, di: nat)
    requires NodesOk(n, free, nb) && di in nb
    ensures di < n && di !in nb - multiset{di} && nb - multiset{di} + multiset{di} == nb
  {
    UsedOnce(n, free, nb);
    assert (nb - multiset{di})[di] == nb[di] - 1;
  }

  lemma ForkBag(nb: multiset<nat>, pb: multiset<int>, di: nat, t: Tree, d: Tree)
    requires t.Fork? && d.Fork? && d.node == di && di in nb
    ensures nb - multiset{di} + Nodes(d) == nb + Nodes(d.t0) + Nodes(d.t1)
    ensures pb + Pools(t) == pb + Pools(t.t0) + Pools(t.t1)
  {
  }

  lemma LeafBags(t: Tree)
    requires t.Leaf?
    ensures Nodes(t) == multiset{t.node} && Pools(t) == if t.pool >= 0 then multiset{t.pool} else multiset{}
  {
  }
}

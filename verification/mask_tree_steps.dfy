/** What a split, a join and a key change do to a tree and its costs, on values. */
module MaskTreeSteps {
  import opened MaskTrees
  import opened MaskTreePools
  import opened MaskTreeMains

  lemma {:induction false} HasKey(t: Tree, u: Tree, elts: seq<Shared>, pairs: map<nat, Key>)
    requires Has(t, u) && Good(t, elts, pairs)
    ensures |u.key| == |t.key|
  {
    if t != u {
      if Has(t.t0, u) { HasKey(t.t0, u, elts, pairs); } else { HasKey(t.t1, u, elts, pairs); }
    }
  }

  lemma {:induction false} HasMatch(t: Tree, u: Tree, nodes: seq<Node>)
    requires Has(t, u) && Match(nodes, t)
    ensures Match(nodes, u)
  {
    if t != u {
      if Has(t.t0, u) { HasMatch(t.t0, u, nodes); } else { HasMatch(t.t1, u, nodes); }
    }
  }

  /** A tree whose subtree u has been rebuilt as s, in pools that keep everything else. */
  lemma GraftOk(t: Tree, x: Info, n: nat, nodes: seq<Node>, nodes': seq<Node>, elts: seq<Shared>, elts': seq<Shared>,
                pairs: map<nat, Key>, u: Tree, s: Tree, pb: multiset<int>)
    requires TreeOk(t, x, n, nodes, elts, pairs) && Has(t, u) && s.node == u.node && s.key == u.key
    requires forall i :: Nodes(t)[i] <= 1
    requires Keeps(nodes, nodes', Nodes(t) - Nodes(u)) && Match(nodes', s)
    requires KeepsOn(elts, elts', pb) && Pools(t) <= pb && forall v :: v in pb ==> 0 <= v < |elts|
    requires Good(s, elts', pairs) && forall v :: Pools(s)[v] <= 1 && (v in Pools(s) ==> v !in pb - Pools(u))
    ensures Nodes(Graft(t, u, s)) == Nodes(t) - Nodes(u) + Nodes(s) && Nodes(u) <= Nodes(t)
    ensures Pools(Graft(t, u, s)) == Pools(t) - Pools(u) + Pools(s) && Pools(u) <= Pools(t)
    ensures TreeOk(Graft(t, u, s), Info(x.root, Plus(Minus(x.cost, CostOf(u, elts)), CostOf(s, elts'))), n,
                   nodes', elts', pairs)
  {
    hide Match, Good, Nodes, Pools, CostOf, Has, Graft, Keeps;
    GraftNodes(t, u, s);
    GraftPools(t, u, s);
    MatchGraft(nodes, nodes', t, u, s);
    GoodFrame(t, elts, elts', pairs);
    HasSame(t, u, elts, elts', pb);
    GraftGood(t, u, s, elts', pairs);
    GraftCost(t, u, s, elts');
    forall v ensures (Pools(t) - Pools(u) + Pools(s))[v] <= 1 {
      assert (Pools(t) - Pools(u))[v] <= (pb - Pools(u))[v];
    }
  }

  lemma HasSame(t: Tree, u: Tree, elts: seq<Shared>, elts': seq<Shared>, pb: multiset<int>)
    requires Has(t, u) && KeepsOn(elts, elts', pb) && Pools(t) <= pb && forall v :: v in pb ==> 0 <= v < |elts|
    ensures CostOf(u, elts) == CostOf(u, elts') && Nodes(u) <= Nodes(t) && Pools(u) <= Pools(t)
  {
    HasNodes(t, u);
    hide Has, CostOf, Pools, Nodes;
    assert forall v :: v in Pools(u) ==> v in pb;
    GoodFrame(u, elts, elts', map[]);
  }

  /** Change of cost when a leaf of l pairs gives way to two leaves of i0 and i1 pairs. */
  /** What `compute_cost` makes of the sums, up to the number of pairs, which no step changes. */
  function Weight(c: Cost): int { c.occupancy * c.occupancy2 }

  /** The sums once a leaf is split on a bit, and once two leaves are joined. */
  ghost function SplitCostAt(c: Cost, vec: seq<nat>, pairs: map<nat, Key>, bit: nat): Cost {
    SplitCost(c, |vec|, |Kept(vec, GoesTo(pairs, bit, false))|, |Kept(vec, GoesTo(pairs, bit, true))|)
  }

  /** The split leaves pairs on both sides. */
  ghost predicate BothHalves(vec: seq<nat>, pairs: map<nat, Key>, bit: nat) {
    |Kept(vec, GoesTo(pairs, bit, false))| > 0 && |Kept(vec, GoesTo(pairs, bit, true))| > 0
  }

  ghost function JoinCostAt(c: Cost, vec0: seq<nat>, vec1: seq<nat>, pairs: map<nat, Key>, bit: nat): Cost {
    JoinCost(c, |vec0| + |Kept(vec1, Masks(pairs, bit))|, |vec0|, |vec1|)
  }

  function SplitCost(c: Cost, l: int, i0: int, i1: int): Cost {
    Cost(c.occupancy + i0 + i1 - l, c.occupancy2 + i0 * i0 + i1 * i1 - l * l,
         c.leafs - 1 + (if i0 > 0 then 1 else 0) + (if i1 > 0 then 1 else 0))
  }

  lemma SplitGood(u: Tree, s: Tree, bit: nat, n0: nat, n1: nat, p0: int, p1: int, elts0: seq<Shared>,
                  elts: seq<Shared>, pairs: map<nat, Key>)
    requires u.Leaf? && Good(u, elts0, pairs) && bit < |u.key| && !u.key[bit].mask
    requires s == SplitOf(u, bit, n0, n1, p0, p1) && 0 <= p0 < |elts| && 0 <= p1 < |elts|
    requires elts[p0].vec == Kept(VecOf(elts0, u.pool), GoesTo(pairs, bit, false))
    requires elts[p1].vec == Kept(VecOf(elts0, u.pool), GoesTo(pairs, bit, true))
    ensures Good(s, elts, pairs)
  {
    SplitHolds(VecOf(elts0, u.pool), u.key, bit, false, pairs);
    SplitHolds(VecOf(elts0, u.pool), u.key, bit, true, pairs);
    hide Holds;
  }

  lemma SplitBags(u: Tree, bit: nat, n0: nat, n1: nat, p0: nat, p1: nat)
    requires u.Leaf? && bit < |u.key|
    ensures Nodes(SplitOf(u, bit, n0, n1, p0, p1)) == multiset{u.node} + multiset{n0} + multiset{n1}
    ensures Pools(SplitOf(u, bit, n0, n1, p0, p1)) == multiset{p0} + multiset{p1}
  {
  }

  /** A leaf of the tree split in two: the tree stays good, and its cost moves by SplitCost. */
  lemma SplitTree(t: Tree, x: Info, n: nat, nodes: seq<Node>, nodes': seq<Node>, elts: seq<Shared>, elts': seq<Shared>,
                  pairs: map<nat, Key>, u: Tree, bit: nat, n0: nat, n1: nat, p0: nat, p1: nat,
                  nb: multiset<nat>, pb: multiset<int>)
    requires TreeOk(t, x, n, nodes, elts, pairs) && Has(t, u) && u.Leaf? && Good(u, elts, pairs)
    requires bit < |u.key| && !u.key[bit].mask && u.pool >= 0 && |VecOf(elts, u.pool)| > 0
    requires Nodes(t) <= nb && forall i :: nb[i] <= 1
    requires Keeps(nodes, nodes', nb - multiset{u.node}) && Match(nodes', SplitOf(u, bit, n0, n1, p0, p1))
    requires KeepsOn(elts, elts', pb) && Pools(t) <= pb && forall v :: v in pb ==> 0 <= v < |elts|
    requires p0 !in pb && p1 !in pb && p0 != p1 && p0 < |elts'| && p1 < |elts'|
    requires elts'[p0].vec == Kept(VecOf(elts, u.pool), GoesTo(pairs, bit, false))
    requires elts'[p1].vec == Kept(VecOf(elts, u.pool), GoesTo(pairs, bit, true))
    ensures var g := Graft(t, u, SplitOf(u, bit, n0, n1, p0, p1));
      && Nodes(g) == Nodes(t) - multiset{u.node} + (multiset{u.node} + multiset{n0} + multiset{n1})
      && u.node in Nodes(t) && u.pool in Pools(t)
      && Pools(g) == Pools(t) - multiset{u.pool} + (multiset{p0} + multiset{p1})
      && TreeOk(g, Info(x.root, SplitCost(x.cost, |VecOf(elts, u.pool)|, |elts'[p0].vec|, |elts'[p1].vec|)), n,
                nodes', elts', pairs)
  {
    hide Good, Match, Nodes, Pools, Has, Graft, TreeOk, KeepsOn, Keeps;
    var s := SplitOf(u, bit, n0, n1, p0, p1);
    SplitGood(u, s, bit, n0, n1, p0, p1, elts, elts', pairs);
    SplitBags(u, bit, n0, n1, p0, p1);
    LeafBags(u);
    HasNodes(t, u);
    forall i ensures Nodes(t)[i] <= 1 {
      assert Nodes(t)[i] <= nb[i];
    }
    assert Nodes(t) - multiset{u.node} <= nb - multiset{u.node};
    KeepsLess(nodes, nodes', nb - multiset{u.node}, Nodes(t) - multiset{u.node});
    forall v ensures Pools(s)[v] <= 1 && (v in Pools(s) ==> v !in pb - Pools(u)) {
    }
    GraftOk(t, x, n, nodes, nodes', elts, elts', pairs, u, s, pb);
    CostSplit(x.cost, u, s, elts, elts', bit, n0, n1, p0, p1);
  }

  lemma CostSplit(c: Cost, u: Tree, s: Tree, elts: seq<Shared>, elts': seq<Shared>, bit: nat, n0: nat, n1: nat,
                  p0: nat, p1: nat)
    requires u.Leaf? && bit < |u.key| && s == SplitOf(u, bit, n0, n1, p0, p1) && |VecOf(elts, u.pool)| > 0
    requires p0 < |elts'| && p1 < |elts'|
    ensures Plus(Minus(c, CostOf(u, elts)), CostOf(s, elts'))
      == SplitCost(c, |VecOf(elts, u.pool)|, |elts'[p0].vec|, |elts'[p1].vec|)
  {
    hide LeafCost, SplitCost;
    assert CostOf(s, elts') == Plus(CostOf(s.t0, elts'), CostOf(s.t1, elts'));
    assert CostOf(s.t0, elts') == LeafCost(|elts'[p0].vec|) && CostOf(s.t1, elts') == LeafCost(|elts'[p1].vec|);
    SplitArith(c, |VecOf(elts, u.pool)|, |elts'[p0].vec|, |elts'[p1].vec|);
  }

  lemma SplitArith(c: Cost, l: nat, i0: nat, i1: nat)
    requires l > 0
    ensures Plus(Minus(c, LeafCost(l)), Plus(LeafCost(i0), LeafCost(i1))) == SplitCost(c, l, i0, i1)
  {
  }

  /** A tree in pools that keep all its nodes and vectors. */
  lemma TreeKept(t: Tree, x: Info, n: nat, nodes: seq<Node>, nodes': seq<Node>, elts: seq<Shared>, elts': seq<Shared>,
                 pairs: map<nat, Key>, nb: multiset<nat>, pb: multiset<int>)
    requires TreeOk(t, x, n, nodes, elts, pairs) && Nodes(t) <= nb && Keeps(nodes, nodes', nb)
    requires Pools(t) <= pb && KeepsOn(elts, elts', pb) && forall v :: v in pb ==> 0 <= v < |elts|
    ensures TreeOk(t, x, n, nodes', elts', pairs)
  {
    hide TreeOk, Nodes, Pools;
    assert forall v :: v in Pools(t) ==> v in pb;
    assert forall i :: i in Nodes(t) ==> i in nb;
    TreeFrame(t, x, n, nodes, nodes', elts, elts', pairs);
  }

  /** Change of cost when leaves of l0 and l1 pairs give way to one leaf of l pairs. */
  function JoinCost(c: Cost, l: int, l0: int, l1: int): Cost {
    Cost(c.occupancy + l - l0 - l1, c.occupancy2 + l * l - l0 * l0 - l1 * l1,
         c.leafs + (if l > 0 then 1 else 0) - (if l0 > 0 then 1 else 0) - (if l1 > 0 then 1 else 0))
  }

  ghost predicate Joinable(u: Tree) {
    u.Fork? && u.t0.Leaf? && u.t1.Leaf?
  }

  lemma JoinGood(u: Tree, pos: int, elts0: seq<Shared>, elts: seq<Shared>, pairs: map<nat, Key>)
    requires Joinable(u) && Good(u, elts0, pairs) && -1 <= pos < |elts|
    requires VecOf(elts, pos) == VecOf(elts0, u.t0.pool) + Kept(VecOf(elts0, u.t1.pool), Masks(pairs, u.bit))
    ensures Good(Leaf(u.node, u.key, pos), elts, pairs)
  {
    JoinHolds(VecOf(elts0, u.t0.pool), VecOf(elts0, u.t1.pool), u.key, u.bit, pairs);
    hide Holds;
  }

  lemma JoinArith(c: Cost, l: nat, l0: nat, l1: nat)
    ensures Plus(Minus(c, Plus(LeafCost(l0), LeafCost(l1))), LeafCost(l)) == JoinCost(c, l, l0, l1)
  {
  }

  lemma CostJoin(c: Cost, u: Tree, pos: int, elts: seq<Shared>, elts': seq<Shared>)
    requires Joinable(u)
    ensures Plus(Minus(c, CostOf(u, elts)), CostOf(Leaf(u.node, u.key, pos), elts'))
      == JoinCost(c, |VecOf(elts', pos)|, |VecOf(elts, u.t0.pool)|, |VecOf(elts, u.t1.pool)|)
  {
    hide LeafCost, JoinCost;
    assert CostOf(u, elts) == Plus(CostOf(u.t0, elts), CostOf(u.t1, elts));
    JoinArith(c, |VecOf(elts', pos)|, |VecOf(elts, u.t0.pool)|, |VecOf(elts, u.t1.pool)|);
  }

  /** A fork of two leaves joined to one: the tree stays good, and its cost moves by JoinCost. */
  lemma JoinTree(t: Tree, x: Info, n: nat, nodes: seq<Node>, nodes': seq<Node>, elts: seq<Shared>, elts': seq<Shared>,
                 pairs: map<nat, Key>, u: Tree, pos: int, nb: multiset<nat>, pb: multiset<int>)
    requires TreeOk(t, x, n, nodes, elts, pairs) && Has(t, u) && Joinable(u) && Good(u, elts, pairs)
    requires Nodes(t) <= nb && forall i :: nb[i] <= 1
    requires Keeps(nodes, nodes', nb - Nodes(u)) && Match(nodes', Leaf(u.node, u.key, pos))
    requires KeepsOn(elts, elts', pb) && Pools(t) <= pb && forall v :: v in pb ==> 0 <= v < |elts|
    requires -1 <= pos < |elts'| && pos !in pb
    requires VecOf(elts', pos) == VecOf(elts, u.t0.pool) + Kept(VecOf(elts, u.t1.pool), Masks(pairs, u.bit))
    ensures var g := Graft(t, u, Leaf(u.node, u.key, pos));
      && Nodes(u) <= Nodes(t) && Nodes(g) == Nodes(t) - Nodes(u) + multiset{u.node}
      && Pools(u) <= Pools(t) && Pools(g) == Pools(t) - Pools(u) + Pools(Leaf(u.node, u.key, pos))
      && TreeOk(g, Info(x.root, JoinCost(x.cost, |VecOf(elts', pos)|, |VecOf(elts, u.t0.pool)|,
        |VecOf(elts, u.t1.pool)|)),
                n, nodes', elts', pairs)
  {
    hide Good, Match, Nodes, Pools, Has, Graft, TreeOk, KeepsOn, Keeps, JoinCost;
    var s := Leaf(u.node, u.key, pos);
    JoinGood(u, pos, elts, elts', pairs);
    LeafBags(s);
    HasNodes(t, u);
    forall i ensures Nodes(t)[i] <= 1 {
      assert Nodes(t)[i] <= nb[i];
    }
    assert Nodes(t) - Nodes(u) <= nb - Nodes(u);
    KeepsLess(nodes, nodes', nb - Nodes(u), Nodes(t) - Nodes(u));
    GraftOk(t, x, n, nodes, nodes', elts, elts', pairs, u, s, pb);
    CostJoin(x.cost, u, pos, elts, elts');
  }

  /** How a split changes the nodes and the vectors that a tree uses. */
  ghost predicate SplitCounts(g: Tree, t: Tree, u: Tree, n0: nat, n1: nat, p0: nat, p1: nat)
    requires u.Leaf?
  {
    && Nodes(g) == Nodes(t) - multiset{u.node} + (multiset{u.node} + multiset{n0} + multiset{n1})
    && u.node in Nodes(t) && u.pool in Pools(t)
    && Pools(g) == Pools(t) - multiset{u.pool} + (multiset{p0} + multiset{p1})
  }

  lemma SplitCounted(g: Tree, t: Tree, u: Tree, n0: nat, n1: nat, p0: nat, p1: nat)
    requires u.Leaf? && u.node in Nodes(t) && u.pool in Pools(t)
    requires Nodes(g) == Nodes(t) - multiset{u.node} + (multiset{u.node} + multiset{n0} + multiset{n1})
    requires Pools(g) == Pools(t) - multiset{u.pool} + (multiset{p0} + multiset{p1})
    ensures SplitCounts(g, t, u, n0, n1, p0, p1)
  {
    hide Nodes, Pools;
  }

  lemma SplitKept(t: Tree, x: Info, k: Tree, kx: Info, n: nat, nodes: seq<Node>, nodes': seq<Node>, elts: seq<Shared>,
                  elts': seq<Shared>,
                  pairs: map<nat, Key>, u: Tree, bit: nat, n0: nat, n1: nat, p0: nat, p1: nat,
                  nb: multiset<nat>, pb: multiset<int>)
    requires TreeOk(t, x, n, nodes, elts, pairs) && Has(t, u) && u.Leaf? && Good(u, elts, pairs)
    requires bit < |u.key| && !u.key[bit].mask && u.pool >= 0 && |VecOf(elts, u.pool)| > 0
    requires Nodes(t) <= nb && forall i :: nb[i] <= 1
    requires Keeps(nodes, nodes', nb - multiset{u.node}) && Match(nodes', SplitOf(u, bit, n0, n1, p0, p1))
    requires KeepsOn(elts, elts', pb) && Pools(t) <= pb && forall v :: v in pb ==> 0 <= v < |elts|
    requires p0 !in pb && p1 !in pb && p0 != p1 && p0 < |elts'| && p1 < |elts'|
    requires elts'[p0].vec == Kept(VecOf(elts, u.pool), GoesTo(pairs, bit, false))
    requires elts'[p1].vec == Kept(VecOf(elts, u.pool), GoesTo(pairs, bit, true))
    requires TreeOk(k, kx, n, nodes, elts, pairs) && Nodes(k) <= nb - multiset{u.node} && Pools(k) <= pb
    ensures TreeOk(k, kx, n, nodes', elts', pairs)
    ensures var g := Graft(t, u, SplitOf(u, bit, n0, n1, p0, p1));
      && SplitCounts(g, t, u, n0, n1, p0, p1)
      && TreeOk(g, Info(x.root, SplitCost(x.cost, |VecOf(elts, u.pool)|, |elts'[p0].vec|, |elts'[p1].vec|)), n,
                nodes', elts', pairs)
  {
    hide *;
    SplitTree(t, x, n, nodes, nodes', elts, elts', pairs, u, bit, n0, n1, p0, p1, nb, pb);
    SplitCounted(Graft(t, u, SplitOf(u, bit, n0, n1, p0, p1)), t, u, n0, n1, p0, p1);
    TreeKept(k, kx, n, nodes, nodes', elts, elts', pairs, nb - multiset{u.node}, pb);
  }

  /** How a join changes the nodes and the vectors that a tree uses. */
  ghost predicate JoinCounts(g: Tree, t: Tree, u: Tree, pos: int) {
    && Nodes(u) <= Nodes(t) && Nodes(g) == Nodes(t) - Nodes(u) + multiset{u.node}
    && Pools(u) <= Pools(t) && Pools(g) == Pools(t) - Pools(u) + Pools(Leaf(u.node, u.key, pos))
  }

  lemma JoinKept(t: Tree, x: Info, k: Tree, kx: Info, n: nat, nodes: seq<Node>, nodes': seq<Node>, elts: seq<Shared>,
                 elts': seq<Shared>,
                 pairs: map<nat, Key>, u: Tree, pos: int, nb: multiset<nat>, pb: multiset<int>)
    requires TreeOk(t, x, n, nodes, elts, pairs) && Has(t, u) && Joinable(u) && Good(u, elts, pairs)
    requires Nodes(t) <= nb && forall i :: nb[i] <= 1
    requires Keeps(nodes, nodes', Outside(nb, u)) && Match(nodes', Leaf(u.node, u.key, pos))
    requires KeepsOn(elts, elts', pb) && Pools(t) <= pb && forall v :: v in pb ==> 0 <= v < |elts|
    requires -1 <= pos < |elts'| && pos !in pb
    requires VecOf(elts', pos) == VecOf(elts, u.t0.pool) + Kept(VecOf(elts, u.t1.pool), Masks(pairs, u.bit))
    requires TreeOk(k, kx, n, nodes, elts, pairs) && Nodes(k) <= Outside(nb, u) && Pools(k) <= pb
    ensures TreeOk(k, kx, n, nodes', elts', pairs)
    ensures var g := Graft(t, u, Leaf(u.node, u.key, pos));
      && JoinCounts(g, t, u, pos)
      && TreeOk(g, Info(x.root, JoinCost(x.cost, |VecOf(elts', pos)|, |VecOf(elts, u.t0.pool)|,
        |VecOf(elts, u.t1.pool)|)),
                n, nodes', elts', pairs)
  {
    hide Good, Match, Nodes, Pools, Has, Graft, TreeOk, KeepsOn, Keeps, JoinCost, VecOf, Kept;
    JoinTree(t, x, n, nodes, nodes', elts, elts', pairs, u, pos, nb, pb);
    TreeKept(k, kx, n, nodes, nodes', elts, elts', pairs, nb - Nodes(u), pb);
  }
}

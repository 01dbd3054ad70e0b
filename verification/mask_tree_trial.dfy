/** `tree`, `Step`, `AddDel` and `restart` of `goes/elib/mctree/mctree.go`: the lowest-cost tree so far and,
  * after the first step of a trial, a clone of it that split and join change.
  */
module MaskTreeTrials {
  import opened MaskTrees
  import opened MaskTreePools
  import opened MaskTreeMains
  import opened MaskTreeSteps
  import opened MaskTreeEdits
  import opened MaskTreeDraws

  /** The stored pairs: keys of n bits, each at one offset. */
  ghost predicate PairsOk(pairs: map<nat, Key>, n: nat) {
    && (forall o :: o in pairs ==> |pairs[o]| == n)
    && (forall o, q :: o in pairs && q in pairs && pairs[o] == pairs[q] ==> o == q)
  }

  class Trials {
    const pool: Pool
    var pairs: map<nat, Key>
    var last: Info
    var trial: Info
    var sequence: nat
    var steps: nat
    ghost var lastTree: Tree
    ghost var trialTree: Tree

    ghost function LiveNodes(): multiset<nat>
      reads this
    {
      Nodes(lastTree) + if steps > 0 then Nodes(trialTree) else multiset{}
    }

    ghost function LivePools(): multiset<int>
      reads this
    {
      Pools(lastTree) + if steps > 0 then Pools(trialTree) else multiset{}
    }

    /** What `Validate` checks: node keys, leaf contents, reference counts, free lists and costs. */
    ghost predicate Valid()
      reads this, pool
    {
      && pool.Uses(LiveNodes(), LivePools())
      && PairsOk(pairs, pool.nBits)
      && TreeOk(lastTree, last, pool.nBits, pool.nodes, pool.elts, pairs)
      && (steps > 0 ==> TreeOk(trialTree, trial, pool.nBits, pool.nodes, pool.elts, pairs))
    }

    /** `Init`: an empty root. */
    constructor (nBits: nat)
      ensures Valid() && fresh(pool) && pairs == map[] && steps == 0 && sequence == 1
    {
      var p := new Pool(nBits);
      var ni := p.NewNode(multiset{});
      pool := p;
      pairs, sequence, steps := map[], 1, 0;
      last, trial := Info(ni, Cost(0, 0, 0)), Info(0, Cost(0, 0, 0));
      lastTree, trialTree := Leaf(ni, seq(nBits, _ => Bit(false, false)), -1), Leaf(0, [], -1);
      new;
      hide Match, Good, NodesOk, RefsOk, CostOf, TreeOk;
      RootOk(lastTree, ni, pool.nBits, pool.nodes, pool.elts);
      Alone();
      assert multiset{} + multiset{ni} == multiset{ni};
    }

    /** What `Valid` says of the trees, with the pools as they were before vectors were taken. */
    ghost predicate Snapshot(nodes: seq<Node>, elts: seq<Shared>)
      reads this
    {
      && PairsOk(pairs, pool.nBits)
      && TreeOk(lastTree, last, pool.nBits, nodes, elts, pairs)
      && (steps > 0 ==> TreeOk(trialTree, trial, pool.nBits, nodes, elts, pairs))
      && (forall v :: v in LivePools() ==> 0 <= v < |elts|)
      && (forall i :: LiveNodes()[i] <= 1)
    }

    lemma Snap()
      requires Valid()
      ensures Snapshot(pool.nodes, pool.elts)
    {
      hide TreeOk, Nodes, Pools;
      UsedOnce(|pool.nodes|, pool.nodeFree, LiveNodes());
    }

    /** Nothing the trees use has changed. */
    lemma Unsnap(nodes: seq<Node>, elts: seq<Shared>)
      requires Snapshot(nodes, elts) && pool.Uses(LiveNodes(), LivePools())
      requires Keeps(nodes, pool.nodes, LiveNodes()) && KeepsOn(elts, pool.elts, LivePools())
      ensures Valid()
    {
      hide TreeOk, Nodes, Pools, Keeps, KeepsOn, NodesOk, RefsOk, PairsOk;
      TreeKept(lastTree, last, pool.nBits, nodes, pool.nodes, elts, pool.elts, pairs, LiveNodes(), LivePools());
      if steps > 0 {
        TreeKept(trialTree, trial, pool.nBits, nodes, pool.nodes, elts, pool.elts, pairs, LiveNodes(), LivePools());
      }
    }

    method RejectSplit(p0: nat, p1: nat, ghost elts0: seq<Shared>)
      requires Snapshot(pool.nodes, elts0) && KeepsOn(elts0, pool.elts, LivePools())
      requires pool.Uses(LiveNodes(), LivePools() + multiset{p0} + multiset{p1})
      modifies pool
      ensures Valid()
    {
      hide TreeOk, Nodes, Pools, NodesOk, RefsOk, Snapshot, PairsOk, LiveNodes, LivePools;
      ghost var pb := LivePools();
      ghost var elts1 := pool.elts;
      var freed := pool.PutVec(p0, pb + multiset{p0} + multiset{p1});
      freed := pool.PutVec(p1, pb + multiset{p0} + multiset{p1} - multiset{p0});
      assert pb + multiset{p0} + multiset{p1} - multiset{p0} - multiset{p1} == pb;
      Unsnap(pool.nodes, elts0);
    }

    method AcceptSplit(i: nat, bit: nat, p0: nat, p1: nat, l: nat, i0: nat, i1: nat, ghost u: Tree,
                       ghost elts0: seq<Shared>)
      requires steps > 0 && Snapshot(pool.nodes, elts0) && KeepsOn(elts0, pool.elts, LivePools())
      requires pool.Uses(LiveNodes(), LivePools() + multiset{p0} + multiset{p1})
      requires Has(trialTree, u) && u.Leaf? && u.node == i && Good(u, elts0, pairs) && Match(pool.nodes, u)
      requires bit < |u.key| && !u.key[bit].mask && !u.key[bit].value
      requires u.pool >= 0 && |VecOf(elts0, u.pool)| == l > 0
      requires p0 !in LivePools() && p1 !in LivePools() && p0 != p1 && p0 < |pool.elts| && p1 < |pool.elts|
      requires pool.elts[p0].vec == Kept(VecOf(elts0, u.pool), GoesTo(pairs, bit, false)) && i0 == |pool.elts[p0].vec|
      requires pool.elts[p1].vec == Kept(VecOf(elts0, u.pool), GoesTo(pairs, bit, true)) && i1 == |pool.elts[p1].vec|
      modifies this`trial, this`trialTree, pool
      ensures Valid()
      ensures trial.cost == SplitCost(old(trial.cost), l, i0, i1)
      ensures exists n0, n1 :: trialTree == Graft(old(trialTree), u, SplitOf(u, bit, n0, n1, p0, p1))
    {
      hide Match, Good, Nodes, Pools, Has, Graft, Keeps, KeepsVecs, KeepsOn, NodesOk, RefsOk, TreeOk, Kept, PairsOk,
           LiveNodes, LivePools, VecOf, SplitCost, SplitCounts;
      ghost var t, x, nb, pb := trialTree, trial, LiveNodes(), LivePools();
      ghost var nodes0, elts1 := pool.nodes, pool.elts;
      LiveParts();
      HasNodes(t, u);
      LeafBags(u);
      InBoth(u, Nodes(t), Pools(t));
      SplitLive(nb, Nodes(lastTree), Nodes(t), i);
      var n0, n1 := pool.MakeFork(i, bit, p0, p1, u, nb, pb + multiset{p0} + multiset{p1});
      KeepsOnVecs(elts0, elts1, pool.elts, pb, p0, p1);
      SplitKept(t, x, lastTree, last, pool.nBits, nodes0, pool.nodes, elts0, pool.elts, pairs, u, bit, n0, n1, p0, p1,
                nb, pb);
      trial := trial.(cost := SplitCost(trial.cost, l, i0, i1));
      trialTree := Graft(t, u, SplitOf(u, bit, n0, n1, p0, p1));
      SplitLives(nb, pb, t, u, n0, n1, p0, p1);
    }

    lemma SplitLives(nb: multiset<nat>, pb: multiset<int>, t: Tree, u: Tree, n0: nat, n1: nat, p0: nat, p1: nat)
      requires steps > 0 && nb == Nodes(lastTree) + Nodes(t) && pb == Pools(lastTree) + Pools(t) && u.Leaf?
      requires SplitCounts(trialTree, t, u, n0, n1, p0, p1)
      ensures LiveNodes() == nb + multiset{n0} + multiset{n1}
      ensures LivePools() == pb + multiset{p0} + multiset{p1} - multiset{u.pool}
    {
      hide Nodes, Pools;
    }

    lemma LiveParts()
      ensures Nodes(lastTree) <= LiveNodes() && Pools(lastTree) <= LivePools()
      ensures steps > 0 ==> Nodes(trialTree) <= LiveNodes() && Pools(trialTree) <= LivePools()
      ensures steps > 0 ==> LiveNodes() == Nodes(lastTree) + Nodes(trialTree)
      ensures steps > 0 ==> LivePools() == Pools(lastTree) + Pools(trialTree)
    {
    }

    lemma Alone()
      requires steps == 0
      ensures LiveNodes() == Nodes(lastTree) && LivePools() == Pools(lastTree)
    {
      assert Nodes(lastTree) + multiset{} == Nodes(lastTree);
      assert Pools(lastTree) + multiset{} == Pools(lastTree);
    }

    /** `split`: divide a leaf on a bit that its key does not mask yet. */
    method Split(i: nat, bit: nat, cold: bool, ghost u: Tree) returns (accept: bool)
      requires Valid() && steps > 0 && Has(trialTree, u) && u.Leaf? && u.node == i
      requires bit < |u.key| && !u.key[bit].mask
      modifies this, pool
      ensures Valid() && pairs == old(pairs) && steps == old(steps) && sequence == old(sequence)
      ensures last == old(last) && lastTree == old(lastTree)
      ensures if !accept then trialTree == old(trialTree) && trial == old(trial)
        else exists n0, n1, p0, p1 :: trialTree == Graft(old(trialTree), u, SplitOf(u, bit, n0, n1, p0, p1))
      ensures accept ==> trial.cost == SplitCostAt(old(trial.cost), old(VecOf(pool.elts, u.pool)), pairs, bit)
      ensures old(VecOf(pool.elts, u.pool)) != [] ==>
        SplitRule(old(trial.cost), old(VecOf(pool.elts, u.pool)), pairs, bit, cold, accept)
    {
      hide Match, Good, Nodes, Pools, Has, Graft, Keeps, KeepsVecs, KeepsOn, NodesOk, RefsOk, TreeOk, Kept, SplitCost,
           Weight;
      ghost var elts0 := pool.elts;
      LeafFacts(trialTree, trial, pool.nBits, pool.nodes, elts0, pairs, u, bit);
      Snap();
      var vec := VecOf(pool.elts, pool.nodes[i].pool);
      accept := false;
      if |vec| == 0 { return; }
      var p0, p1, i0, i1 := pool.GetSplit(vec, pairs, bit, LivePools());
      // Accepted when the cost falls, or at random when both halves have pairs.
      var c := SplitCost(trial.cost, |vec|, i0, i1);
      if Weight(c) < Weight(trial.cost) {
        accept := true;
      } else if i0 > 0 && i1 > 0 {
        accept := AcceptCostChange(trial.cost, c, cold);
      }
      if accept {
        AcceptSplit(i, bit, p0, p1, |vec|, i0, i1, u, elts0);
      } else {
        RejectSplit(p0, p1, elts0);
      }
    }

    /** `accept_cost_change`, for a cost that does not fall: at temperature zero never, else always if the cost is as it
      * was, and at random if it rises. */
    method AcceptCostChange(was: Cost, c: Cost, cold: bool) returns (accept: bool)
      ensures cold ==> !accept
      ensures !cold && c.occupancy == was.occupancy && c.occupancy2 == was.occupancy2 ==> accept
    {
      accept := !cold;
      if accept && (c.occupancy != was.occupancy || c.occupancy2 != was.occupancy2) { accept := *; }
    }

    /** `join`: merge the two leaves of a fork into it. A join that leaves the cost as it is is accepted unless the
      * temperature is zero. Two empty leaves have no vector to join, so turning their join down panics on giving
      * one back. */
    method Join(i: nat, cold: bool, ghost u: Tree) returns (accept: bool, panics: bool)
      requires Valid() && steps > 0 && Has(trialTree, u) && Joinable(u) && u.node == i
      modifies this, pool
      ensures Valid() && pairs == old(pairs) && steps == old(steps) && sequence == old(sequence)
      ensures last == old(last) && lastTree == old(lastTree)
      ensures if !accept then trialTree == old(trialTree) && trial == old(trial)
        else exists pos :: trialTree == Graft(old(trialTree), u, Leaf(u.node, u.key, pos))
      ensures panics <==> cold && old(VecOf(pool.elts, u.t0.pool)) == old(VecOf(pool.elts, u.t1.pool)) == []
      ensures panics ==> !accept
      ensures JoinRule(old(trial.cost), JoinCostAt(old(trial.cost), old(VecOf(pool.elts, u.t0.pool)),
                                                   old(VecOf(pool.elts, u.t1.pool)), pairs, u.bit), cold, accept)
      ensures accept ==> trial.cost == JoinCostAt(old(trial.cost), old(VecOf(pool.elts, u.t0.pool)),
                                                  old(VecOf(pool.elts, u.t1.pool)), pairs, u.bit)
    {
      hide Match, Good, Nodes, Pools, Has, Graft, Keeps, KeepsVecs, KeepsOn, NodesOk, RefsOk, TreeOk, Kept, JoinCost,
           JoinCostAt, JoinRule;
      ghost var elts0 := pool.elts;
      ForkFacts(trialTree, trial, pool.nBits, pool.nodes, elts0, pairs, u);
      Snap();
      var n0, n1 := pool.nodes[i].sub0, pool.nodes[i].sub1;
      var vec0, vec1 := VecOf(pool.elts, pool.nodes[n0].pool), VecOf(pool.elts, pool.nodes[n1].pool);
      var pos, l := pool.GetJoin(vec0, vec1, pairs, pool.nodes[i].splitBit, LivePools());
      JoinCostIs(trial.cost, vec0, vec1, pairs, u.bit, l);
      panics := false;
      accept := JoinAccepted(trial.cost, l, |vec0|, |vec1|, cold);
      if accept {
        AcceptJoin(i, pos, l, |vec0|, |vec1|, u, elts0);
      } else if pos < 0 {
        panics := true;
        NothingTaken(elts0);
      } else {
        RejectJoin(pos, elts0);
      }
    }

    /** Whether the change of cost is accepted. */
    method JoinAccepted(was: Cost, l: nat, l0: nat, l1: nat, cold: bool) returns (accept: bool)
      ensures JoinRule(was, JoinCost(was, l, l0, l1), cold, accept)
      ensures l == l0 == l1 == 0 ==> (accept <==> !cold)
    {
      var c := JoinCost(was, l, l0, l1);
      accept := Weight(c) < Weight(was);
      if !accept { accept := AcceptCostChange(was, c, cold); }
    }

    lemma NothingTaken(elts0: seq<Shared>)
      requires Snapshot(pool.nodes, elts0) && KeepsOn(elts0, pool.elts, LivePools())
      requires pool.Uses(LiveNodes(), LivePools())
      ensures Valid()
    {
      hide TreeOk, Nodes, Pools, NodesOk, RefsOk, Snapshot, PairsOk, LiveNodes, LivePools;
      Unsnap(pool.nodes, elts0);
    }

    method RejectJoin(pos: nat, ghost elts0: seq<Shared>)
      requires Snapshot(pool.nodes, elts0) && KeepsOn(elts0, pool.elts, LivePools())
      requires pool.Uses(LiveNodes(), LivePools() + multiset{pos})
      modifies pool
      ensures Valid()
    {
      hide TreeOk, Nodes, Pools, NodesOk, RefsOk, Snapshot, PairsOk, LiveNodes, LivePools;
      var freed := pool.PutVec(pos, LivePools() + multiset{pos});
      assert LivePools() + multiset{pos} - multiset{pos} == LivePools();
      Unsnap(pool.nodes, elts0);
    }

    method AcceptJoin(i: nat, pos: int, l: nat, l0: nat, l1: nat, ghost u: Tree, ghost elts0: seq<Shared>)
      requires steps > 0 && Snapshot(pool.nodes, elts0) && KeepsOn(elts0, pool.elts, LivePools())
      requires pool.Uses(LiveNodes(), Added(LivePools(), pos))
      requires Has(trialTree, u) && Joinable(u) && u.node == i && Good(u, elts0, pairs) && Match(pool.nodes, u)
      requires -1 <= pos < |pool.elts| && pos !in LivePools() && l == |VecOf(pool.elts, pos)|
      requires l0 == |VecOf(elts0, u.t0.pool)| && l1 == |VecOf(elts0, u.t1.pool)|
      requires VecOf(pool.elts, pos) == VecOf(elts0, u.t0.pool) + Kept(VecOf(elts0, u.t1.pool), Masks(pairs, u.bit))
      modifies this`trial, this`trialTree, pool
      ensures Valid() && trialTree == Graft(old(trialTree), u, Leaf(u.node, u.key, pos))
      ensures trial.cost == JoinCost(old(trial.cost), l, l0, l1)
    {
      hide Match, Good, Nodes, Pools, Has, Graft, Keeps, KeepsVecs, KeepsOn, NodesOk, RefsOk, TreeOk, Kept, PairsOk,
           LiveNodes, LivePools, VecOf, JoinCost, Added, Outside, NodesLeft, PoolsLeft, JoinCounts;
      ghost var t, x, nb, pb := trialTree, trial, LiveNodes(), LivePools();
      ghost var nodes0, elts1 := pool.nodes, pool.elts;
      LiveParts();
      HasNodes(t, u);
      ghost var pb1 := Added(pb, pos);
      JoinIn(nb, pb, pb1, Nodes(lastTree), t, u, pos);
      pool.MakeLeaf(i, pos, u, nb, pb1);
      KeepsOnVec(elts0, elts1, pool.elts, pb, pos);
      JoinKept(t, x, lastTree, last, pool.nBits, nodes0, pool.nodes, elts0, pool.elts, pairs, u, pos, nb, pb);
      trial := trial.(cost := JoinCost(trial.cost, l, l0, l1));
      trialTree := Graft(t, u, Leaf(u.node, u.key, pos));
      JoinLives(nb, pb, pb1, t, u, pos);
    }

    lemma JoinLives(nb: multiset<nat>, pb: multiset<int>, pb1: multiset<int>, t: Tree, u: Tree, pos: int)
      requires steps > 0 && nb == Nodes(lastTree) + Nodes(t) && pb == Pools(lastTree) + Pools(t) && u.Fork?
      requires JoinCounts(trialTree, t, u, pos)
      requires pb1 == Added(pb, pos)
      ensures LiveNodes() == NodesLeft(nb, u) && LivePools() == PoolsLeft(pb1, u)
    {
      hide Nodes, Pools;
      LeafBags(Leaf(u.node, u.key, pos));
      JoinParts(u);
      BagJoin(Nodes(lastTree), Nodes(t), multiset{u.node}, Nodes(u.t0), Nodes(u.t1));
      BagRejoin(Pools(lastTree), Pools(t), if pos >= 0 then multiset{pos} else multiset{}, Pools(u.t0), Pools(u.t1));
    }

    /** `clone_tree`: the trial starts as a copy of the lowest-cost tree. */
    method CloneTree()
      requires Valid() && steps == 0
      modifies this`trial, this`trialTree, this`steps, pool
      ensures Valid() && steps == 1
      ensures trial.cost == last.cost && SameShape(lastTree, trialTree)
      ensures |pool.elts| == |old(pool.elts)| && KeepsVecs(old(pool.elts), pool.elts)
    {
      hide Match, Good, Nodes, Pools, Keeps, KeepsVecs, NodesOk, RefsOk, TreeOk, SameShape, CostOf;
      ghost var nb, pb, nodes0, elts0 := LiveNodes(), LivePools(), pool.nodes, pool.elts;
      Alone();
      RangeOf(|elts0|, elts0, pool.eltFree, pb);
      TreeParts(lastTree, last, pool.nBits, nodes0, elts0, pairs);
      var ni, d := pool.CloneSub(last.root, lastTree, nb, pb);
      CloneOk(lastTree, d, last, ni, pool.nBits, nodes0, pool.nodes, elts0, pool.elts, pairs, nb, pb);
      trial, trialTree, steps := Info(ni, last.cost), d, 1;
    }

    /** `free_tree` of one tree leaves the other one good and alone in the pools. */
    method FreeOne(i: nat, ghost t: Tree, ghost k: Tree, ghost kx: Info, ghost nb: multiset<nat>,
                   ghost pb: multiset<int>)
      requires pool.Uses(nb, pb) && Match(pool.nodes, t) && t.node == i
      requires nb == Nodes(k) + Nodes(t) && pb == Pools(k) + Pools(t)
      requires TreeOk(k, kx, pool.nBits, pool.nodes, pool.elts, pairs)
      modifies pool
      ensures pool.Uses(Nodes(k), Pools(k)) && TreeOk(k, kx, pool.nBits, pool.nodes, pool.elts, pairs)
    {
      hide Match, Good, Nodes, Pools, Keeps, KeepsVecs, NodesOk, RefsOk, TreeOk;
      ghost var nodes0, elts0 := pool.nodes, pool.elts;
      RangeOf(|elts0|, elts0, pool.eltFree, pb);
      BagDrop(Nodes(k), Nodes(t));
      BagDrop(Pools(k), Pools(t));
      pool.FreeTree(i, t, nb, pb);
      VecsOn(elts0, pool.elts, Pools(k));
      TreeKept(k, kx, pool.nBits, nodes0, pool.nodes, elts0, pool.elts, pairs, Nodes(k), Pools(k));
    }

    /** `restart`: drop the trial, if there is one. */
    method Restart()
      requires Valid()
      modifies this`steps, pool
      ensures Valid() && steps == 0
    {
      hide Match, Good, Nodes, Pools, NodesOk, RefsOk, TreeOk, LiveNodes, LivePools;
      if steps > 0 {
        LiveParts();
        TreeParts(trialTree, trial, pool.nBits, pool.nodes, pool.elts, pairs);
        FreeOne(trial.root, trialTree, lastTree, last, LiveNodes(), LivePools());
        steps := 0;
        Alone();
      }
    }

    /** The trial found a lower cost: it becomes the tree that the next trial starts from. */
    method Advance()
      requires Valid() && steps > 0
      modifies this`steps, this`last, this`lastTree, this`sequence, pool
      ensures Valid() && steps == 0 && sequence == old(sequence) + 1
      ensures last == old(trial) && lastTree == old(trialTree)
    {
      hide Match, Good, Nodes, Pools, NodesOk, RefsOk, TreeOk, LiveNodes, LivePools;
      LiveParts();
      TreeParts(lastTree, last, pool.nBits, pool.nodes, pool.elts, pairs);
      BagSwitch(Nodes(lastTree), Nodes(trialTree));
      BagSwitch(Pools(lastTree), Pools(trialTree));
      FreeOne(last.root, lastTree, trialTree, trial, LiveNodes(), LivePools());
      last, lastTree, sequence, steps := trial, trialTree, sequence + 1, 0;
      Alone();
    }

    /** `random_leaf`: walk down the trial to a leaf, with its parent if it has one. */
    method RandomLeaf(sides: nat -> bool) returns (n: nat, parent: int, ghost u: Tree, ghost sup: Tree)
      requires Valid() && steps > 0
      ensures u == LeafAt(trialTree, sides, 0) && Has(trialTree, u) && u.Leaf? && u.node == n < |pool.nodes|
      ensures pool.nodes[n].key == u.key && pool.nodes[n].pool == u.pool
      ensures parent >= 0 <==> trialTree.Fork?
      ensures parent >= 0 ==> (sup == ForkAt(trialTree, sides, 0) && Has(trialTree, sup) && sup.Fork?
        && sup.node == parent && Match(pool.nodes, sup))
    {
      hide Good, Nodes, Pools, NodesOk, RefsOk, Graft, TreeOk, PairsOk;
      TreeParts(trialTree, trial, pool.nBits, pool.nodes, pool.elts, pairs);
      n, parent, u, sup := trial.root, -1, trialTree, trialTree;
      var k := 0;
      while pool.nodes[n].sub0 >= 0 && pool.nodes[n].sub1 >= 0
        invariant Has(trialTree, u) && u.node == n && Match(pool.nodes, u)
        invariant LeafAt(trialTree, sides, 0) == LeafAt(u, sides, k)
        invariant if k == 0 then parent < 0 && u == trialTree else parent >= 0 && trialTree.Fork?
        invariant parent >= 0 ==> (Has(trialTree, sup) && sup.Fork? && sup.node == parent && Match(pool.nodes, sup)
          && ForkAt(trialTree, sides, 0) == if u.Leaf? then sup else ForkAt(u, sides, k))
        decreases u
      {
        parent, sup := n, u;
        if !sides(k) {
          HasTrans(trialTree, u, u.t0);
          n, u := pool.nodes[n].sub0, u.t0;
        } else {
          HasTrans(trialTree, u, u.t1);
          n, u := pool.nodes[n].sub1, u.t1;
        }
        k := k + 1;
      }
    }

    /** `random_masked_bit`: a bit masked by some pair of the leaf, and not by the leaf's key. */
    method RandomMaskedBit(n: nat) returns (bit: nat, ok: bool)
      requires n < |pool.nodes| && |VecOf(pool.elts, pool.nodes[n].pool)| > 0
      requires forall o :: o in VecOf(pool.elts, pool.nodes[n].pool) ==> o in pairs && |pairs[o]| == |pool.nodes[n].key|
      ensures ok ==> bit < |pool.nodes[n].key| && !pool.nodes[n].key[bit].mask
      ensures ok ==> exists o :: o in VecOf(pool.elts, pool.nodes[n].pool) && pairs[o][bit].mask
      ensures !ok ==> exists o :: o in VecOf(pool.elts, pool.nodes[n].pool) && Masked(pairs[o], pool.nodes[n].key)
    {
      var vec, k := VecOf(pool.elts, pool.nodes[n].pool), pool.nodes[n].key;
      assert vec[0] in vec;
      var o :| o in vec;
      var p := pairs[o];
      bit, ok := 0, exists b :: 0 <= b < |k| && p[b].mask && !k[b].mask;
      if ok {
        bit :| 0 <= bit < |k| && p[bit].mask && !k[bit].mask;
      }
    }

    /** The tree that the next step draws from, up to a clone. */
    ghost function Drawn(): Tree
      reads this
    {
      if steps > 0 then trialTree else lastTree
    }

    ghost function DrawnCost(): Cost
      reads this
    {
      if steps > 0 then trial.cost else last.cost
    }

    /** `Step`: clone if this is the first step, then draw until one join or one split was tried. The draws given here
      * may end before that; those of the source go on for ever. */
    method Step(maxLeafs: nat, minPairs: nat, restartAfter: nat, cold: bool, draws: seq<Draw>)
      returns (accepted: bool, lower: bool, done: bool, panics: bool)
      requires Valid()
      modifies this, pool
      ensures Valid() && pairs == old(pairs)
      ensures lower ==> Weight(last.cost) < Weight(old(last.cost))
      ensures lower ==> accepted
      ensures var rules := Rules(if |pairs| < maxLeafs then |pairs| else maxLeafs, minPairs, cold);
        done ==> FirstVerdict(old(Drawn()), old(pool.elts), old(DrawnCost()), pairs, rules, draws, accepted)
      ensures lower ==> CloneEdits(old(Drawn()), lastTree, draws)
      ensures done && !lower && steps > 0 ==>
        (SameShape(old(Drawn()), trialTree) && trial.cost == old(DrawnCost()))
        || (CloneEdits(old(Drawn()), trialTree, draws) && Weight(trial.cost) >= Weight(last.cost))
      ensures if lower then sequence == old(sequence) + 1 && steps == 0 && done
              else sequence == old(sequence) && last == old(last) && lastTree == old(lastTree)
      ensures done && !lower ==>
        steps == if restartAfter != 0 && old(steps) + 1 > restartAfter then 0 else old(steps) + 1
      ensures panics ==> !done
      ensures var rules := Rules(if |pairs| < maxLeafs then |pairs| else maxLeafs, minPairs, cold);
        var t, elts, leafs := old(Drawn()), old(pool.elts), old(DrawnCost()).leafs;
        && (done || panics <==> SomeDoes(t, elts, leafs, rules, draws))
        && (panics <==> FirstFails(t, elts, leafs, rules, draws))
        && (done || panics ==> t.Fork? || Splittable(t, elts, leafs, rules))
    {
      hide Match, Good, Nodes, Pools, NodesOk, RefsOk, TreeOk, Has, Graft, KeepsOn, SomeDoes, FirstFails, Splittable,
           SomeEdits, CloneEdits, SameShape, Weight, Valid, KeepsVecs, FirstVerdict;
      // Never allow more leafs than there are pairs.
      var rules := Rules(if |pairs| < maxLeafs then |pairs| else maxLeafs, minPairs, cold);
      StartStep();
      SameDraws(old(Drawn()), trialTree, old(pool.elts), pool.elts, old(DrawnCost()).leafs, rules, draws);
      ghost var t, elts := trialTree, pool.elts;
      accepted, done, panics := DrawSome(rules, draws);
      if accepted { CloneEdited(old(Drawn()), t, trialTree, draws); }
      if done { SameVerdict(old(Drawn()), t, old(pool.elts), elts, old(DrawnCost()), pairs, rules, draws, accepted); }
      lower := false;
      if !done { return; }
      lower := accepted && Weight(trial.cost) < Weight(last.cost);
      if lower {
        Advance();
      } else if restartAfter != 0 && steps > restartAfter {
        Restart();
      }
    }

    /** The start of `Step`: the first one of a trial clones the last tree. */
    method StartStep()
      requires Valid()
      modifies this`trial, this`trialTree, this`steps, pool
      ensures Valid() && steps == old(steps) + 1
      ensures SameShape(old(Drawn()), trialTree) && trial.cost == old(DrawnCost())
      ensures |pool.elts| == |old(pool.elts)| && KeepsVecs(old(pool.elts), pool.elts)
    {
      hide Match, Good, Nodes, Pools, NodesOk, RefsOk, TreeOk, SameShape;
      if steps == 0 {
        CloneTree();
      } else {
        steps := steps + 1;
        SameShapeSelf(trialTree);
      }
    }

    /** The draws, until one does something. */
    method DrawSome(rules: Rules, draws: seq<Draw>) returns (accepted: bool, done: bool, panics: bool)
      requires Valid() && steps > 0
      modifies this, pool
      ensures Valid() && pairs == old(pairs) && steps == old(steps) && sequence == old(sequence)
      ensures last == old(last) && lastTree == old(lastTree) && (panics ==> !done)
      ensures done ==> FirstVerdict(old(trialTree), old(pool.elts), old(trial.cost), pairs, rules, draws, accepted)
      ensures if accepted then done && SomeEdits(old(trialTree), trialTree, draws)
              else trialTree == old(trialTree) && trial == old(trial)
      ensures done || panics <==> old(SomeDoes(trialTree, pool.elts, trial.cost.leafs, rules, draws))
      ensures panics <==> old(FirstFails(trialTree, pool.elts, trial.cost.leafs, rules, draws))
      ensures done || panics ==> old(trialTree.Fork? || Splittable(trialTree, pool.elts, trial.cost.leafs, rules))
    {
      hide Match, Good, Nodes, Pools, NodesOk, RefsOk, TreeOk, Has, Graft, KeepsOn, Does, Fails, Splittable, Valid,
           SomeDoes, FirstFails;
      ghost var t, elts, leafs := trialTree, pool.elts, trial.cost.leafs;
      DoableIff(t, elts, leafs, rules);
      accepted, done, panics := false, false, false;
      var k := 0;
      while k < |draws|
        invariant Valid() && pairs == old(pairs) && sequence == old(sequence) && steps == old(steps)
        invariant last == old(last) && lastTree == old(lastTree) && !done && !panics && 0 <= k <= |draws|
        invariant trialTree == t && pool.elts == elts && trial == old(trial) && !accepted
        invariant forall j :: 0 <= j < k ==> !Does(t, elts, leafs, rules, draws[j])
      {
        accepted, done, panics := Turn(rules, draws[k]);
        if done || panics {
          FirstDecides(t, elts, leafs, rules, draws, k);
          return;
        }
        k := k + 1;
      }
      NoneDo(t, elts, leafs, rules, draws);
    }

    /** One draw. */
    method Turn(rules: Rules, d: Draw) returns (accepted: bool, did: bool, panics: bool)
      requires Valid() && steps > 0
      modifies this, pool
      ensures Valid() && pairs == old(pairs) && steps == old(steps) && sequence == old(sequence)
      ensures last == old(last) && lastTree == old(lastTree) && (panics ==> !did)
      ensures did || panics <==> old(Does(trialTree, pool.elts, trial.cost.leafs, rules, d))
      ensures panics <==> old(Fails(trialTree, pool.elts, trial.cost.leafs, rules, d))
      ensures !did && !panics ==> pool.elts == old(pool.elts)
      ensures did ==> Verdict(old(trialTree), old(pool.elts), old(trial.cost), pairs, rules, d, accepted)
      ensures if accepted then did && EditedBy(old(trialTree), trialTree, d)
              else trialTree == old(trialTree) && trial == old(trial)
    {
      hide Match, Good, Nodes, Pools, NodesOk, RefsOk, TreeOk, Graft, KeepsOn, PairsOk, Has, JoinRule, SplitRule,
           JoinCostAt, Masked;
      accepted, did, panics := false, false, false;
      var n, parent, u, sup := RandomLeaf(d.sides);
      LeafKeys(trialTree, trial, pool.nBits, pool.nodes, pool.elts, pairs, u);
      var joinable := false;
      if parent >= 0 {
        SubNodes(pool.nodes, sup);
        var n0, n1 := pool.nodes[parent].sub0, pool.nodes[parent].sub1;
        joinable := !pool.IsSplit(n0) && !pool.IsSplit(n1);
      }
      if d.toss && joinable {
        accepted, panics := Join(parent, rules.cold, sup);
        did := !panics;
      } else if trial.cost.leafs + 1 <= rules.limit && |VecOf(pool.elts, pool.nodes[n].pool)| >= rules.minPairs {
        if |VecOf(pool.elts, pool.nodes[n].pool)| == 0 {
          // A random pair of an empty leaf.
          panics := true;
          return;
        }
        ghost var vec, was := VecOf(pool.elts, u.pool), trial.cost;
        var bit, ok := RandomMaskedBit(n);
        if ok {
          accepted := Split(n, bit, rules.cold, u);
        }
        SplitDone(was, vec, u.key, pairs, bit, ok, rules.cold, accepted);
        did := true;
      }
    }

    /** All of `Valid` but the kept costs. */
    ghost predicate Sound()
      reads this, pool
    {
      && steps == 0
      && pool.Uses(LiveNodes(), LivePools())
      && PairsOk(pairs, pool.nBits)
      && TreeOk(lastTree, last.(cost := CostOf(lastTree, pool.elts)), pool.nBits, pool.nodes, pool.elts, pairs)
    }

    /** `AddDel`. Deleting a key that is not stored panics; adding one that is keeps the tree but not its costs. */
    method AddDel(p: Key, isDel: bool, next: nat) returns (ok: bool)
      requires Valid() && |p| == pool.nBits && next !in pairs
      modifies this, pool
      ensures ok <==> !isDel || p in old(pairs).Values
      ensures !ok ==> Valid() && pairs == old(pairs)
      ensures ok ==> Sound() && (Valid() <==> isDel || p !in old(pairs).Values)
      ensures ok && isDel ==> exists o :: o in old(pairs) && old(pairs)[o] == p && pairs == old(pairs) - {o}
      ensures ok && !isDel ==> pairs == if p in old(pairs).Values then old(pairs) else old(pairs)[next := p]
    {
      hide TreeOk, NodesOk, RefsOk, PairsOk, Nodes, Pools;
      Restart();
      var stored := exists o :: o in pairs && pairs[o] == p;
      ok := !isDel || stored;
      if ok {
        var o := next;
        if stored { o :| o in pairs && pairs[o] == p; }
        ghost var was := pairs;
        if !isDel { pairs := pairs[o := p]; }
        assert stored && !isDel ==> pairs == was;
        EditLast(p, o, isDel, was, if isDel then was - {o} else was[o := p]);
        if isDel { pairs := pairs - {o}; }
        Finished(was, o, p, isDel);
      }
    }

    /** The leaf on a search key's path lists every stored pair that matches the key, once. */
    lemma SearchFinds(x: seq<bool>, o: nat)
      requires Valid() && |x| == pool.nBits && o in pairs && Matches(x, pairs[o])
      ensures var vec := VecOf(pool.elts, Lookup(lastTree, x)); o in vec && NoDup(vec)
    {
      LookupFinds(lastTree, pool.elts, pairs, x, o);
      LookupOnce(lastTree, pool.elts, pairs, x);
    }

    /** The edit of the lowest-cost tree, from the pairs stored before to the pairs stored after. */
    method EditLast(p: Key, o: nat, isDel: bool, ghost was: map<nat, Key>, ghost will: map<nat, Key>)
      requires steps == 0 && pool.Uses(LiveNodes(), LivePools()) && |p| == pool.nBits
      requires TreeOk(lastTree, last, pool.nBits, pool.nodes, pool.elts, was) && Change(was, will, o, p, isDel)
      modifies this`last, this`lastTree, pool
      ensures pool.Uses(LiveNodes(), LivePools())
      ensures TreeOk(lastTree, last.(cost := CostOf(lastTree, pool.elts)), pool.nBits, pool.nodes, pool.elts, will)
      ensures last.cost == CostOf(lastTree, pool.elts) <==> isDel || o !in was
    {
      hide NodesOk, RefsOk, Nodes, Pools, Match, Good, Change, CostOf;
      Alone();
      ghost var t := lastTree;
      RootKey(t, p);
      assert multiset{} + Nodes(t) == Nodes(t) && multiset{} + Pools(t) == Pools(t);
      var g, c := EditTree(pool, last.root, p, o, isDel, last.cost, t, multiset{}, multiset{}, was, will);
      assert multiset{} + Nodes(g) == Nodes(g) && multiset{} + Pools(g) == Pools(g);
      last, lastTree := last.(cost := c), g;
      Alone();
    }

    lemma Finished(was: map<nat, Key>, o: nat, p: Key, isDel: bool)
      requires PairsOk(was, pool.nBits) && |p| == pool.nBits && steps == 0
      requires if isDel then o in was && was[o] == p && pairs == was - {o}
               else pairs == was[o := p] && (if o in was then was[o] == p else p !in was.Values)
      requires TreeOk(lastTree, last.(cost := CostOf(lastTree, pool.elts)), pool.nBits, pool.nodes, pool.elts, pairs)
      requires pool.Uses(LiveNodes(), LivePools())
      ensures Sound() && (Valid() <==> last.cost == CostOf(lastTree, pool.elts))
    {
      hide NodesOk, RefsOk, Nodes, Pools, Match, Good, CostOf;
      assert PairsOk(pairs, pool.nBits);
    }
  }

  lemma JoinCostIs(was: Cost, vec0: seq<nat>, vec1: seq<nat>, pairs: map<nat, Key>, bit: nat, l: nat)
    requires l == |vec0 + Kept(vec1, Masks(pairs, bit))|
    ensures JoinCost(was, l, |vec0|, |vec1|) == JoinCostAt(was, vec0, vec1, pairs, bit)
    ensures |vec0| == |vec1| == 0 ==> l == 0
  {
  }

  /** A draw of a pair and a bit, or of a pair without one, as the verdict tells it. */
  lemma SplitDone(was: Cost, vec: seq<nat>, key: Key, pairs: map<nat, Key>, bit: nat, ok: bool, cold: bool,
                  accept: bool)
    requires forall o :: o in vec ==> o in pairs && |pairs[o]| == |key|
    requires if ok then bit < |key| && !key[bit].mask && (exists o :: o in vec && pairs[o][bit].mask)
        && SplitRule(was, vec, pairs, bit, cold, accept)
      else !accept && exists o :: o in vec && Masked(pairs[o], key)
    ensures SplitVerdict(was, vec, key, pairs, cold, accept)
  {
    hide SplitRule;
    if ok {
      var o :| o in vec && pairs[o][bit].mask;
      assert SomeBit(was, vec, key, pairs, o, cold, accept);
    }
  }

  lemma RootKey(t: Tree, p: Key)
    requires |p| == |t.key| && forall b :: 0 <= b < |t.key| ==> t.key[b] == Bit(false, false)
    ensures Compatible(p, t.key)
  {
  }

  lemma LeafKeys(t: Tree, x: Info, n: nat, nodes: seq<Node>, elts: seq<Shared>, pairs: map<nat, Key>, u: Tree)
    requires TreeOk(t, x, n, nodes, elts, pairs) && Has(t, u) && u.Leaf? && PairsOk(pairs, n)
    ensures |u.key| == n
    ensures forall o :: o in VecOf(elts, u.pool) ==> o in pairs && |pairs[o]| == n
  {
    HasKey(t, u, elts, pairs);
    HasGood(t, u, elts, pairs);
  }

  lemma SubNodes(nodes: seq<Node>, u: Tree)
    requires Match(nodes, u) && u.Fork?
    ensures u.node < |nodes| && nodes[u.node].sub0 == u.t0.node < |nodes| && nodes[u.node].sub1 == u.t1.node < |nodes|
    ensures u.t0.Leaf? <==> nodes[u.t0.node].sub0 < 0 || nodes[u.t0.node].sub1 < 0
    ensures u.t1.Leaf? <==> nodes[u.t1.node].sub0 < 0 || nodes[u.t1.node].sub1 < 0
  {
  }

  lemma TreeParts(t: Tree, x: Info, n: nat, nodes: seq<Node>, elts: seq<Shared>, pairs: map<nat, Key>)
    requires TreeOk(t, x, n, nodes, elts, pairs)
    ensures Match(nodes, t) && t.node == x.root
  {
  }

  lemma RangeOf(n: nat, elts: seq<Shared>, free: set<nat>, pb: multiset<int>)
    requires RefsOk(elts, free, pb) && n == |elts|
    ensures forall v :: v in pb ==> 0 <= v < n
  {
  }

  lemma BagDrop<T>(a: multiset<T>, b: multiset<T>)
    ensures (a + b) - b == a && b <= a + b
  {
  }

  lemma BagSwitch<T>(a: multiset<T>, b: multiset<T>)
    ensures a + b == b + a
  {
  }

  lemma VecsOn(a: seq<Shared>, b: seq<Shared>, pb: multiset<int>)
    requires KeepsVecs(a, b)
    ensures KeepsOn(a, b, pb)
  {
  }

  lemma CloneOk(t: Tree, d: Tree, x: Info, ni: nat, n: nat, nodes: seq<Node>, nodes': seq<Node>, elts: seq<Shared>,
                elts': seq<Shared>, pairs: map<nat, Key>, nb: multiset<nat>, pb: multiset<int>)
    requires TreeOk(t, x, n, nodes, elts, pairs) && Match(nodes', d) && d.node == ni && SameShape(t, d)
    requires nb == Nodes(t) && pb == Pools(t) && Keeps(nodes, nodes', nb) && KeepsVecs(elts, elts')
    requires forall v :: v in pb ==> 0 <= v < |elts|
    ensures TreeOk(t, x, n, nodes', elts', pairs) && TreeOk(d, Info(ni, x.cost), n, nodes', elts', pairs)
    ensures Pools(d) == Pools(t)
  {
    hide Match, Good, Nodes, Pools, SameShape, CostOf, Keeps;
    VecsOn(elts, elts', pb);
    TreeKept(t, x, n, nodes, nodes', elts, elts', pairs, nb, pb);
    SameShapeSame(t, d, elts', pairs);
  }

  lemma RootOk(t: Tree, ni: nat, n: nat, nodes: seq<Node>, elts: seq<Shared>)
    requires t == Leaf(ni, seq(n, _ => Bit(false, false)), -1) && ni < |nodes|
    requires nodes[ni].key == t.key && nodes[ni].sub0 == nodes[ni].sub1 == nodes[ni].pool == -1
    ensures TreeOk(t, Info(ni, Cost(0, 0, 0)), n, nodes, elts, map[])
    ensures Nodes(t) == multiset{ni} && Pools(t) == multiset{}
  {
  }

  lemma JoinParts(u: Tree)
    requires u.Fork?
    ensures Nodes(u) == multiset{u.node} + Nodes(u.t0) + Nodes(u.t1) && Pools(u) == Pools(u.t0) + Pools(u.t1)
  {
  }

  lemma BagJoin<T>(a: multiset<T>, b: multiset<T>, i: multiset<T>, p: multiset<T>, q: multiset<T>)
    requires i + p + q <= b
    ensures a + (b - (i + p + q) + i) == (a + b) - p - q
  {
    forall x ensures (a + (b - (i + p + q) + i))[x] == ((a + b) - p - q)[x] {
      assert (i + p + q)[x] <= b[x];
    }
  }

  lemma BagRejoin<T>(a: multiset<T>, b: multiset<T>, x: multiset<T>, p: multiset<T>, q: multiset<T>)
    requires p + q <= b
    ensures a + (b - (p + q) + x) == (a + b) + x - p - q
    ensures x == multiset{} ==> a + (b - (p + q) + x) == (a + b) - p - q
  {
    forall y ensures (a + (b - (p + q) + x))[y] == ((a + b) + x - p - q)[y] {
      assert (p + q)[y] <= b[y];
    }
  }

  lemma JoinIn(nb: multiset<nat>, pb: multiset<int>, pb1: multiset<int>, a: multiset<nat>, t: Tree, u: Tree, pos: int)
    requires nb == a + Nodes(t) && Nodes(u) <= Nodes(t) && Pools(t) <= pb && Pools(u) <= Pools(t)
    requires pb1 == Added(pb, pos)
    ensures Nodes(u) <= nb && a <= Outside(nb, u) && Pools(u) <= pb1
  {
    hide Nodes, Pools;
  }

  lemma KeepsOnVec(a: seq<Shared>, b: seq<Shared>, c: seq<Shared>, pb: multiset<int>, pos: int)
    requires KeepsOn(a, b, pb) && KeepsVecs(b, c) && -1 <= pos < |b|
    ensures KeepsOn(a, c, pb) && pos < |c| && VecOf(c, pos) == VecOf(b, pos)
  {
  }

  /** What a fork of two leaves offers to a join. */
  lemma ForkFacts(t: Tree, x: Info, n: nat, nodes: seq<Node>, elts: seq<Shared>, pairs: map<nat, Key>, u: Tree)
    requires TreeOk(t, x, n, nodes, elts, pairs) && Has(t, u) && Joinable(u) && PairsOk(pairs, n)
    ensures Match(nodes, u) && Good(u, elts, pairs) && u.node < |nodes|
    ensures nodes[u.node].sub0 == u.t0.node < |nodes| && nodes[u.node].sub1 == u.t1.node < |nodes|
    ensures nodes[u.node].splitBit == u.bit
    ensures nodes[u.t0.node].pool == u.t0.pool && nodes[u.t1.node].pool == u.t1.pool
    ensures forall o :: o in VecOf(elts, u.t1.pool) ==> o in pairs && u.bit < |pairs[o]|
  {
    HasMatch(t, u, nodes);
    HasKey(t, u, elts, pairs);
    HasGood(t, u, elts, pairs);
  }

  lemma InBoth(u: Tree, nb: multiset<nat>, pb: multiset<int>)
    requires u.Leaf? && u.pool >= 0 && Nodes(u) <= nb && Pools(u) <= pb
    ensures u.node in nb && u.pool in pb
  {
    assert u.node in Nodes(u) && u.pool in Pools(u);
  }

  lemma SplitLive(nb: multiset<nat>, a: multiset<nat>, b: multiset<nat>, i: nat)
    requires nb == a + b && i in b
    ensures i in nb && a <= nb - multiset{i}
  {
  }

  lemma KeepsOnVecs(a: seq<Shared>, b: seq<Shared>, c: seq<Shared>, pb: multiset<int>, p0: nat, p1: nat)
    requires KeepsOn(a, b, pb) && KeepsVecs(b, c) && p0 < |b| && p1 < |b|
    ensures KeepsOn(a, c, pb) && p0 < |c| && p1 < |c| && c[p0].vec == b[p0].vec && c[p1].vec == b[p1].vec
  {
  }

  /** What a leaf of a good tree offers to a split. */
  lemma LeafFacts(t: Tree, x: Info, n: nat, nodes: seq<Node>, elts: seq<Shared>, pairs: map<nat, Key>, u: Tree,
                  bit: nat)
    requires TreeOk(t, x, n, nodes, elts, pairs) && Has(t, u) && u.Leaf? && PairsOk(pairs, n)
    requires bit < |u.key| && !u.key[bit].mask
    ensures u.node < |nodes| && nodes[u.node].pool == u.pool && Match(nodes, u) && Good(u, elts, pairs)
    ensures |u.key| == n && !u.key[bit].value
    ensures forall o :: o in VecOf(elts, u.pool) ==> o in pairs && bit < |pairs[o]|
    ensures |VecOf(elts, u.pool)| > 0 ==> u.pool >= 0 && u.pool in Pools(t)
    ensures u.node in Nodes(t)
  {
    HasMatch(t, u, nodes);
    HasKey(t, u, elts, pairs);
    HasGood(t, u, elts, pairs);
    HasNodes(t, u);
    LeafBags(u);
  }
}

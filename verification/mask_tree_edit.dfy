/** Adding and deleting one key: `add_del_key_helper` and `add_del_key_leaf` of
  * `goes/elib/mctree/mctree.go`, which change every leaf that the key belongs to in place.
  */
module MaskTreeEdits {
  import opened MaskTrees
  import opened MaskTreePools
  import opened MaskTreeMains

  /** The stored pairs before and after key p, kept at offset o, is added or deleted. */
  ghost predicate Change(pairs: map<nat, Key>, pairs': map<nat, Key>, o: nat, p: Key, isDel: bool) {
    if isDel then o in pairs && pairs[o] == p && pairs' == pairs - {o}
    else (o in pairs ==> pairs[o] == p) && pairs' == pairs[o := p]
  }

  function Edited(vec: seq<nat>, o: nat, isDel: bool): seq<nat> {
    if isDel then Kept(vec, x => x != o) else if o in vec then vec else vec + [o]
  }

  lemma {:induction false} KeptOut(vec: seq<nat>, o: nat)
    requires NoDup(vec)
    ensures |Kept(vec, x => x != o)| == if o in vec then |vec| - 1 else |vec|
  {
    if |vec| > 0 {
      var rest := vec[..|vec| - 1];
      assert vec == rest + [vec[|vec| - 1]];
      assert NoDup(rest);
      KeptOut(rest, o);
      if vec[|vec| - 1] == o {
        assert o !in rest;
      }
    }
  }

  lemma EditHolds(vec: seq<nat>, key: Key, pairs: map<nat, Key>, pairs': map<nat, Key>, o: nat, p: Key, isDel: bool)
    requires Holds(vec, key, pairs) && Compatible(p, key) && Change(pairs, pairs', o, p, isDel)
    ensures Holds(Edited(vec, o, isDel), key, pairs')
    ensures isDel ==> o in vec && |Edited(vec, o, isDel)| == |vec| - 1
    ensures !isDel ==> |Edited(vec, o, isDel)| == |vec| + (if o in pairs then 0 else 1)
  {
    if isDel {
      KeptElems(vec, x => x != o);
      KeptOut(vec, o);
    }
  }

  lemma SkipHolds(vec: seq<nat>, key: Key, pairs: map<nat, Key>, pairs': map<nat, Key>, o: nat, p: Key, isDel: bool)
    requires Holds(vec, key, pairs) && !Compatible(p, key) && Change(pairs, pairs', o, p, isDel)
    ensures Holds(vec, key, pairs')
  {
  }

  /** A subtree that the key does not belong to is good for the new pairs as it is. */
  lemma {:induction false} SkipGood(t: Tree, elts: seq<Shared>, pairs: map<nat, Key>, pairs': map<nat, Key>,
                                    o: nat, p: Key, isDel: bool)
    requires Good(t, elts, pairs) && !Compatible(p, t.key) && |p| == |t.key| && Change(pairs, pairs', o, p, isDel)
    ensures Good(t, elts, pairs')
  {
    hide Holds, Change, Compatible;
    match t
    case Leaf(_, key, pool) =>
      SkipHolds(VecOf(elts, pool), key, pairs, pairs', o, p, isDel);
    case Fork(_, key, bit, t0, t1) =>
      GoesIff(p, key, bit, false);
      GoesIff(p, key, bit, true);
      SkipGood(t0, elts, pairs, pairs', o, p, isDel);
      SkipGood(t1, elts, pairs, pairs', o, p, isDel);
  }

  /** `add_del_occupancy` for a leaf of l pairs. */
  function Occupied(c: Cost, l: int, isDel: bool): Cost {
    if isDel then Cost(c.occupancy - 1, c.occupancy2 + 1 - 2 * l, if l == 1 then c.leafs - 1 else c.leafs)
    else Cost(c.occupancy + 1, c.occupancy2 + 1 + 2 * l, if l == 0 then c.leafs + 1 else c.leafs)
  }

  lemma OccupiedBy(c: Cost, l: nat, isDel: bool)
    requires isDel ==> l > 0
    ensures Occupied(c, l, isDel) == Plus(Minus(c, LeafCost(l)), LeafCost(if isDel then l - 1 else l + 1))
  {
  }

  /** `pair_offsets.get` for a leaf without a vector. */
  method FirstVec(m: Pool, ghost pb: multiset<int>) returns (w: int)
    requires RefsOk(m.elts, m.eltFree, pb)
    modifies m`elts, m`eltFree
    ensures RefsOk(m.elts, m.eltFree, pb + multiset{w}) && 0 <= w < |m.elts| && w !in pb && m.elts[w].vec == []
    ensures KeepsOn(old(m.elts), m.elts, pb)
  {
    w := m.GetVec(1, pb);
    m.elts := m.elts[w := m.elts[w].(vec := [])];
  }

  /** The leaf's pairs moved to another vector, as `HashResize` does. */
  method MoveVec(m: Pool, v: nat, ghost pb: multiset<int>) returns (w: int)
    requires RefsOk(m.elts, m.eltFree, pb) && v in pb && pb[v] == 1
    modifies m`elts, m`eltFree
    ensures RefsOk(m.elts, m.eltFree, pb - multiset{v} + multiset{w}) && 0 <= w < |m.elts| && w !in pb - multiset{v}
    ensures m.elts[w].vec == old(m.elts[v].vec)
    ensures KeepsOn(old(m.elts), m.elts, pb - multiset{v})
  {
    var vec := m.elts[v].vec;
    w := m.GetVec(if |vec| == 0 then 1 else |vec|, pb);
    m.elts := m.elts[w := m.elts[w].(vec := vec)];
    var freed := m.PutVec(v, pb + multiset{w});
    assert pb + multiset{w} - multiset{v} == pb - multiset{v} + multiset{w};
  }

  lemma Unshared(pb: multiset<int>, v: int)
    requires pb[v] == 1
    ensures v in pb && v !in pb - multiset{v} && pb - multiset{v} + multiset{v} == pb
  {
  }

  /** A vector that only this leaf uses, holding the leaf's pairs. */
  method OwnVec(m: Pool, v: int, ghost pb: multiset<int>, ghost rest: multiset<int>) returns (w: int)
    requires RefsOk(m.elts, m.eltFree, pb) && -1 <= v < |m.elts|
    requires if v >= 0 then pb[v] == 1 && rest == pb - multiset{v} else rest == pb
    modifies m`elts, m`eltFree
    ensures RefsOk(m.elts, m.eltFree, rest + multiset{w}) && 0 <= w < |m.elts| && w !in rest
    ensures m.elts[w].vec == old(VecOf(m.elts, v))
    ensures KeepsOn(old(m.elts), m.elts, rest)
  {
    hide RefsOk;
    var move: bool := *;
    if v < 0 {
      w := FirstVec(m, pb);
    } else if move {
      w := MoveVec(m, v, pb);
    } else {
      Unshared(pb, v);
      w := v;
    }
  }

  /** `add_del_key_leaf`. The order of pairs inside the leaf's vector is not the source's hash order. */
  method EditLeaf(m: Pool, i: nat, o: nat, isDel: bool, ghost u: Tree, ghost nb: multiset<nat>, ghost pb: multiset<int>)
    returns (ghost pool: int, l: nat)
    requires m.Uses(nb, pb) && u.Leaf? && u.node == i && Match(m.nodes, u) && i in nb
    requires -1 <= u.pool < |m.elts| && (u.pool >= 0 ==> pb[u.pool] == 1)
    requires isDel ==> o in VecOf(m.elts, u.pool)
    modifies m
    ensures Match(m.nodes, Leaf(i, u.key, pool)) && 0 <= pool < |m.elts| && pool !in pb - Pools(u)
    ensures m.Uses(nb, pb - Pools(u) + multiset{pool})
    ensures VecOf(m.elts, pool) == Edited(old(VecOf(m.elts, u.pool)), o, isDel) && l == |old(VecOf(m.elts, u.pool))|
    ensures Keeps(old(m.nodes), m.nodes, nb - multiset{i}) && KeepsOn(old(m.elts), m.elts, pb - Pools(u))
  {
    hide NodesOk, RefsOk, Pools, Keeps, KeepsOn, Edited;
    ghost var nodes0, elts0, rest := m.nodes, m.elts, pb - Pools(u);
    LeafBags(u);
    assert pb - multiset{} == pb;
    OnceOut(|m.nodes|, m.nodeFree, nb, i);
    l := |VecOf(m.elts, m.nodes[i].pool)|;
    var w := OwnVec(m, m.nodes[i].pool, pb, rest);
    ghost var elts1 := m.elts;
    m.nodes := m.nodes[i := m.nodes[i].(pool := w)];
    m.elts := m.elts[w := m.elts[w].(vec := Edited(m.elts[w].vec, o, isDel))];
    KeepsPut(nodes0, i, m.nodes[i], nb - multiset{i});
    EditOne(elts0, elts1, m.elts, m.eltFree, rest, rest + multiset{w}, w);
    pool := w;
  }

  lemma EditOne(a: seq<Shared>, b: seq<Shared>, c: seq<Shared>, free: set<nat>, rest: multiset<int>,
                pb: multiset<int>, w: int)
    requires KeepsOn(a, b, rest) && 0 <= w < |b| && w !in rest && RefsOk(b, free, pb)
    requires |c| == |b| && c == b[w := b[w].(vec := c[w].vec)]
    ensures KeepsOn(a, c, rest) && RefsOk(c, free, pb)
  {
  }

  ghost predicate Once(bag: multiset<int>) {
    forall v :: bag[v] <= 1
  }

  /** The kept cost has moved by the change from a to b: exactly, or by strictly more pairs than that. */
  ghost predicate Moved(c: Cost, c': Cost, a: Cost, b: Cost, exact: bool) {
    var want := Plus(Minus(c, a), b);
    if exact then c' == want else c'.occupancy > want.occupancy
  }

  lemma MovedBoth(c: Cost, c': Cost, c'': Cost, a0: Cost, b0: Cost, a1: Cost, b1: Cost, exact: bool,
                  visit0: bool, visit1: bool)
    requires visit0 || visit1
    requires if visit0 then Moved(c, c', a0, b0, exact) else c' == c && a0 == b0
    requires if visit1 then Moved(c', c'', a1, b1, exact) else c'' == c' && a1 == b1
    ensures Moved(c, c'', Plus(a0, a1), Plus(b0, b1), exact)
  {
  }

  /** What editing one tree among others in the pools establishes. */
  ghost predicate EditedTree(t: Tree, g: Tree, nodes: seq<Node>, nodes': seq<Node>, elts: seq<Shared>,
                             elts': seq<Shared>,
                             pairs': map<nat, Key>, nout: multiset<nat>, pout: multiset<int>) {
    && Match(nodes', g) && g.node == t.node && g.key == t.key && Nodes(g) == Nodes(t)
    && Good(g, elts', pairs') && Once(pout + Pools(g))
    && Keeps(nodes, nodes', nout) && KeepsOn(elts, elts', pout)
  }

  method EditLeafTree(m: Pool, i: nat, p: Key, o: nat, isDel: bool, c: Cost, ghost t: Tree, ghost nout: multiset<nat>,
                      ghost pout: multiset<int>, ghost pairs: map<nat, Key>, ghost pairs': map<nat, Key>)
    returns (ghost g: Tree, c': Cost)
    requires m.Uses(nout + Nodes(t), pout + Pools(t)) && Once(pout + Pools(t))
    requires t.Leaf? && Match(m.nodes, t) && t.node == i && Good(t, m.elts, pairs)
    requires Change(pairs, pairs', o, p, isDel) && Compatible(p, t.key)
    modifies m
    ensures m.Uses(nout + Nodes(g), pout + Pools(g))
    ensures EditedTree(t, g, old(m.nodes), m.nodes, old(m.elts), m.elts, pairs', nout, pout)
    ensures Moved(c, c', CostOf(t, old(m.elts)), CostOf(g, m.elts), isDel || o !in pairs)
  {
    hide NodesOk, RefsOk, Keeps, KeepsOn, Edited, Change, Holds, Kept, Compatible;
    LeafBags(t);
    LeafOut(nout, pout, t);
    ghost var vec := VecOf(m.elts, t.pool);
    EditHolds(vec, t.key, pairs, pairs', o, p, isDel);
    var pool, l := EditLeaf(m, i, o, isDel, t, nout + Nodes(t), pout + Pools(t));
    c' := Occupied(c, l, isDel);
    g := Leaf(i, t.key, pool);
    LeafBags(g);
    OnceMore(pout, pool);
    LeafMoved(c, |vec|, |Edited(vec, o, isDel)|, isDel, isDel || o !in pairs);
  }

  lemma LeafMoved(c: Cost, l: nat, l': nat, isDel: bool, exact: bool)
    requires isDel ==> exact && l > 0 && l' == l - 1
    requires !isDel ==> l' == l + (if exact then 1 else 0)
    ensures Moved(c, Occupied(c, l, isDel), LeafCost(l), LeafCost(l'), exact)
  {
    OccupiedBy(c, l, isDel);
  }

  lemma LeafOut(nout: multiset<nat>, pout: multiset<int>, t: Tree)
    requires t.Leaf? && Once(pout + Pools(t))
    ensures t.node in nout + Nodes(t) && nout + Nodes(t) - multiset{t.node} == nout
    ensures pout + Pools(t) - Pools(t) == pout
    ensures t.pool >= 0 ==> (pout + Pools(t))[t.pool] == 1
    ensures Once(pout)
  {
    forall v ensures pout[v] <= (pout + Pools(t))[v] {
    }
    if t.pool >= 0 {
      assert (pout + Pools(t))[t.pool] == pout[t.pool] + 1;
    }
  }

  lemma OnceMore(pout: multiset<int>, v: int)
    requires Once(pout) && v !in pout
    ensures Once(pout + multiset{v})
  {
    forall x ensures (pout + multiset{v})[x] <= 1 {
      if x == v { assert pout[x] == 0; }
    }
  }

  /** `add_del_key_helper`. */
  method EditTree(m: Pool, ni: nat, p: Key, o: nat, isDel: bool, c: Cost, ghost t: Tree, ghost nout: multiset<nat>,
                  ghost pout: multiset<int>, ghost pairs: map<nat, Key>, ghost pairs': map<nat, Key>)
    returns (ghost g: Tree, c': Cost)
    requires m.Uses(nout + Nodes(t), pout + Pools(t)) && Once(pout + Pools(t))
    requires Match(m.nodes, t) && t.node == ni && Good(t, m.elts, pairs)
    requires Change(pairs, pairs', o, p, isDel) && Compatible(p, t.key)
    modifies m
    ensures m.Uses(nout + Nodes(g), pout + Pools(g))
    ensures EditedTree(t, g, old(m.nodes), m.nodes, old(m.elts), m.elts, pairs', nout, pout)
    ensures Moved(c, c', CostOf(t, old(m.elts)), CostOf(g, m.elts), isDel || o !in pairs)
    decreases t, 1
  {
    if m.nodes[ni].sub0 >= 0 && m.nodes[ni].sub1 >= 0 {
      g, c' := EditFork(m, ni, p, o, isDel, c, t, nout, pout, pairs, pairs');
    } else {
      g, c' := EditLeafTree(m, ni, p, o, isDel, c, t, nout, pout, pairs, pairs');
    }
  }

  /** One sub-node of a fork, visited only when the key goes there. */
  method EditSub(m: Pool, ni: nat, visit: bool, p: Key, o: nat, isDel: bool, c: Cost, ghost t: Tree,
                 ghost nout: multiset<nat>, ghost pout: multiset<int>, ghost pairs: map<nat, Key>,
                 ghost pairs': map<nat, Key>)
    returns (ghost g: Tree, c': Cost)
    requires m.Uses(nout + Nodes(t), pout + Pools(t)) && Once(pout + Pools(t))
    requires Match(m.nodes, t) && t.node == ni && Good(t, m.elts, pairs)
    requires Change(pairs, pairs', o, p, isDel) && |p| == |t.key| && (visit <==> Compatible(p, t.key))
    modifies m
    ensures m.Uses(nout + Nodes(g), pout + Pools(g))
    ensures EditedTree(t, g, old(m.nodes), m.nodes, old(m.elts), m.elts, pairs', nout, pout)
    ensures visit ==> Moved(c, c', CostOf(t, old(m.elts)), CostOf(g, m.elts), isDel || o !in pairs)
    ensures !visit ==> c' == c && CostOf(t, old(m.elts)) == CostOf(g, m.elts)
    decreases t, 2
  {
    hide NodesOk, RefsOk, Nodes, Pools, Good, Match, Change, Compatible, CostOf;
    if visit {
      g, c' := EditTree(m, ni, p, o, isDel, c, t, nout, pout, pairs, pairs');
    } else {
      SkipGood(t, m.elts, pairs, pairs', o, p, isDel);
      g, c' := t, c;
    }
  }

  method EditFork(m: Pool, ni: nat, p: Key, o: nat, isDel: bool, c: Cost, ghost t: Tree, ghost nout: multiset<nat>,
                  ghost pout: multiset<int>, ghost pairs: map<nat, Key>, ghost pairs': map<nat, Key>)
    returns (ghost g: Tree, c': Cost)
    requires m.Uses(nout + Nodes(t), pout + Pools(t)) && Once(pout + Pools(t))
    requires t.Fork? && Match(m.nodes, t) && t.node == ni && Good(t, m.elts, pairs)
    requires Change(pairs, pairs', o, p, isDel) && Compatible(p, t.key)
    modifies m
    ensures m.Uses(nout + Nodes(g), pout + Pools(g))
    ensures EditedTree(t, g, old(m.nodes), m.nodes, old(m.elts), m.elts, pairs', nout, pout)
    ensures Moved(c, c', CostOf(t, old(m.elts)), CostOf(g, m.elts), isDel || o !in pairs)
    decreases t, 0
  {
    hide NodesOk, RefsOk, Nodes, Pools, Good, Change, Compatible, CostOf, Keeps, KeepsOn, EditedTree, Once, Moved;
    ghost var nodes0, elts0 := m.nodes, m.elts;
    ForkGoes(t, m.elts, pairs, p);
    var b := m.nodes[ni].splitBit;
    var unmasked, v := !p[b].mask, p[b].value;
    ghost var i := multiset{ni};
    ForkOut(t, nout, pout);
    var g0, c1 := EditSub(m, m.nodes[ni].sub0, unmasked || !v, p, o, isDel, c, t.t0, nout + i + Nodes(t.t1),
                          pout + Pools(t.t1), pairs, pairs');
    ghost var nodes1, elts1 := m.nodes, m.elts;
    FirstEdited(t, g0, nodes0, nodes1, elts0, elts1, pairs, pairs', nout, pout);
    ghost var g1;
    g1, c' := EditSub(m, m.nodes[ni].sub1, unmasked || v, p, o, isDel, c1, t.t1, nout + i + Nodes(g0),
                      pout + Pools(g0), pairs, pairs');
    g := Fork(ni, t.key, t.bit, g0, g1);
    BothEdited(t, g, g0, g1, nodes0, nodes1, m.nodes, elts0, elts1, m.elts, pairs, pairs', nout, pout);
    MovedBoth(c, c1, c', CostOf(t.t0, elts0), CostOf(g0, elts1), CostOf(t.t1, elts1), CostOf(g1, m.elts),
              isDel || o !in pairs, unmasked || !v, unmasked || v);
  }

  lemma {:induction false} GoodRange(t: Tree, elts: seq<Shared>, pairs: map<nat, Key>)
    requires Good(t, elts, pairs)
    ensures forall v :: v in Pools(t) ==> 0 <= v < |elts|
  {
    if t.Fork? {
      GoodRange(t.t0, elts, pairs);
      GoodRange(t.t1, elts, pairs);
      assert forall v :: v in Pools(t) ==> v in Pools(t.t0) || v in Pools(t.t1);
    }
  }

  lemma ForkGoes(t: Tree, elts: seq<Shared>, pairs: map<nat, Key>, p: Key)
    requires t.Fork? && Good(t, elts, pairs) && Compatible(p, t.key)
    ensures |p| == |t.key| == |t.t0.key| == |t.t1.key| && t.bit < |p|
    ensures Good(t.t0, elts, pairs) && Good(t.t1, elts, pairs)
    ensures Compatible(p, t.t0.key) <==> !p[t.bit].mask || !p[t.bit].value
    ensures Compatible(p, t.t1.key) <==> !p[t.bit].mask || p[t.bit].value
  {
    GoesIff(p, t.key, t.bit, false);
    GoesIff(p, t.key, t.bit, true);
  }

  lemma ForkOut(t: Tree, nout: multiset<nat>, pout: multiset<int>)
    requires t.Fork?
    ensures nout + Nodes(t) == nout + multiset{t.node} + Nodes(t.t1) + Nodes(t.t0)
    ensures pout + Pools(t) == pout + Pools(t.t1) + Pools(t.t0)
  {
  }

  lemma BagTurn<T>(a: multiset<T>, b: multiset<T>, c: multiset<T>)
    ensures a + b + c == a + c + b
  {
  }

  /** Between the two sub-nodes: the second is as it was. */
  lemma FirstEdited(t: Tree, g0: Tree, nodes: seq<Node>, nodes': seq<Node>, elts: seq<Shared>, elts': seq<Shared>,
                    pairs: map<nat, Key>, pairs': map<nat, Key>, nout: multiset<nat>, pout: multiset<int>)
    requires t.Fork? && Match(nodes, t) && Good(t.t1, elts, pairs)
    requires EditedTree(t.t0, g0, nodes, nodes', elts, elts', pairs', nout + multiset{t.node} + Nodes(t.t1),
                        pout + Pools(t.t1))
    ensures nout + multiset{t.node} + Nodes(t.t1) + Nodes(g0) == nout + multiset{t.node} + Nodes(g0) + Nodes(t.t1)
    ensures pout + Pools(t.t1) + Pools(g0) == pout + Pools(g0) + Pools(t.t1)
    ensures Once(pout + Pools(g0) + Pools(t.t1))
    ensures Match(nodes', t.t1) && Good(t.t1, elts', pairs) && CostOf(t.t1, elts) == CostOf(t.t1, elts')
    ensures t.node < |nodes| && t.node < |nodes'| && nodes'[t.node] == nodes[t.node]
  {
    hide Nodes, Pools, Good, CostOf, Keeps, KeepsOn, Once;
    BagTurn(nout + multiset{t.node}, Nodes(t.t1), Nodes(g0));
    BagTurn(pout, Pools(t.t1), Pools(g0));
    var nb := nout + multiset{t.node} + Nodes(t.t1);
    assert Nodes(t.t1) <= nb && t.node in nb;
    KeepsOne(nodes, nodes', nb, t.node);
    MatchKept(nodes, nodes', t.t1, nb);
    GoodRange(t.t1, elts, pairs);
    KeptVecs(t.t1, elts, elts', pairs, pout + Pools(t.t1));
  }

  lemma KeptVecs(t: Tree, elts: seq<Shared>, elts': seq<Shared>, pairs: map<nat, Key>, pb: multiset<int>)
    requires Good(t, elts, pairs) && Pools(t) <= pb && KeepsOn(elts, elts', pb)
    ensures Good(t, elts', pairs) && CostOf(t, elts) == CostOf(t, elts')
  {
    GoodRange(t, elts, pairs);
    hide Pools, Good, CostOf;
    assert forall v :: v in Pools(t) ==> v in pb;
    GoodFrame(t, elts, elts', pairs);
  }

  lemma BothEdited(t: Tree, g: Tree, g0: Tree, g1: Tree, nodes: seq<Node>, nodes1: seq<Node>, nodes2: seq<Node>,
                   elts: seq<Shared>, elts1: seq<Shared>, elts2: seq<Shared>, pairs: map<nat, Key>,
                   pairs': map<nat, Key>,
                   nout: multiset<nat>, pout: multiset<int>)
    requires t.Fork? && Match(nodes, t) && Good(t, elts, pairs) && g == Fork(t.node, t.key, t.bit, g0, g1)
    requires EditedTree(t.t0, g0, nodes, nodes1, elts, elts1, pairs', nout + multiset{t.node} + Nodes(t.t1),
                        pout + Pools(t.t1))
    requires EditedTree(t.t1, g1, nodes1, nodes2, elts1, elts2, pairs', nout + multiset{t.node} + Nodes(g0),
                        pout + Pools(g0))
    ensures EditedTree(t, g, nodes, nodes2, elts, elts2, pairs', nout, pout)
    ensures nout + multiset{t.node} + Nodes(g0) + Nodes(g1) == nout + Nodes(g)
    ensures pout + Pools(g0) + Pools(g1) == pout + Pools(g)
    ensures CostOf(t, elts) == Plus(CostOf(t.t0, elts), CostOf(t.t1, elts1))
    ensures CostOf(g, elts2) == Plus(CostOf(g0, elts1), CostOf(g1, elts2))
  {
    hide Nodes, Pools, Keeps, KeepsOn, Once, Holds, VecOf, CostOf;
    var nb0, pb0 := nout + multiset{t.node} + Nodes(t.t1), pout + Pools(t.t1);
    var nb1, pb1 := nout + multiset{t.node} + Nodes(g0), pout + Pools(g0);
    ForkOut(g, nout, pout);
    BagTurn(nout + multiset{t.node}, Nodes(g0), Nodes(g1));
    BagTurn(pout, Pools(g0), Pools(g1));
    InBags(nout, t.node, Nodes(t.t1), Nodes(g0), nb0, nb1);
    PoolBags(pout, Pools(t.t1), Pools(g0), pb0, pb1);
    KeepsOne(nodes, nodes1, nb0, t.node);
    KeepsOne(nodes1, nodes2, nb1, t.node);
    MatchKept(nodes1, nodes2, g0, nb1);
    KeepsLess(nodes, nodes1, nb0, nout);
    KeepsLess(nodes1, nodes2, nb1, nout);
    KeepsTrans(nodes, nodes1, nodes2, nout);
    KeepsOnTrans(elts, elts1, elts2, pb0, pb1, pout);
    KeptVecs(g0, elts1, elts2, pairs', pb1);
    KeptVecs(t.t1, elts, elts1, pairs, pb0);
    BothNodes(t, g);
    BothCosts(t, elts);
    BothCosts(g, elts2);
  }

  lemma BothCosts(t: Tree, elts: seq<Shared>)
    requires t.Fork?
    ensures CostOf(t, elts) == Plus(CostOf(t.t0, elts), CostOf(t.t1, elts))
  {
  }

  lemma BothNodes(t: Tree, g: Tree)
    requires t.Fork? && g.Fork? && t.node == g.node && Nodes(t.t0) == Nodes(g.t0) && Nodes(t.t1) == Nodes(g.t1)
    ensures Nodes(t) == Nodes(g)
  {
  }

  lemma InBags(nout: multiset<nat>, i: nat, a: multiset<nat>, b: multiset<nat>, nb0: multiset<nat>, nb1: multiset<nat>)
    requires nb0 == nout + multiset{i} + a && nb1 == nout + multiset{i} + b
    ensures nout <= nb0 && nout <= nb1 && i in nb0 && i in nb1 && b <= nb1
  {
  }

  lemma PoolBags(pout: multiset<int>, a: multiset<int>, b: multiset<int>, pb0: multiset<int>, pb1: multiset<int>)
    requires pb0 == pout + a && pb1 == pout + b
    ensures pout <= pb0 && pout <= pb1 && a <= pb0 && b <= pb1
  {
  }

  lemma KeepsOnTrans(a: seq<Shared>, b: seq<Shared>, c: seq<Shared>, pb0: multiset<int>, pb1: multiset<int>,
                     pout: multiset<int>)
    requires KeepsOn(a, b, pb0) && KeepsOn(b, c, pb1) && pout <= pb0 && pout <= pb1
    ensures KeepsOn(a, c, pout)
  {
    assert forall v :: v in pout ==> v in pb0 && v in pb1;
  }
}

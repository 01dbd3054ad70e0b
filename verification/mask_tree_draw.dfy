/** The random draws of `Step` in `goes/elib/mctree/mctree.go`: a walk down the trial tree and one coin more. */
module MaskTreeDraws {
  import opened MaskTrees
  import opened MaskTreePools
  import opened MaskTreeSteps

  /** The side taken at each depth, and the coin that prefers a join. */
  datatype Draw = Draw(sides: nat -> bool, toss: bool)

  /** What `Step` asks of a split, and whether the temperature is zero. */
  datatype Rules = Rules(limit: nat, minPairs: nat, cold: bool)

  /** The leaf that a walk from depth k ends at. */
  function LeafAt(t: Tree, sides: nat -> bool, k: nat): Tree {
    if t.Leaf? then t else LeafAt(if sides(k) then t.t1 else t.t0, sides, k + 1)
  }

  /** The last fork on the way. */
  function ForkAt(t: Tree, sides: nat -> bool, k: nat): Tree
    requires t.Fork?
  {
    var sub := if sides(k) then t.t1 else t.t0;
    if sub.Leaf? then t else ForkAt(sub, sides, k + 1)
  }

  ghost predicate Joins(t: Tree, d: Draw) {
    d.toss && t.Fork? && Joinable(ForkAt(t, d.sides, 0))
  }

  /** A leaf large enough to split, in a tree with room for one more. */
  ghost predicate Splittable(u: Tree, elts: seq<Shared>, leafs: int, rules: Rules) {
    u.Leaf? && leafs + 1 <= rules.limit && |VecOf(elts, u.pool)| >= rules.minPairs
  }

  /** The draw joins two leaves, or tries to split one. */
  ghost predicate Does(t: Tree, elts: seq<Shared>, leafs: int, rules: Rules, d: Draw) {
    Joins(t, d) || Splittable(LeafAt(t, d.sides, 0), elts, leafs, rules)
  }

  /** The draw panics: it turns down the join of two empty leaves, or wants a random pair of an empty leaf. */
  ghost predicate Fails(t: Tree, elts: seq<Shared>, leafs: int, rules: Rules, d: Draw) {
    if Joins(t, d) then
      var u := ForkAt(t, d.sides, 0);
      rules.cold && VecOf(elts, u.t0.pool) == VecOf(elts, u.t1.pool) == []
    else
      var u := LeafAt(t, d.sides, 0);
      Splittable(u, elts, leafs, rules) && VecOf(elts, u.pool) == []
  }

  /** One tree is the other with one leaf split or two leaves joined, where the draw led. */
  ghost predicate EditedBy(t: Tree, t': Tree, d: Draw) {
    if Joins(t, d) then
      var u := ForkAt(t, d.sides, 0);
      Has(t, u) && exists pos :: t' == Graft(t, u, Leaf(u.node, u.key, pos))
    else
      var u := LeafAt(t, d.sides, 0);
      Has(t, u) && exists bit: nat, n0: nat, n1: nat, p0: int, p1: int ::
        bit < |u.key| && !u.key[bit].mask && t' == Graft(t, u, SplitOf(u, bit, n0, n1, p0, p1))
  }

  ghost predicate SomeEdits(t: Tree, t': Tree, draws: seq<Draw>) {
    exists k :: 0 <= k < |draws| && EditedBy(t, t', draws[k])
  }

  /** The same, of a clone of the tree. */
  ghost predicate CloneEdits(t: Tree, t': Tree, draws: seq<Draw>) {
    exists c :: SameShape(t, c) && SomeEdits(c, t', draws)
  }

  lemma CloneEdited(t: Tree, c: Tree, t': Tree, draws: seq<Draw>)
    requires SameShape(t, c) && SomeEdits(c, t', draws)
    ensures CloneEdits(t, t', draws)
  {
  }

  lemma {:induction false} SameShapeSelf(t: Tree)
    ensures SameShape(t, t)
  {
    if t.Fork? {
      SameShapeSelf(t.t0);
      SameShapeSelf(t.t1);
    }
  }

  ghost predicate SomeDoes(t: Tree, elts: seq<Shared>, leafs: int, rules: Rules, draws: seq<Draw>) {
    exists k :: 0 <= k < |draws| && Does(t, elts, leafs, rules, draws[k])
  }

  /** The first draw that does something panics. */
  ghost predicate FirstFails(t: Tree, elts: seq<Shared>, leafs: int, rules: Rules, draws: seq<Draw>) {
    exists k :: (0 <= k < |draws| && Fails(t, elts, leafs, rules, draws[k])
      && forall j :: 0 <= j < k ==> !Does(t, elts, leafs, rules, draws[j]))
  }

  /** Every bit of the pair is masked by the key. */
  predicate Masked(p: Key, k: Key) {
    |p| == |k| && forall b :: 0 <= b < |p| && p[b].mask ==> k[b].mask
  }

  /** A join that lowers the cost is accepted; else none is at temperature zero, and at any other one that leaves the
    * cost as it is. */
  ghost predicate JoinRule(was: Cost, c: Cost, cold: bool, accept: bool) {
    && (Weight(c) < Weight(was) ==> accept)
    && (accept ==> Weight(c) < Weight(was) || !cold)
    && (c.occupancy == was.occupancy && c.occupancy2 == was.occupancy2 && !cold ==> accept)
  }

  /** A split is accepted when the cost falls; else never at temperature zero, and only with pairs on both sides. */
  ghost predicate SplitRule(was: Cost, vec: seq<nat>, pairs: map<nat, Key>, bit: nat, cold: bool, accept: bool) {
    var c := SplitCostAt(was, vec, pairs, bit);
    && (Weight(c) < Weight(was) ==> accept)
    && (accept && Weight(c) >= Weight(was) ==> !cold && BothHalves(vec, pairs, bit))
  }

  /** What comes of a leaf of these pairs: one of them is drawn, and a bit that it masks and the key does not. */
  ghost predicate SplitVerdict(was: Cost, vec: seq<nat>, key: Key, pairs: map<nat, Key>, cold: bool, accept: bool) {
    exists o :: (o in vec && o in pairs
      && if Masked(pairs[o], key) then !accept else SomeBit(was, vec, key, pairs, o, cold, accept))
  }

  ghost predicate SomeBit(was: Cost, vec: seq<nat>, key: Key, pairs: map<nat, Key>, o: nat, cold: bool, accept: bool)
    requires o in pairs
  {
    exists bit: nat :: (bit < |key| && bit < |pairs[o]| && pairs[o][bit].mask && !key[bit].mask
      && SplitRule(was, vec, pairs, bit, cold, accept))
  }

  /** Whether a draw that does something is accepted. */
  ghost predicate Verdict(t: Tree, elts: seq<Shared>, was: Cost, pairs: map<nat, Key>, rules: Rules, d: Draw,
                          accept: bool) {
    if Joins(t, d) then
      var u := ForkAt(t, d.sides, 0);
      JoinRule(was, JoinCostAt(was, VecOf(elts, u.t0.pool), VecOf(elts, u.t1.pool), pairs, u.bit), rules.cold, accept)
    else
      var u := LeafAt(t, d.sides, 0);
      u.Leaf? && SplitVerdict(was, VecOf(elts, u.pool), u.key, pairs, rules.cold, accept)
  }

  /** The same of the first draw of a row that does something. */
  ghost predicate FirstVerdict(t: Tree, elts: seq<Shared>, was: Cost, pairs: map<nat, Key>, rules: Rules,
                               draws: seq<Draw>, accept: bool) {
    exists k :: (0 <= k < |draws| && Does(t, elts, was.leafs, rules, draws[k])
      && Verdict(t, elts, was, pairs, rules, draws[k], accept)
      && forall j :: 0 <= j < k ==> !Does(t, elts, was.leafs, rules, draws[j]))
  }

  lemma SameVerdict(a: Tree, b: Tree, elts0: seq<Shared>, elts: seq<Shared>, was: Cost, pairs: map<nat, Key>,
                    rules: Rules, draws: seq<Draw>, accept: bool)
    requires SameShape(a, b) && KeepsVecs(elts0, elts) && |elts0| == |elts|
    requires FirstVerdict(b, elts, was, pairs, rules, draws, accept)
    ensures FirstVerdict(a, elts0, was, pairs, rules, draws, accept)
  {
    hide Does, Fails, Verdict;
    forall d ensures (Does(a, elts0, was.leafs, rules, d) <==> Does(b, elts, was.leafs, rules, d))
      && (Verdict(b, elts, was, pairs, rules, d, accept) ==> Verdict(a, elts0, was, pairs, rules, d, accept))
    {
      SameDraw(a, b, elts0, elts, was.leafs, rules, d);
      VerdictSame(a, b, elts0, elts, was, pairs, rules, d, accept);
    }
  }

  lemma VerdictSame(a: Tree, b: Tree, elts0: seq<Shared>, elts: seq<Shared>, was: Cost, pairs: map<nat, Key>,
                    rules: Rules, d: Draw, accept: bool)
    requires SameShape(a, b) && KeepsVecs(elts0, elts) && |elts0| == |elts|
    ensures Verdict(b, elts, was, pairs, rules, d, accept) ==> Verdict(a, elts0, was, pairs, rules, d, accept)
  {
    hide JoinRule, JoinCostAt, SplitVerdict;
    SameWalk(a, b, d.sides, 0);
    WalkEnds(a, d.sides, 0);
    WalkEnds(b, d.sides, 0);
  }

  /** How a row of draws ends is settled by the first that does something. */
  lemma FirstDecides(t: Tree, elts: seq<Shared>, leafs: int, rules: Rules, draws: seq<Draw>, k: nat)
    requires k < |draws| && Does(t, elts, leafs, rules, draws[k])
    requires forall j :: 0 <= j < k ==> !Does(t, elts, leafs, rules, draws[j])
    ensures SomeDoes(t, elts, leafs, rules, draws)
    ensures FirstFails(t, elts, leafs, rules, draws) <==> Fails(t, elts, leafs, rules, draws[k])
  {
    hide Does, Fails;
    forall d ensures Fails(t, elts, leafs, rules, d) ==> Does(t, elts, leafs, rules, d) {
      FailsDoes(t, elts, leafs, rules, d);
    }
  }

  lemma NoneDo(t: Tree, elts: seq<Shared>, leafs: int, rules: Rules, draws: seq<Draw>)
    requires forall k :: 0 <= k < |draws| ==> !Does(t, elts, leafs, rules, draws[k])
    ensures !SomeDoes(t, elts, leafs, rules, draws) && !FirstFails(t, elts, leafs, rules, draws)
  {
    hide Does, Fails;
    forall d ensures Fails(t, elts, leafs, rules, d) ==> Does(t, elts, leafs, rules, d) {
      FailsDoes(t, elts, leafs, rules, d);
    }
  }

  lemma FailsDoes(t: Tree, elts: seq<Shared>, leafs: int, rules: Rules, d: Draw)
    ensures Fails(t, elts, leafs, rules, d) ==> Does(t, elts, leafs, rules, d)
  {
  }

  /** Some draw does something exactly when the tree is split already, or its one leaf can be. */
  lemma DoableIff(t: Tree, elts: seq<Shared>, leafs: int, rules: Rules)
    ensures (exists d :: Does(t, elts, leafs, rules, d)) <==> t.Fork? || Splittable(t, elts, leafs, rules)
  {
    if t.Fork? {
      var sides := WayToJoin(t, 0);
      assert Does(t, elts, leafs, rules, Draw(sides, true));
    } else if Splittable(t, elts, leafs, rules) {
      assert Does(t, elts, leafs, rules, Draw(k => false, false));
    }
  }

  /** From any depth some walk ends at a fork of two leaves. */
  lemma {:induction false} WayToJoin(t: Tree, k: nat) returns (sides: nat -> bool)
    requires t.Fork?
    ensures Joinable(ForkAt(t, sides, k))
  {
    if t.t0.Leaf? && t.t1.Leaf? {
      sides := j => false;
    } else {
      var on := t.t1.Fork?;
      var rest := WayToJoin(if on then t.t1 else t.t0, k + 1);
      sides := j => if j <= k then on else rest(j);
      SameWay(if on then t.t1 else t.t0, sides, rest, k + 1);
    }
  }

  lemma {:induction false} SameWay(t: Tree, a: nat -> bool, b: nat -> bool, k: nat)
    requires t.Fork? && forall j: nat :: j >= k ==> a(j) == b(j)
    ensures ForkAt(t, a, k) == ForkAt(t, b, k)
  {
    var sub := if a(k) then t.t1 else t.t0;
    if sub.Fork? { SameWay(sub, a, b, k + 1); }
  }

  /** A walk of a clone ends at the clone of the leaf. */
  lemma {:induction false} SameWalk(a: Tree, b: Tree, sides: nat -> bool, k: nat)
    requires SameShape(a, b)
    ensures SameShape(LeafAt(a, sides, k), LeafAt(b, sides, k))
    ensures a.Fork? ==> SameShape(ForkAt(a, sides, k), ForkAt(b, sides, k))
  {
    if a.Fork? {
      SameWalk(if sides(k) then a.t1 else a.t0, if sides(k) then b.t1 else b.t0, sides, k + 1);
    }
  }

  lemma {:induction false} WalkEnds(t: Tree, sides: nat -> bool, k: nat)
    ensures LeafAt(t, sides, k).Leaf? && Has(t, LeafAt(t, sides, k))
    ensures t.Fork? ==> ForkAt(t, sides, k).Fork? && Has(t, ForkAt(t, sides, k))
  {
    if t.Fork? { WalkEnds(if sides(k) then t.t1 else t.t0, sides, k + 1); }
  }

  /** The same draws do something, and the same panic, in a tree and its clone. */
  lemma SameDraws(a: Tree, b: Tree, elts0: seq<Shared>, elts: seq<Shared>, leafs: int, rules: Rules, draws: seq<Draw>)
    requires SameShape(a, b) && KeepsVecs(elts0, elts) && |elts0| == |elts|
    ensures SomeDoes(a, elts0, leafs, rules, draws) <==> SomeDoes(b, elts, leafs, rules, draws)
    ensures FirstFails(a, elts0, leafs, rules, draws) <==> FirstFails(b, elts, leafs, rules, draws)
    ensures a.Fork? || Splittable(a, elts0, leafs, rules) <==> b.Fork? || Splittable(b, elts, leafs, rules)
  {
    hide Does, Fails;
    forall d ensures (Does(a, elts0, leafs, rules, d) <==> Does(b, elts, leafs, rules, d))
      && (Fails(a, elts0, leafs, rules, d) <==> Fails(b, elts, leafs, rules, d))
    {
      SameDraw(a, b, elts0, elts, leafs, rules, d);
    }
  }

  lemma SameDraw(a: Tree, b: Tree, elts0: seq<Shared>, elts: seq<Shared>, leafs: int, rules: Rules, d: Draw)
    requires SameShape(a, b) && KeepsVecs(elts0, elts) && |elts0| == |elts|
    ensures Does(a, elts0, leafs, rules, d) <==> Does(b, elts, leafs, rules, d)
    ensures Fails(a, elts0, leafs, rules, d) <==> Fails(b, elts, leafs, rules, d)
  {
    SameWalk(a, b, d.sides, 0);
    WalkEnds(a, d.sides, 0);
    WalkEnds(b, d.sides, 0);
  }
}

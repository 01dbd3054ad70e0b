/** The Fibonacci heap of goes/elib/fibheap.go. */
module FibHeaps {
  import opened FibLinks
  import opened FibDegree
  import opened FibForest
  import opened FibSize

  /** Negative, zero, positive if element i is less, equal, greater than element j. */
  type Compare = (nat, nat) -> int

  ghost predicate TotalPreorder(cmp: Compare, s: set<nat>) {
    && (forall i, j :: i in s && j in s ==> (cmp(i, j) < 0 <==> !(cmp(j, i) <= 0)))
    && (forall i, j :: i in s && j in s ==> cmp(i, j) <= 0 || cmp(j, i) <= 0)
    && (forall i, j, k :: i in s && j in s && k in s && cmp(i, j) <= 0 && cmp(j, k) <= 0 ==> cmp(i, k) <= 0)
  }

  ghost predicate Least(cmp: Compare, m: nat, s: set<nat>) {
    m in s && forall y :: y in s ==> cmp(m, y) <= 0
  }

  /** No child precedes its parent, edges that touch `x` aside. */
  ghost predicate OrderedBut(l: Links, live: set<nat>, cmp: Compare, x: nat) {
    forall c :: c in live && c != x && At(l, c).sup != NIL && At(l, c).sup != x ==> cmp(At(l, c).sup, c) <= 0
  }

  /** No two roots have the same degree. */
  ghost predicate OneOfEachDegree(l: Links, live: set<nat>) {
    forall x, y :: x in live && y in live && x != y && At(l, x).sup == At(l, y).sup == NIL ==>
      At(l, x).nSub != At(l, y).nSub
  }

  const NoNodes := Shape(map[ROOT := []], map[ROOT := 0])

  const MaxNSub: nat := 32

  // ---- facts about the forest at rest ----

  lemma GrowInv(l: Links, r: Links, sh: Shape, g: Gap)
    requires Inv(l, sh, g) && r.root == l.root && |l.nodes| <= |r.nodes| <= ROOT
    requires r.nodes[..|l.nodes|] == l.nodes
    ensures Inv(r, sh, g)
  {
    forall p | p in sh.kids ensures At(r, p) == At(l, p) {
      assert l.Has(p);
      if p != ROOT { assert r.nodes[p] == r.nodes[..|l.nodes|][p]; }
    }
    GrowTree(l, r, sh, g);
    forall p | p in sh.kids ensures Ring(r, Ring0(sh, p)) {
      assert forall c :: c in sh.kids[p] ==> Child(l, sh, g, p, c);
      assert Ring(l, Ring0(sh, p));
      GrowRing(l, r, Ring0(sh, p));
    }
    forall y | y in sh.kids && y != ROOT ensures DegreeAt(r, sh, g, y) && Spread(Effs(r, g, sh.kids[y])) {
      assert DegreeAt(l, sh, g, y);
      assert forall c :: c in sh.kids[y] ==> Child(l, sh, g, y, c);
      EffsFrame(l, g, r, g, sh.kids[y]);
    }
  }

  lemma GrowTree(l: Links, r: Links, sh: Shape, g: Gap)
    requires Tree(l, sh, g) && |l.nodes| <= |r.nodes| <= ROOT
    requires forall p :: p in sh.kids ==> At(r, p) == At(l, p)
    ensures Tree(r, sh, g)
  {
    forall p, c | p in sh.kids && c in sh.kids[p] ensures Child(r, sh, g, p, c) {
      assert Child(l, sh, g, p, c);
    }
    forall c | c in sh.kids && c != ROOT && c !in g.loose ensures Placed(r, sh, c) {
      assert Placed(l, sh, c);
    }
  }

  lemma GrowRing(l: Links, r: Links, s: seq<nat>)
    requires Ring(l, s) && |l.nodes| <= |r.nodes|
    requires forall c :: c in s ==> At(r, c) == At(l, c)
    ensures Ring(r, s)
  {
    forall i | 0 <= i < |s| ensures Linked(r, s, i) {
      assert Linked(l, s, i) && s[i] in s;
    }
  }

  lemma EmptyInv(l: Links)
    requires l.root.next == ROOT && l.root.prev == ROOT && |l.nodes| <= ROOT
    ensures Inv(l, NoNodes, AtRest)
  {
    assert Linked(l, [ROOT], 0);
    assert Ring0(NoNodes, ROOT) == [ROOT];
  }

  lemma RankBound(sh: Shape) returns (b: nat)
    ensures forall x :: x in sh.rank ==> sh.rank[x] <= b
  {
    b := 0;
    var s := sh.rank.Keys;
    while s != {}
      invariant s <= sh.rank.Keys
      invariant forall x :: x in sh.rank && x !in s ==> sh.rank[x] <= b
      decreases s
    {
      var x :| x in s;
      b := if sh.rank[x] > b then sh.rank[x] else b;
      s := s - {x};
    }
  }

  /** In an ordered heap a root no root precedes is least of all. */
  lemma {:induction false} LeastRoot(l: Links, sh: Shape, cmp: Compare, m: nat, y: nat, bound: nat)
    requires Tree(l, sh, AtRest) && OrderedBut(l, Live(sh), cmp, NIL) && TotalPreorder(cmp, Live(sh))
    requires m in Live(sh) && y in Live(sh)
    requires forall r :: r in sh.kids[ROOT] ==> cmp(m, r) <= 0
    requires forall x :: x in sh.rank ==> sh.rank[x] <= bound
    ensures cmp(m, y) <= 0
    decreases bound - (if y in sh.rank then sh.rank[y] else 0)
  {
    assert Placed(l, sh, y);
    var p := At(l, y).sup;
    if p != NIL {
      assert Child(l, sh, AtRest, p, y);
      LeastRoot(l, sh, cmp, m, p, bound);
      assert cmp(p, y) <= 0;
    }
  }

  function NthRoot(roots: seq<nat>, i: nat): nat { if i < |roots| then roots[i] else ROOT }

  lemma RingOfRoots(l: Links, roots: seq<nat>, i: nat)
    requires Ring(l, [ROOT] + roots) && i <= |roots|
    ensures i > 0 ==> At(l, roots[i-1]).next == NthRoot(roots, i)
    ensures i == 0 ==> l.root.next == NthRoot(roots, i)
  {
    var s := [ROOT] + roots;
    assert Linked(l, s, i);
    assert s[Succ(i, |s|)] == NthRoot(roots, i);
  }

  /** What Add does to a heap at rest once slot `x` exists. */
  lemma AddInv(l: Links, sh: Shape, x: nat, n: Node)
    requires Inv(l, sh, AtRest) && x !in sh.kids && l.Has(x)
    requires n.sub == NIL && n.nSub == 0 && n.sup == NIL
    ensures l.Has(At(Put(l, x, n), ROOT).next)
    ensures Inv(FibLinks.LinkAfter(Put(l, x, n), ROOT, x), RootShape(AddNode(sh, x), x), AtRest)
  {
    Introduce(l, sh, AtRest, x, n);
    var l2, g := Put(l, x, n), AtRest.(loose := AtRest.loose + {x});
    HangRootInv(l2, AddNode(sh, x), g, x);
    PutSame(l, x, n);
    assert g.(loose := g.loose - {x}) == AtRest;
  }

  lemma PutSame(l: Links, x: nat, n: Node)
    requires l.Has(x) && |l.nodes| <= ROOT && n.sup == NIL
    ensures var l2 := Put(l, x, n); Put(l2, x, At(l2, x).(sup := NIL)) == l2
  {
  }

  /** New links `r` in which every node either kept its parent or became a root. */
  ghost predicate OnlyCuts(l: Links, live: set<nat>, r: Links, rest: set<nat>) {
    forall c :: c in rest && At(r, c).sup != NIL ==> c in live && At(r, c).sup == At(l, c).sup
  }

  /** A node that has been told of a lost child is marked, and a root if it was marked before. */
  predicate Told(l: Links, r: Links, p: nat) {
    At(r, p).isMarked && At(r, p).sup == if At(l, p).isMarked then NIL else At(l, p).sup
  }

  lemma CutsCompose(l: Links, live: set<nat>, m: Links, mid: set<nat>, r: Links, rest: set<nat>)
    requires OnlyCuts(l, live, m, mid) && ((m == r && mid == rest) || OnlyCuts(m, mid, r, rest))
    ensures OnlyCuts(l, live, r, rest)
  {
  }

  lemma AllCutsKeepOrder(l: Links, live: set<nat>, r: Links, rest: set<nat>, x: nat)
    requires OnlyCuts(l, live, r, rest)
    requires x in rest ==> At(r, x).sup == NIL
    requires forall c :: c in rest ==> At(r, c).sup != x
    ensures forall cmp: Compare :: OrderedBut(l, live, cmp, x) ==> OrderedBut(r, rest, cmp, NIL)
  {
  }

  class FibHeap {
    var root: Node
    var nodes: seq<Node>
    /** Cached min index in heap. */
    var minIndex: nat
    var minValid: bool

    /** What the links encode. */
    ghost var shape: Shape

    constructor ()
      ensures Valid() && Indices() == {} && !minValid
    {
      root, nodes := ZeroNode, [];
      minIndex, minValid := 0, false;
      shape := NoNodes;
    }

    ghost function L(): Links
      reads this
    {
      Links(root, nodes)
    }

    /** The indices in the heap. */
    ghost function Indices(): set<nat>
      reads this
    {
      Live(shape)
    }

    ghost predicate Valid()
      reads this
    {
      if |nodes| == 0 then shape == NoNodes else Inv(L(), shape, AtRest)
    }

    /** The heap is in `cmp` order and its cache right, whatever is the case of `x`: how things
        stand when the key of `x` has just changed. */
    ghost predicate AgreesBut(cmp: Compare, x: nat)
      reads this
    {
      && OrderedBut(L(), Indices(), cmp, x)
      && (minValid && minIndex != x ==> Least(cmp, minIndex, Indices() - {x}))
    }

    ghost predicate Agrees(cmp: Compare)
      reads this
    {
      && OrderedBut(L(), Indices(), cmp, NIL)
      && (minValid ==> Least(cmp, minIndex, Indices()))
    }

    lemma SupIn()
      requires Valid()
      ensures NIL !in Indices() && forall i :: i in Indices() ==> i < ROOT
      ensures forall c :: c in Indices() && At(L(), c).sup != NIL ==> At(L(), c).sup in Indices()
    {
      if |nodes| > 0 {
        InvFacts(L(), shape, AtRest);
      }
    }

    lemma Weaken(x: nat)
      requires Valid()
      ensures forall cmp: Compare :: Agrees(cmp) ==> AgreesBut(cmp, x)
    {
      SupIn();
    }

    method SetNode(i: nat, n: Node)
      requires L().Has(i) && |nodes| <= ROOT
      modifies `root, `nodes
      ensures L() == Put(old(L()), i, n)
    {
      if i == ROOT {
        root := n;
      } else {
        nodes := nodes[i := n];
      }
    }

    function GetNode(i: nat): Node
      reads this
    {
      At(Links(root, nodes), i)
    }

    method LinkAfter(pi: nat, xi: nat)
      requires L().Has(pi) && L().Has(xi) && L().Has(At(L(), pi).next) && |nodes| <= ROOT
      modifies `root, `nodes
      ensures L() == FibLinks.LinkAfter(old(L()), pi, xi)
    {
      var ni := GetNode(pi).next;
      SetNode(pi, GetNode(pi).(next := xi));
      SetNode(xi, GetNode(xi).(prev := pi, next := ni));
      SetNode(ni, GetNode(ni).(prev := xi));
    }

    method AddRoot(xi: nat)
      requires xi < |nodes| && L().Has(root.next) && |nodes| <= ROOT
      modifies `root, `nodes
      ensures L() == FibLinks.LinkAfter(old(L()), ROOT, xi)
    {
      LinkAfter(ROOT, xi);
    }

    method Unlink(xi: nat)
      requires xi < |nodes| && L().Has(nodes[xi].prev) && L().Has(nodes[xi].next) && |nodes| <= ROOT
      modifies `root, `nodes
      ensures L() == FibLinks.Unlink(old(L()), xi)
    {
      var x := nodes[xi];
      SetNode(x.prev, GetNode(x.prev).(next := x.next));
      SetNode(x.next, GetNode(x.next).(prev := x.prev));
    }

    /** Makes the sentinel of an unused heap and slot `xi` of `nodes`. */
    method Reserve(xi: nat)
      requires Valid() && xi < ROOT
      modifies `root, `nodes
      ensures xi < |nodes| && Inv(L(), shape, AtRest)
      ensures forall c :: c in Indices() ==> At(L(), c) == At(old(L()), c)
    {
      hide FibForest.Inv;
      if |nodes| == 0 {
        root := root.(next := ROOT, prev := ROOT, sup := NIL, sub := NIL);
        EmptyInv(L());
      }
      ghost var l := L();
      InvFacts(l, shape, AtRest);
      if |nodes| <= xi {
        nodes := nodes + seq(xi + 1 - |nodes|, _ => ZeroNode);
        GrowInv(l, L(), shape, AtRest);
      }
    }

    /** Add a new index to the heap. */
    method Add(xi: nat)
      requires Valid() && xi < ROOT && xi !in Indices()
      modifies this
      ensures Valid() && Indices() == old(Indices()) + {xi} && !minValid
      ensures forall cmp: Compare :: old(AgreesBut(cmp, xi)) ==> Agrees(cmp)
    {
      hide FibForest.Inv;
      Reserve(xi);
      minValid := false;
      ghost var l := L();
      InvFacts(l, shape, AtRest);
      SetNode(xi, nodes[xi].(sup := NIL, sub := NIL, nSub := 0, isMarked := false));
      AddInv(l, shape, xi, nodes[xi]);
      AddRoot(xi);
      shape := RootShape(AddNode(shape, xi), xi);
      AllCutsKeepOrder(old(L()), old(Indices()), L(), Indices(), xi);
    }

    /** Makes a root of `ci`. */
    method MakeRoot(ci: nat)
      requires ci < |nodes| <= ROOT && L().Has(root.next)
      modifies `root, `nodes
      ensures L() == HangRoot(old(L()), ci)
    {
      SetNode(ci, nodes[ci].(sup := NIL));
      AddRoot(ci);
    }

    /** Makes roots of the children of a node that has left the forest. */
    method CutChildren(xi: nat, ghost g: Gap, ghost s: seq<nat>)
      requires xi < |nodes| && Inv(L(), shape, g) && xi !in shape.kids
      requires nodes[xi].sub == FirstOf(s) && Ring(L(), s) && SetOf(s) <= g.loose
      modifies `root, `nodes, `shape
      ensures Inv(L(), shape, g.(loose := g.loose - SetOf(s)))
      ensures Scattered(old(L()), old(shape), L(), shape, SetOf(s))
    {
      hide FibForest.Inv, FibLinks.Ring, Scattered, HangRoot;
      var bi := nodes[xi].sub;
      ghost var l0, sh0 := L(), shape;
      InvFacts(l0, sh0, g);
      ScatteredSelf(l0, sh0);
      assert SetOf(s[..0]) == {};
      if bi == NIL {
        assert NIL !in SetOf(s);
        NoneListed(s);
        assert g.loose - SetOf(s) == g.loose;
        return;
      }
      var ci := bi;
      ghost var k, h := 0, g;
      while true
        invariant k < |s| && ci == s[k] && bi == s[0]
        invariant h == g.(loose := g.loose - SetOf(s[..k]))
        invariant Inv(L(), shape, h) && Scattered(l0, sh0, L(), shape, SetOf(s[..k]))
        decreases |s| - k
      {
        RingNext(l0, s, k);
        HangRootInv(L(), shape, h, ci);
        InvFacts(L(), shape, h);
        ScatteredStep(l0, sh0, L(), shape, SetOf(s[..k]), ci);
        assert SetOf(s[..k+1]) == SetOf(s[..k]) + {ci};
        var ni := nodes[ci].next;
        MakeRoot(ci);
        shape := RootShape(shape, ci);
        h := h.(loose := h.loose - {ci});
        k := k + 1;
        assert h.loose == g.loose - SetOf(s[..k]);
        if ni == bi {
          assert s[..k] == s;
          break;
        }
        ci := ni;
      }
    }

    /** Del deletes given index from heap. Its parent is marked, and cut if it was marked before. */
    method Del(xi: nat)
      requires Valid() && xi in Indices()
      modifies this
      ensures Valid() && Indices() == old(Indices()) - {xi}
      ensures forall cmp: Compare :: old(AgreesBut(cmp, xi)) ==> Agrees(cmp)
      ensures minValid == (old(minValid) && xi != old(minIndex)) && minIndex == old(minIndex)
      ensures old(At(L(), xi).sup) != NIL ==> Told(old(L()), L(), old(At(L(), xi).sup))
    {
      hide FibForest.Inv, FibForest.Tree, OrderedBut, OnlyCuts;
      ghost var l0, sh0 := L(), shape;
      Isolate(xi);
      minValid := minValid && xi != minIndex;
      var supi := nodes[xi].sup;
      ghost var l1, rest := L(), Indices();
      if supi != NIL {
        TellParents(supi, nodes[xi].next);
      }
      InvFacts(L(), shape, AtRest);
      CutsCompose(l0, Live(sh0), l1, rest, L(), Indices());
      AllCutsKeepOrder(l0, Live(sh0), L(), Indices(), xi);
    }

    /** The first half of Del: takes `xi` out of its ring and makes roots of its children. */
    method Isolate(xi: nat)
      requires Valid() && xi in Indices()
      modifies `root, `nodes, `shape
      ensures xi < |nodes| <= ROOT && Indices() == old(Indices()) - {xi}
      ensures OnlyCuts(old(L()), old(Indices()), L(), Indices())
      ensures nodes[xi].sup == old(At(L(), xi).sup)
      ensures nodes[xi].sup == NIL ==> Inv(L(), shape, AtRest)
      ensures var p := nodes[xi].sup;
              p != NIL ==> && Inv(L(), shape, Gap({}, p, NIL)) && p in Indices() && p in shape.kids
                           && (|shape.kids[p]| > 0 ==> nodes[xi].next == shape.kids[p][0])
                           && At(L(), p).SameTree(At(old(L()), p))
    {
      hide FibForest.Inv, FibForest.Tree, FibLinks.Ring, Scattered, DropGap, Distinct;
      ghost var l0, sh0 := L(), shape;
      InvFacts(l0, sh0, AtRest);
      ghost var p, s := DeleteFacts(l0, sh0, xi);
      DeleteInv(l0, sh0, xi, p);
      Unlink(xi);
      shape := DropNode(DetachShape(sh0, p, xi), xi);
      ghost var g := Gap(SetOf(s), if p == ROOT then NIL else p, NIL);
      ghost var l1, sh1 := L(), shape;
      CutChildren(xi, g, s);
      ScatteredFacts(l1, sh1, L(), shape, SetOf(s), xi, p);
      assert g.(loose := g.loose - SetOf(s)) == Gap({}, g.short, NIL);
    }

    /** Moves `xi` from its parent's ring to the ring of roots. */
    method Cut(xi: nat)
      requires xi < |nodes| <= ROOT && L().Has(nodes[xi].prev) && L().Has(nodes[xi].next)
      requires L().Has(At(FibLinks.Unlink(L(), xi), ROOT).next)
      modifies `root, `nodes
      ensures L() == Cascaded(old(L()), xi)
    {
      Unlink(xi);
      MakeRoot(xi);
    }

    /** Adjust parents for deletion of a child: a node that loses a second one is cut as well. */
    method TellParents(supi0: nat, ni0: nat)
      requires Inv(L(), shape, Gap({}, supi0, NIL)) && supi0 in Indices()
      requires supi0 in shape.kids && (|shape.kids[supi0]| > 0 ==> ni0 == shape.kids[supi0][0])
      modifies `root, `nodes, `shape
      ensures Inv(L(), shape, AtRest) && Indices() == old(Indices()) && |nodes| == old(|nodes|)
      ensures OnlyCuts(old(L()), old(Indices()), L(), Indices())
      ensures Told(old(L()), L(), supi0)
    {
      hide FibForest.Inv, OnlyCuts, RootSet;
      var more, supi, ni := true, supi0, ni0;
      CutsNone(L(), Indices());
      while more
        invariant more ==> Inv(L(), shape, Gap({}, supi, NIL)) && supi in Indices()
        invariant more ==> supi in shape.kids && (|shape.kids[supi]| > 0 ==> ni == shape.kids[supi][0])
        invariant !more ==> Inv(L(), shape, AtRest)
        invariant Indices() == old(Indices()) && |nodes| == old(|nodes|)
        invariant OnlyCuts(old(L()), old(Indices()), L(), Indices())
        invariant Told(old(L()), L(), supi0) || (more && supi == supi0 && L() == old(L()))
        invariant more && L() != old(L()) ==> At(L(), supi0).sup == NIL
        decreases more, Indices() - RootSet(shape)
      {
        ghost var l := L();
        more, supi, ni := TellParent(supi, ni);
        CutsCompose(old(L()), Indices(), l, Indices(), L(), Indices());
      }
    }

    /** One parent told: it counts one child less and is marked; if it was marked already, it is cut to the root
        and its own parent is next. */
    method TellParent(supi: nat, ni: nat) returns (more: bool, next: nat, ni': nat)
      requires Inv(L(), shape, Gap({}, supi, NIL)) && supi in Indices()
      requires supi in shape.kids && (|shape.kids[supi]| > 0 ==> ni == shape.kids[supi][0])
      modifies `root, `nodes, `shape
      ensures Indices() == old(Indices()) && |nodes| == old(|nodes|)
      ensures OnlyCuts(old(L()), old(Indices()), L(), Indices())
      ensures Told(old(L()), L(), supi) && (more <==> old(nodes[supi].isMarked && nodes[supi].sup != NIL))
      ensures forall c :: c != supi ==>
        At(L(), c).isMarked == At(old(L()), c).isMarked && At(L(), c).sup == At(old(L()), c).sup
      ensures !more ==> Inv(L(), shape, AtRest)
      ensures more ==> Inv(L(), shape, Gap({}, next, NIL)) && next in Indices() && next in shape.kids
      ensures more ==> (|shape.kids[next]| > 0 ==> ni' == shape.kids[next][0])
      ensures more ==> Indices() - RootSet(shape) < Indices() - RootSet(old(shape))
    {
      hide FibForest.Inv, FibForest.Tree, Cascaded, CascadedShape;
      ghost var l := L();
      InvFacts(l, shape, Gap({}, supi, NIL));
      SettleInv(l, shape, Gap({}, supi, NIL), ni);
      var sup := nodes[supi];
      var wasMarked := sup.isMarked;
      sup := sup.(nSub := sup.nSub - 1, isMarked := true, sub := ni);
      if sup.nSub == 0 {
        sup := sup.(sub := NIL);
      }
      SetNode(supi, sup);
      next, ni' := sup.sup, ni;
      if !wasMarked || next == NIL {
        SettledAtRest(L(), shape, supi, wasMarked);
        return false, next, ni';
      }
      l := L();
      CascadeInv(l, shape, supi, next);
      ni' := nodes[supi].next;
      CascadedMarks(l, supi);
      Cut(supi);
      shape := CascadedShape(shape, supi, next);
      more := true;
    }

    /** Update node when data ordering changes: whatever the new order does to `xi`, the heap is in order after. */
    method Update(xi: nat)
      requires Valid() && xi in Indices()
      modifies this
      ensures Valid() && Indices() == old(Indices()) && !minValid
      ensures forall cmp: Compare :: old(AgreesBut(cmp, xi)) ==> Agrees(cmp)
    {
      hide FibForest.Inv, OrderedBut, Least;
      SupIn();
      Del(xi);
      Weaken(xi);
      Add(xi);
    }

    /** Makes root `c` a child of root `p`. */
    method LinkUnder(p: nat, c: nat)
      requires p < |nodes| && c < |nodes| <= ROOT && p != c
      requires L().Has(nodes[c].prev) && L().Has(nodes[c].next)
      requires nodes[p].sub == NIL || (L().Has(nodes[p].sub) && L().Has(At(FibLinks.Unlink(L(), c), nodes[p].sub).next))
      modifies `root, `nodes
      ensures L() == HangChild(FibLinks.Unlink(old(L()), c), p, c)
    {
      Unlink(c);
      HangUnder(p, c);
    }

    method HangUnder(p: nat, c: nat)
      requires p < |nodes| && c < |nodes| <= ROOT && p != c
      requires nodes[p].sub == NIL || (L().Has(nodes[p].sub) && L().Has(At(L(), nodes[p].sub).next))
      modifies `root, `nodes
      ensures L() == HangChild(old(L()), p, c)
    {
      hide FibLinks.LinkAfter;
      SetNode(c, nodes[c].(isMarked := false, sup := p));
      var r := nodes[p];
      if r.sub != NIL {
        SetNode(p, r.(nSub := r.nSub + 1));
        LinkAfter(r.sub, c);
      } else {
        SetNode(p, r.(sub := c, nSub := 1, isMarked := false));
        SetNode(c, nodes[c].(next := c, prev := c));
      }
    }

    /** Consolidates the roots until no two have the same degree, then picks a least one. It panics on a root whose
      * degree has no slot, which takes at least F(34) elements. */
    method Min(cmp: Compare) returns (minu: nat, valid: bool, panics: bool)
      requires Valid() && TotalPreorder(cmp, Indices()) && Agrees(cmp)
      modifies this
      ensures Valid() && Agrees(cmp) && Indices() == old(Indices())
      ensures panics ==> |Indices()| >= Fib(MaxNSub + 2)
      ensures !panics ==> valid == minValid == (Indices() != {})
      ensures !panics && valid ==> minu == minIndex && Least(cmp, minu, Indices())
      ensures !panics && !old(minValid) ==> OneOfEachDegree(L(), Indices())
    {
      hide FibForest.Inv, OrderedBut, TotalPreorder;
      minu := minIndex;
      valid := minValid;
      panics := false;
      if valid || |nodes| == 0 {
        assert |nodes| == 0 ==> Indices() == {};
        return;
      }
      minu, panics := FindMin(cmp);
      if panics { return; }
      valid := minu != NIL;
      minValid := valid;
      minIndex := minu;
    }

    /** Both loops of Min. */
    method FindMin(cmp: Compare) returns (min: nat, panics: bool)
      requires |nodes| > 0 && Inv(L(), shape, AtRest) && TotalPreorder(cmp, Indices())
      requires OrderedBut(L(), Indices(), cmp, NIL)
      modifies `root, `nodes, `shape
      ensures Inv(L(), shape, AtRest) && Indices() == old(Indices()) && |nodes| == old(|nodes|)
      ensures OrderedBut(L(), Indices(), cmp, NIL)
      ensures panics ==> |Indices()| >= Fib(MaxNSub + 2)
      ensures !panics ==> (min == NIL <==> Indices() == {})
      ensures !panics && min != NIL ==> Least(cmp, min, Indices())
      ensures !panics ==> OneOfEachDegree(L(), Indices())
    {
      hide FibForest.Inv, FibForest.Tree, Tally, OrderedBut, TotalPreorder, Least;
      min := NIL;
      var deg, degValid;
      deg, degValid, panics := Consolidate(cmp);
      if panics { return; }
      TallyRoots(L(), shape, deg[..], degValid);
      assert forall d :: d in degValid ==> deg[..][d] == deg[d];
      min := LeastOfSlots(cmp, deg, degValid, Indices());
      LeastOfRoots(L(), shape, cmp, min, deg[..], degValid);
    }

    /** The second loop of Min. */
    static method LeastOfSlots(cmp: Compare, deg: array<nat>, slots: set<nat>, ghost s: set<nat>) returns (min: nat)
      requires TotalPreorder(cmp, s)
      requires forall d :: d in slots ==> d < deg.Length && deg[d] in s && deg[d] != NIL
      ensures min == NIL <==> slots == {}
      ensures min != NIL ==> exists d :: d in slots && deg[d] == min
      ensures forall d :: d in slots ==> cmp(min, deg[d]) <= 0
    {
      min := NIL;
      var degValid := slots;
      while degValid != {}
        invariant degValid <= slots
        invariant min == NIL ==> degValid == slots
        invariant min != NIL ==> min in s && slots != {} && exists d :: d in slots && deg[d] == min
        invariant forall d :: d in slots - degValid ==> cmp(min, deg[d]) <= 0
        decreases degValid
      {
        var ns := NextSet(degValid);
        degValid := degValid - {ns};
        var ri := deg[ns];
        if min == NIL || cmp(ri, min) < 0 {
          min := ri;
        }
      }
    }

    /** The first loop of Min. */
    method Consolidate(cmp: Compare) returns (deg: array<nat>, degValid: set<nat>, panics: bool)
      requires |nodes| > 0 && Inv(L(), shape, AtRest) && TotalPreorder(cmp, Indices())
      requires OrderedBut(L(), Indices(), cmp, NIL)
      modifies `root, `nodes, `shape
      ensures Inv(L(), shape, AtRest) && Indices() == old(Indices()) && |nodes| == old(|nodes|)
      ensures OrderedBut(L(), Indices(), cmp, NIL)
      ensures fresh(deg) && deg.Length == MaxNSub && ROOT in shape.kids
      ensures panics ==> |Indices()| >= Fib(MaxNSub + 2)
      ensures !panics ==> Tally(L(), shape.kids[ROOT], ROOT, deg[..], degValid)
    {
      hide FibForest.Inv, FibForest.Tree, OrderedBut, TotalPreorder, Scanned, Taken, Rest, NthRoot, FibDegree.Fib;
      deg := new nat[MaxNSub](_ => 0);
      degValid := {};
      panics := false;
      var ri: nat := root.next;
      var ni: nat := GetNode(ri).next;
      ghost var done, todo := ScanStart(L(), shape, deg[..]);
      while ri != ROOT
        invariant Inv(L(), shape, AtRest) && Scanned(L(), shape, done, todo, ri, ni, deg[..], degValid)
        invariant Indices() == old(Indices()) && |nodes| == old(|nodes|)
        invariant OrderedBut(L(), Indices(), cmp, NIL) && deg.Length == MaxNSub
        decreases |done| + |todo|, |todo|, if ri == ROOT then 0 else 1
      {
        ghost var l := L();
        InvFacts(l, shape, AtRest);
        ScanFacts(l, shape, done, todo, ri, ni, deg[..], degValid);
        var ns := nodes[ri].nSub;
        if ns >= MaxNSub {
          if |Indices()| < Fib(MaxNSub + 2) { DegreeBound(l, shape, AtRest, ri, MaxNSub); }
          panics := true;
          return;
        }
        if ns !in degValid {
          ScanFile(l, shape, done, todo, ri, ni, deg[..], degValid);
          degValid := degValid + {ns};
          deg[ns] := ri;
          ri := ni;
          ni := GetNode(ni).next;
          done, todo := Taken(done, todo), Rest(todo);
        } else {
          ghost var was := degValid;
          degValid := degValid - {ns};
          assert degValid + {ns} == was;
          ri, done := LinkPair(cmp, ri, deg[ns], done, todo, ni, deg[..], degValid);
        }
      }
      ScanEnd(L(), shape, done, todo, ri, ni, deg[..], degValid);
    }

    /** Links two roots of equal degree, the greater under the lesser. */
    method LinkPair(cmp: Compare, ri: nat, ri0: nat, ghost done: seq<nat>, ghost todo: seq<nat>, ghost ni: nat,
                    ghost deg: seq<nat>, ghost valid: set<nat>)
      returns (r: nat, ghost rest: seq<nat>)
      requires Inv(L(), shape, AtRest) && At(L(), ri).nSub !in valid
      requires Scanned(L(), shape, done, todo, ri, ni, deg, valid + {At(L(), ri).nSub}) && ri != ROOT
      requires At(L(), ri).nSub < |deg| && ri0 == deg[At(L(), ri).nSub]
      requires OrderedBut(L(), Indices(), cmp, NIL) && TotalPreorder(cmp, Indices())
      modifies `root, `nodes, `shape
      ensures Inv(L(), shape, AtRest) && Indices() == old(Indices()) && |nodes| == old(|nodes|)
      ensures OrderedBut(L(), Indices(), cmp, NIL)
      ensures |rest| == |done| - 1 && Scanned(L(), shape, rest, todo, r, ni, deg, valid)
    {
      hide FibForest.Inv, FibForest.Tree, Tally, LinkedRoots, LinkedShape, OrderedBut, Without1, TotalPreorder,
           Scanned, HangChild;
      ScanSlot(L(), shape, done, todo, ri, ni, deg, valid);
      InvFacts(L(), shape, AtRest);
      RootFacts(L(), shape, ri);
      RootFacts(L(), shape, ri0);
      Total(cmp, Indices(), ri, ri0);
      ghost var l := L();
      var c := ri0;
      r := ri;
      if cmp(ri0, ri) <= 0 {
        r, c := ri0, ri;
      }
      LinkRootsStep(l, shape, cmp, done, todo, r, c, deg, valid);
      LinkUnder(r, c);
      shape := LinkedShape(shape, r, c);
      rest := Without1(done, c);
      ScanNow(L(), shape, rest, todo, r, ni, deg, valid);
    }
  }

  lemma ScanNow(l: Links, sh: Shape, done: seq<nat>, todo: seq<nat>, ri: nat, ni: nat, deg: seq<nat>, valid: set<nat>)
    requires ROOT in sh.kids && sh.kids[ROOT] == done + todo && Tally(l, done, ri, deg, valid)
    requires ri != ROOT && ri in done && ni == NthRoot(todo, 0)
    ensures Scanned(l, sh, done, todo, ri, ni, deg, valid)
  {
  }

  /** Where the scan of the roots stands: `ri` is being placed, the others of `done` are in their
      slots, and `ni` comes next. */
  ghost predicate Scanned(l: Links, sh: Shape, done: seq<nat>, todo: seq<nat>, ri: nat, ni: nat, deg: seq<nat>,
                          valid: set<nat>) {
    && ROOT in sh.kids && sh.kids[ROOT] == done + todo
    && Tally(l, done, ri, deg, valid)
    && (ri == ROOT ==> todo == [])
    && (ri != ROOT ==> ri in done && ni == NthRoot(todo, 0))
  }

  lemma ScanStart(l: Links, sh: Shape, deg: seq<nat>) returns (done: seq<nat>, todo: seq<nat>)
    requires Inv(l, sh, AtRest)
    ensures Scanned(l, sh, done, todo, l.root.next, At(l, l.root.next).next, deg, {})
  {
    done, todo := FirstRoot(l, sh);
    TallyStart(l, done, l.root.next, deg);
  }

  lemma ScanFacts(l: Links, sh: Shape, done: seq<nat>, todo: seq<nat>, ri: nat, ni: nat, deg: seq<nat>, valid: set<nat>)
    requires Inv(l, sh, AtRest) && Scanned(l, sh, done, todo, ri, ni, deg, valid) && ri != ROOT
    ensures ri in Live(sh)
  {
    RootFacts(l, sh, ri);
  }

  lemma ScanFile(l: Links, sh: Shape, done: seq<nat>, todo: seq<nat>, ri: nat, ni: nat, deg: seq<nat>, valid: set<nat>)
    requires Inv(l, sh, AtRest) && Scanned(l, sh, done, todo, ri, ni, deg, valid) && ri != ROOT
    requires At(l, ri).nSub < |deg| && At(l, ri).nSub !in valid
    ensures Scanned(l, sh, Taken(done, todo), Rest(todo), ni, At(l, ni).next,
      deg[At(l, ri).nSub := ri], valid + {At(l, ri).nSub})
    ensures |Taken(done, todo)| + |Rest(todo)| == |done| + |todo|
    ensures |Rest(todo)| < |todo| || (|Rest(todo)| == |todo| && ni == ROOT)
  {
    hide FibForest.Inv, Tally, Taken, Rest;
    TallyAdvance(l, sh, done, todo, ri, deg, valid);
    if todo == [] {
      RestOfNone();
    }
  }

  lemma RestOfNone()
    ensures Rest([]) == []
  {
  }

  lemma ScanSlot(l: Links, sh: Shape, done: seq<nat>, todo: seq<nat>, ri: nat, ni: nat, deg: seq<nat>, valid: set<nat>)
    requires Scanned(l, sh, done, todo, ri, ni, deg, valid + {At(l, ri).nSub}) && ri != ROOT && At(l, ri).nSub < |deg|
    ensures var ri0 := deg[At(l, ri).nSub];
            && ri0 in done && ri0 != ri && At(l, ri0).nSub == At(l, ri).nSub && ri in done
            && ROOT in sh.kids && sh.kids[ROOT] == done + todo && ri in sh.kids[ROOT] && ri0 in sh.kids[ROOT]
    ensures Tally(l, done, ri, deg, valid + {At(l, ri).nSub}) && ni == NthRoot(todo, 0)
  {
    TallySlot(l, done, ri, deg, valid + {At(l, ri).nSub}, At(l, ri).nSub);
  }

  lemma ScanEnd(l: Links, sh: Shape, done: seq<nat>, todo: seq<nat>, ri: nat, ni: nat, deg: seq<nat>, valid: set<nat>)
    requires Scanned(l, sh, done, todo, ri, ni, deg, valid) && ri == ROOT
    ensures ROOT in sh.kids && Tally(l, sh.kids[ROOT], ROOT, deg, valid)
  {
    assert done + todo == done;
  }

  function Taken(done: seq<nat>, todo: seq<nat>): seq<nat> { if todo == [] then done else done + [todo[0]] }
  function Rest(todo: seq<nat>): seq<nat> { if todo == [] then [] else todo[1..] }

  /** Least element of a bitmap. */
  // ---- a marked root ----

  lemma ParentFacts(l: Links, sh: Shape, x: nat)
    requires Inv(l, sh, AtRest) && x in Live(sh)
    ensures At(l, x).sup != x
    ensures At(l, x).nSub > 0 ==> exists c :: c in Live(sh) && At(l, c).sup == x
  {
    assert Placed(l, sh, x) && DegreeAt(l, sh, AtRest, x);
    var p := Parent(At(l, x));
    assert Child(l, sh, AtRest, p, x);
    if At(l, x).nSub > 0 {
      assert Child(l, sh, AtRest, x, sh.kids[x][0]);
    }
  }

  /** The heap of two elements is one tree once its roots are consolidated. */
  lemma OneTree(l: Links, sh: Shape, a: nat, b: nat)
    requires Inv(l, sh, AtRest) && Live(sh) == {a, b} && a != b && OneOfEachDegree(l, Live(sh))
    ensures At(l, a).sup == b || At(l, b).sup == a
  {
    ParentFacts(l, sh, a);
    ParentFacts(l, sh, b);
    assert a in Live(sh) && b in Live(sh);
    InvFacts(l, sh, AtRest);
  }

  lemma NoneOrdered(l: Links, cmp: Compare, x: nat)
    ensures OrderedBut(l, {}, cmp, x)
  {
  }

  method TwoElements(a: nat, b: nat, cmp: Compare) returns (h: FibHeap)
    requires a < ROOT && b < ROOT && a != b && TotalPreorder(cmp, {a, b})
    ensures fresh(h) && h.Valid() && h.Indices() == {a, b} && |h.nodes| > 0 && OneOfEachDegree(h.L(), h.Indices())
  {
    hide FibForest.Inv, OneOfEachDegree, FibDegree.Fib, OrderedBut, TotalPreorder, Least;
    h := new FibHeap();
    NoneOrdered(h.L(), cmp, a);
    h.Add(a);
    h.Weaken(b);
    h.Add(b);
    Fib34();
    assert h.Indices() == {a, b};
    var _, _, _ := h.Min(cmp);
    assert a in h.Indices();
  }

  lemma AloneIsRoot(l: Links, sh: Shape, x: nat)
    requires Inv(l, sh, AtRest) && Live(sh) == {x}
    ensures At(l, x).sup == NIL
  {
    assert x in Live(sh);
    ParentFacts(l, sh, x);
    InvFacts(l, sh, AtRest);
  }

  /** After two additions, a Min and the deletion of the one that is no root, the other is a marked root. */
  method MarkedRoot(a: nat, b: nat, cmp: Compare) returns (h: FibHeap, r: nat)
    requires a < ROOT && b < ROOT && a != b && TotalPreorder(cmp, {a, b})
    ensures fresh(h) && h.Valid() && h.Indices() == {r} && r in {a, b}
    ensures At(h.L(), r).sup == NIL && At(h.L(), r).isMarked
  {
    hide FibForest.Inv, OneOfEachDegree, TotalPreorder, OrderedBut, Least;
    h := TwoElements(a, b, cmp);
    OneTree(h.L(), h.shape, a, b);
    var c;
    if h.GetNode(a).sup == b { r, c := b, a; } else { r, c := a, b; }
    h.Del(c);
    assert h.Indices() == {r} && r in h.Indices();
    AloneIsRoot(h.L(), h.shape, r);
  }

  method NextSet(s: set<nat>) returns (i: nat)
    requires s != {}
    ensures i in s && forall j :: j in s ==> i <= j
  {
    i := 0;
    ghost var w :| w in s;
    while i !in s
      invariant i <= w && forall j :: j in s ==> i <= j
      decreases w - i
    {
      i := i + 1;
    }
  }

  /** The degree slots in use hold exactly the roots met so far, `ri` aside, one to a degree. */
  ghost predicate Tally(l: Links, done: seq<nat>, ri: nat, deg: seq<nat>, valid: set<nat>) {
    && (forall d :: d in valid ==> d < |deg| && deg[d] in done && deg[d] != ri && At(l, deg[d]).nSub == d)
    && (forall x :: x in done && x != ri ==>
          At(l, x).nSub in valid && At(l, x).nSub < |deg| && deg[At(l, x).nSub] == x)
  }

  lemma FirstRoot(l: Links, sh: Shape) returns (done: seq<nat>, todo: seq<nat>)
    requires Inv(l, sh, AtRest)
    ensures ROOT in sh.kids && sh.kids[ROOT] == done + todo
    ensures l.root.next == ROOT ==> done == todo == []
    ensures l.root.next != ROOT ==> done == [l.root.next] && At(l, l.root.next).next == NthRoot(todo, 0)
  {
    hide FibForest.Inv, FibLinks.Ring, Distinct;
    RootsFacts(l, sh);
    var roots := sh.kids[ROOT];
    RingOfRoots(l, roots, 0);
    if roots == [] {
      done, todo := [], [];
    } else {
      RingOfRoots(l, roots, 1);
      done, todo := roots[..1], roots[1..];
    }
  }

  lemma TallyStart(l: Links, done: seq<nat>, ri: nat, deg: seq<nat>)
    requires forall x :: x in done ==> x == ri
    ensures Tally(l, done, ri, deg, {})
  {
  }

  /** Filing `ri` under its degree; `next` is not met yet. */
  lemma TallyFile(l: Links, done: seq<nat>, ri: nat, deg: seq<nat>, valid: set<nat>, next: nat)
    requires Tally(l, done, ri, deg, valid) && ri in done && next !in done
    requires At(l, ri).nSub < |deg| && At(l, ri).nSub !in valid
    ensures Tally(l, done, next, deg[At(l, ri).nSub := ri], valid + {At(l, ri).nSub})
    ensures Tally(l, done + [next], next, deg[At(l, ri).nSub := ri], valid + {At(l, ri).nSub})
  {
  }

  lemma RootsFacts(l: Links, sh: Shape)
    requires Inv(l, sh, AtRest)
    ensures ROOT in sh.kids && Distinct(sh.kids[ROOT]) && Ring(l, [ROOT] + sh.kids[ROOT]) && ROOT !in sh.kids[ROOT]
  {
    assert Ring(l, Ring0(sh, ROOT));
    DistinctKids(l, sh, ROOT);
    assert ROOT in sh.kids[ROOT] ==> Child(l, sh, AtRest, ROOT, ROOT);
  }

  lemma NextRoot(l: Links, done: seq<nat>, todo: seq<nat>)
    requires Ring(l, [ROOT] + (done + todo)) && Distinct(done + todo) && ROOT !in done + todo
    ensures NthRoot(todo, 0) !in done && (todo == [] <==> NthRoot(todo, 0) == ROOT)
    ensures todo != [] ==> At(l, todo[0]).next == NthRoot(todo[1..], 0)
  {
    var roots := done + todo;
    if todo != [] {
      assert roots[|done|] == todo[0];
      forall i | 0 <= i < |done| ensures done[i] != todo[0] {
        assert roots[i] == done[i];
      }
      hide FibLinks.Ring, Distinct;
      RingOfRoots(l, roots, |done| + 1);
      assert NthRoot(roots, |done| + 1) == NthRoot(todo[1..], 0);
    }
  }

  /** Filing `ri` and moving on to the next root. */
  lemma TallyAdvance(l: Links, sh: Shape, done: seq<nat>, todo: seq<nat>, ri: nat, deg: seq<nat>, valid: set<nat>)
    requires Inv(l, sh, AtRest) && sh.kids[ROOT] == done + todo && ri in done
    requires Tally(l, done, ri, deg, valid) && At(l, ri).nSub < |deg| && At(l, ri).nSub !in valid
    ensures Tally(l, Taken(done, todo), NthRoot(todo, 0), deg[At(l, ri).nSub := ri], valid + {At(l, ri).nSub})
    ensures todo == [] <==> NthRoot(todo, 0) == ROOT
    ensures Taken(done, todo) + Rest(todo) == done + todo && |Taken(done, todo)| + |Rest(todo)| == |done| + |todo|
    ensures todo == [] ==> Rest(todo) == []
    ensures todo != [] ==> |Rest(todo)| < |todo| && NthRoot(todo, 0) in Taken(done, todo)
    ensures todo != [] ==> At(l, NthRoot(todo, 0)).next == NthRoot(Rest(todo), 0)
  {
    hide FibForest.Inv, Tally, FibLinks.Ring, Distinct;
    RootsFacts(l, sh);
    NextRoot(l, done, todo);
    TallyFile(l, done, ri, deg, valid, NthRoot(todo, 0));
  }

  lemma TallySlot(l: Links, done: seq<nat>, ri: nat, deg: seq<nat>, valid: set<nat>, ns: nat)
    requires Tally(l, done, ri, deg, valid) && ns in valid
    ensures ns < |deg| && deg[ns] in done && deg[ns] != ri && At(l, deg[ns]).nSub == ns
  {
  }

  /** LinkedRoots with its side conditions discharged. */
  ghost function LinkRoots(l: Links, sh: Shape, p: nat, c: nat): Links
    requires Inv(l, sh, AtRest) && p in sh.kids[ROOT] && c in sh.kids[ROOT] && p != c
    requires At(l, p).nSub == At(l, c).nSub
  {
    LinkRootsInv(l, sh, p, c);
    LinkedRoots(l, p, c)
  }

  lemma LinkKeepsOrder(l: Links, sh: Shape, cmp: Compare, p: nat, c: nat)
    requires Inv(l, sh, AtRest) && p in sh.kids[ROOT] && c in sh.kids[ROOT] && p != c
    requires At(l, p).nSub == At(l, c).nSub
    requires OrderedBut(l, Live(sh), cmp, NIL) && cmp(p, c) <= 0
    ensures OrderedBut(LinkRoots(l, sh, p, c), Live(sh), cmp, NIL)
  {
    hide FibForest.Inv, FibForest.Tree, LinkedRoots, LinkedShape;
    LinkRootsInv(l, sh, p, c);
  }

  function Without1(s: seq<nat>, x: nat): seq<nat>
    requires x in s
  {
    var k := IndexOf(s, x);
    s[..k] + s[k+1..]
  }

  lemma {:induction false} IndexOfPrefix(a: seq<nat>, b: seq<nat>, x: nat)
    requires x in a
    ensures x in a + b && IndexOf(a + b, x) == IndexOf(a, x)
  {
    if a[0] != x {
      assert (a + b)[1..] == a[1..] + b;
      IndexOfPrefix(a[1..], b, x);
    }
  }

  lemma DistinctPrefix(a: seq<nat>, b: seq<nat>, x: nat, y: nat)
    requires Distinct(a + b) && x in a
    ensures y in Without1(a, x) <==> y in a && y != x
  {
    var k := IndexOf(a, x);
    forall i | 0 <= i < |a| && i != k ensures a[i] != a[k] {
      assert (a + b)[i] == a[i] && (a + b)[k] == a[k];
    }
    if y in a && y != x {
      var i :| 0 <= i < |a| && a[i] == y;
      assert i < k ==> y == a[..k][i];
      assert i > k ==> y == a[k+1..][i - k - 1];
    }
  }

  lemma TallyDrop(l: Links, r: Links, done: seq<nat>, rest: seq<nat>, p: nat, c: nat, deg: seq<nat>, valid: set<nat>)
    requires p != c && At(l, p).nSub == At(l, c).nSub && At(l, p).nSub !in valid
    requires Tally(l, done, p, deg, valid + {At(l, p).nSub}) || Tally(l, done, c, deg, valid + {At(l, p).nSub})
    requires forall y :: y in rest <==> y in done && y != c
    requires p in done && c in done
    requires forall j {:trigger At(r, j)} :: j != p && j != c ==> At(r, j).nSub == At(l, j).nSub
    ensures Tally(r, rest, p, deg, valid)
  {
    var ns := At(l, p).nSub;
    var v := valid + {ns};
    assert ns in v && deg[ns] in {p, c};
    forall d | d in valid ensures d < |deg| && deg[d] in rest && deg[d] != p && At(r, deg[d]).nSub == d {
      assert d in v && At(l, deg[d]).nSub == d;
    }
    forall x | x in rest && x != p ensures At(r, x).nSub in valid && At(r, x).nSub < |deg| && deg[At(r, x).nSub] == x {
      assert At(l, x).nSub in v && deg[At(l, x).nSub] == x;
    }
  }

  lemma DetachRoot(sh: Shape, done: seq<nat>, todo: seq<nat>, c: nat)
    requires ROOT in sh.kids && sh.kids[ROOT] == done + todo && Distinct(done + todo) && c in done
    ensures c in sh.kids[ROOT] && DetachShape(sh, ROOT, c).kids[ROOT] == Without1(done, c) + todo
    ensures forall y :: y in Without1(done, c) <==> y in done && y != c
  {
    IndexOfPrefix(done, todo, c);
    forall y ensures y in Without1(done, c) <==> y in done && y != c {
      DistinctPrefix(done, todo, c, y);
    }
  }

  /** Linking two roots of the same degree frees the slot of that degree. */
  lemma TallyLink(l: Links, sh: Shape, done: seq<nat>, todo: seq<nat>, p: nat, c: nat, deg: seq<nat>, valid: set<nat>)
    requires Inv(l, sh, AtRest) && sh.kids[ROOT] == done + todo && p in done && c in done && p != c
    requires At(l, p).nSub == At(l, c).nSub && At(l, p).nSub !in valid
    requires Tally(l, done, p, deg, valid + {At(l, p).nSub}) || Tally(l, done, c, deg, valid + {At(l, p).nSub})
    ensures p in sh.kids[ROOT] && c in sh.kids[ROOT] && p in Without1(done, c)
    ensures DetachShape(sh, ROOT, c).kids[ROOT] == Without1(done, c) + todo
    ensures Tally(LinkRoots(l, sh, p, c), Without1(done, c), p, deg, valid)
  {
    assert p in sh.kids[ROOT] && c in sh.kids[ROOT];
    hide FibForest.Inv, FibForest.Tree, LinkedRoots, LinkedShape, Tally, Distinct, DetachShape, Without1;
    RootFacts(l, sh, p);
    LinkRootsInv(l, sh, p, c);
    DetachRoot(sh, done, todo, c);
    TallyDrop(l, LinkedRoots(l, p, c), done, Without1(done, c), p, c, deg, valid);
  }

  lemma Total(cmp: Compare, s: set<nat>, i: nat, j: nat)
    requires TotalPreorder(cmp, s) && i in s && j in s
    ensures cmp(i, j) <= 0 || cmp(j, i) <= 0
  {
  }

  /** All that one linking step of the consolidation loop keeps. */
  lemma LinkRootsStep(l: Links, sh: Shape, cmp: Compare, done: seq<nat>, todo: seq<nat>, p: nat, c: nat, deg: seq<nat>,
                      valid: set<nat>)
    requires Inv(l, sh, AtRest) && sh.kids[ROOT] == done + todo && p in done && c in done && p != c
    requires At(l, p).nSub == At(l, c).nSub && At(l, p).nSub !in valid
    requires Tally(l, done, p, deg, valid + {At(l, p).nSub}) || Tally(l, done, c, deg, valid + {At(l, p).nSub})
    requires OrderedBut(l, Live(sh), cmp, NIL) && cmp(p, c) <= 0
    ensures |l.nodes| <= ROOT && p in Live(sh) && c in Live(sh) && p in sh.rank && c in sh.rank && c in sh.kids[ROOT]
    ensures l.Has(At(l, c).prev) && l.Has(At(l, c).next) && l.Has(p) && l.Has(c)
    ensures At(l, p).sub == NIL || (l.Has(At(l, p).sub) && l.Has(At(Unlink(l, c), At(l, p).sub).next))
    ensures var r, t := HangChild(Unlink(l, c), p, c), LinkedShape(sh, p, c);
            && Inv(r, t, AtRest) && Live(t) == Live(sh) && OrderedBut(r, Live(sh), cmp, NIL)
            && ROOT in t.kids && t.kids[ROOT] == Without1(done, c) + todo && |r.nodes| == |l.nodes|
            && Tally(r, Without1(done, c), p, deg, valid)
    ensures p in Without1(done, c) && |Without1(done, c)| == |done| - 1
  {
    InvFacts(l, sh, AtRest);
    hide FibForest.Inv, FibForest.Tree, LinkedShape, OrderedBut, Tally;
    TallyLink(l, sh, done, todo, p, c, deg, valid);
    LinkRootsInv(l, sh, p, c);
    LinkKeepsOrder(l, sh, cmp, p, c);
  }

  /** After consolidation every slot in use names a root. */
  lemma TallyRoots(l: Links, sh: Shape, deg: seq<nat>, valid: set<nat>)
    requires Inv(l, sh, AtRest) && |deg| == MaxNSub && ROOT in sh.kids && Tally(l, sh.kids[ROOT], ROOT, deg, valid)
    ensures forall d :: d in valid ==> d < |deg| && deg[d] in sh.kids[ROOT]
    ensures forall x :: x in sh.kids[ROOT] ==> x in Live(sh) && x != NIL
    ensures OneOfEachDegree(l, Live(sh))
  {
    forall x | x in sh.kids[ROOT] ensures x in Live(sh) && x != NIL {
      assert Child(l, sh, AtRest, ROOT, x);
    }
    forall x | x in Live(sh) && At(l, x).sup == NIL ensures x in sh.kids[ROOT] {
      assert Placed(l, sh, x);
    }
  }

  lemma LeastSlot(l: Links, sh: Shape, cmp: Compare, min: nat, deg: seq<nat>, valid: set<nat>)
    requires ROOT in sh.kids && Tally(l, sh.kids[ROOT], ROOT, deg, valid) && ROOT !in sh.kids[ROOT]
    requires forall d :: d in valid ==> d < |deg| && min != NIL && cmp(min, deg[d]) <= 0
    ensures forall x :: x in sh.kids[ROOT] ==> min != NIL && cmp(min, x) <= 0
  {
  }

  /** A least one of the roots in the slots is least of all. */
  lemma LeastOfRoots(l: Links, sh: Shape, cmp: Compare, min: nat, deg: seq<nat>, valid: set<nat>)
    requires Inv(l, sh, AtRest) && ROOT in sh.kids && Tally(l, sh.kids[ROOT], ROOT, deg, valid)
    requires OrderedBut(l, Live(sh), cmp, NIL) && TotalPreorder(cmp, Live(sh))
    requires min != NIL ==> min in sh.kids[ROOT]
    requires forall d :: d in valid ==> d < |deg| && min != NIL && cmp(min, deg[d]) <= 0
    ensures min == NIL <==> Live(sh) == {}
    ensures min != NIL ==> Least(cmp, min, Live(sh))
  {
    hide FibLinks.Ring, Tally, Placed;
    var b := RankBound(sh);
    assert forall x :: x in sh.kids[ROOT] ==> Child(l, sh, AtRest, ROOT, x);
    LeastSlot(l, sh, cmp, min, deg, valid);
    if min != NIL {
      forall y | y in Live(sh) ensures cmp(min, y) <= 0 {
        LeastRoot(l, sh, cmp, min, y, b);
      }
    } else {
      forall y | y in Live(sh) ensures false {
        var r := RootAbove(l, sh, y, b);
      }
    }
  }

  /** Nodes hang from roots. */
  lemma {:induction false} RootAbove(l: Links, sh: Shape, y: nat, bound: nat) returns (r: nat)
    requires Tree(l, sh, AtRest) && y in Live(sh)
    requires forall x :: x in sh.rank ==> sh.rank[x] <= bound
    ensures r in sh.kids[ROOT]
    decreases bound - (if y in sh.rank then sh.rank[y] else 0)
  {
    assert Placed(l, sh, y);
    var p := At(l, y).sup;
    r := y;
    if p != NIL {
      assert Child(l, sh, AtRest, p, y);
      r := RootAbove(l, sh, p, bound);
    }
  }

  lemma DeleteFacts(l: Links, sh: Shape, x: nat) returns (p: nat, s: seq<nat>)
    requires Inv(l, sh, AtRest) && x in Live(sh)
    ensures p == Parent(At(l, x)) && p in sh.kids && x in sh.kids[p] && x in sh.kids && s == sh.kids[x]
    ensures p == ROOT ==> At(l, x).sup == NIL
    ensures p != ROOT ==> At(l, x).sup == p && p != x && p != NIL
    ensures |l.nodes| <= ROOT && Distinct(sh.kids[p]) && At(l, x).sub == FirstOf(s) && x !in SetOf(s)
    ensures p !in SetOf(s)
  {
    assert Placed(l, sh, x);
    p, s := Parent(At(l, x)), sh.kids[x];
    assert Child(l, sh, AtRest, p, x);
    assert DegreeAt(l, sh, AtRest, x);
    assert Ring(l, Ring0(sh, p));
    DistinctKids(l, sh, p);
    assert x in sh.kids[x] ==> Child(l, sh, AtRest, x, x);
    assert p in sh.kids[x] ==> Child(l, sh, AtRest, x, p);
  }

  lemma RingIn(l: Links, sh: Shape, g: Gap, x: nat)
    requires Inv(l, sh, g) && x in Live(sh)
    ensures Ring(l, sh.kids[x])
  {
    assert Ring(l, Ring0(sh, x));
  }

  /** Unlinking `x` and letting its children hang leaves only its parent to be told. */
  lemma DeleteInv(l: Links, sh: Shape, x: nat, p: nat)
    requires Inv(l, sh, AtRest) && |l.nodes| <= ROOT && x in Live(sh)
    requires p == Parent(At(l, x)) && p in sh.kids && x in sh.kids[p] && (p != ROOT ==> p != x && p != NIL)
    requires Distinct(sh.kids[p])
    ensures l.Has(At(l, x).prev) && l.Has(At(l, x).next)
    ensures var r, t := Unlink(l, x), DropNode(DetachShape(sh, p, x), x);
            && Inv(r, t, Gap(SetOf(sh.kids[x]), if p == ROOT then NIL else p, NIL))
            && Ring(r, sh.kids[x])
            && (p != ROOT ==> p in t.kids && (|t.kids[p]| > 0 ==> At(r, x).next == t.kids[p][0]))
  {
    hide FibForest.Inv, FibLinks.Ring;
    DetachInv(l, sh, AtRest, p, x);
    var r, d, e := Unlink(l, x), DetachShape(sh, p, x), DetachGap(AtRest, p, x);
    DetachMembers(sh, p, x);
    RingIn(r, d, e, x);
    Drop(r, d, e, x);
    assert DropGap(d, e, x) == Gap(SetOf(sh.kids[x]), if p == ROOT then NIL else p, NIL);
  }

  lemma SettledAtRest(l: Links, sh: Shape, x: nat, wasMarked: bool)
    requires Inv(l, sh, Gap({}, NIL, if wasMarked then x else NIL)) && x in Live(sh)
    requires wasMarked ==> At(l, x).sup == NIL
    ensures Inv(l, sh, AtRest)
  {
    if wasMarked {
      assert Placed(l, sh, x);
      RootNotDue(l, sh, Gap({}, NIL, x));
    }
  }

  lemma CascadeFacts(l: Links, sh: Shape, x: nat, p: nat)
    requires Inv(l, sh, Gap({}, NIL, x)) && x in Live(sh) && At(l, x).sup == p && p != NIL
    ensures ROOT in sh.kids && |l.nodes| <= ROOT && l.Has(x)
    ensures p in Live(sh) && x in sh.kids[p] && x !in sh.kids[ROOT] && Distinct(sh.kids[p])
  {
    var g := Gap({}, NIL, x);
    assert Placed(l, sh, x);
    assert Child(l, sh, g, p, x);
    OneParent(l, sh, g, p, ROOT, x);
    assert Ring(l, Ring0(sh, p));
    DistinctKids(l, sh, p);
  }

  function Cascaded(l: Links, x: nat): Links
    requires |l.nodes| <= ROOT && x != ROOT
    requires l.Has(At(l, x).prev) && l.Has(At(l, x).next) && l.Has(x) && l.Has(At(Unlink(l, x), ROOT).next)
  {
    HangRoot(Unlink(l, x), x)
  }

  lemma CascadedMarks(l: Links, x: nat)
    requires |l.nodes| <= ROOT && x != ROOT
    requires l.Has(At(l, x).prev) && l.Has(At(l, x).next) && l.Has(x) && l.Has(At(Unlink(l, x), ROOT).next)
    ensures forall c {:trigger At(Cascaded(l, x), c)} :: (At(Cascaded(l, x), c).isMarked == At(l, c).isMarked
      && At(Cascaded(l, x), c).sup == if c == x then NIL else At(l, c).sup)
  {
  }

  function CascadedShape(sh: Shape, x: nat, p: nat): Shape
    requires p in sh.kids && x in sh.kids[p] && ROOT in sh.kids
  {
    RootShape(DetachShape(sh, p, x), x)
  }

  /** Cutting `x`, which has lost a second child, leaves its parent to be told. */
  lemma CascadeInv(l: Links, sh: Shape, x: nat, p: nat)
    requires Inv(l, sh, Gap({}, NIL, x)) && x in Live(sh) && At(l, x).sup == p && p != NIL
    ensures ROOT in sh.kids && |l.nodes| <= ROOT && p in Live(sh) && x in sh.kids[p]
    ensures l.Has(At(l, x).prev) && l.Has(At(l, x).next) && l.Has(x) && l.Has(At(Unlink(l, x), ROOT).next)
    ensures Inv(Cascaded(l, x), CascadedShape(sh, x, p), Gap({}, p, NIL))
    ensures Live(CascadedShape(sh, x, p)) == Live(sh)
    ensures ROOT in CascadedShape(sh, x, p).kids && p in CascadedShape(sh, x, p).kids
    ensures x !in SetOf(sh.kids[ROOT]) && SetOf(CascadedShape(sh, x, p).kids[ROOT]) == SetOf(sh.kids[ROOT]) + {x}
    ensures |CascadedShape(sh, x, p).kids[p]| > 0 ==> At(l, x).next == CascadedShape(sh, x, p).kids[p][0]
    ensures |Cascaded(l, x).nodes| == |l.nodes|
    ensures forall j {:trigger At(Cascaded(l, x), j)} ::
      (At(Cascaded(l, x), j).sup == NIL || At(Cascaded(l, x), j).sup == At(l, j).sup)
  {
    hide FibForest.Inv, FibForest.Tree, FibLinks.Ring;
    CascadeFacts(l, sh, x, p);
    DetachMembers(sh, p, x);
    DetachInv(l, sh, Gap({}, NIL, x), p, x);
    var d := Gap({x}, p, NIL);
    assert DetachGap(Gap({}, NIL, x), p, x) == d;
    HangRootInv(Unlink(l, x), DetachShape(sh, p, x), d, x);
    assert d.(loose := d.loose - {x}) == Gap({}, p, NIL);
  }

  function LinkedRoots(l: Links, p: nat, c: nat): Links
    requires |l.nodes| <= ROOT && l.Has(p) && l.Has(c) && p != c
    requires l.Has(At(l, c).prev) && l.Has(At(l, c).next)
    requires At(l, p).sub == NIL || (l.Has(At(l, p).sub) && l.Has(At(Unlink(l, c), At(l, p).sub).next))
  {
    HangChild(Unlink(l, c), p, c)
  }

  function LinkedShape(sh: Shape, p: nat, c: nat): Shape
    requires ROOT in sh.kids && c in sh.kids[ROOT] && p in sh.kids && p in sh.rank && c in sh.rank
  {
    ChildShape(DetachShape(sh, ROOT, c), p, c)
  }

  lemma RootFacts(l: Links, sh: Shape, p: nat)
    requires Inv(l, sh, AtRest) && p in sh.kids[ROOT]
    ensures p in Live(sh) && p in sh.rank && At(l, p).nSub == |sh.kids[p]| && At(l, p).sup == NIL
    ensures Distinct(sh.kids[ROOT])
  {
    assert Child(l, sh, AtRest, ROOT, p);
    assert DegreeAt(l, sh, AtRest, p);
    assert Ring(l, Ring0(sh, ROOT));
    DistinctKids(l, sh, ROOT);
  }

  /** A consolidation step keeps the forest well formed: the two roots have equal degrees. */
  lemma LinkRootsInv(l: Links, sh: Shape, p: nat, c: nat)
    requires Inv(l, sh, AtRest) && p in sh.kids[ROOT] && c in sh.kids[ROOT] && p != c
    requires At(l, p).nSub == At(l, c).nSub
    ensures |l.nodes| <= ROOT && p in Live(sh) && c in Live(sh) && p in sh.rank && c in sh.rank
    ensures l.Has(At(l, c).prev) && l.Has(At(l, c).next)
    ensures At(l, p).sub == NIL || (l.Has(At(l, p).sub) && l.Has(At(Unlink(l, c), At(l, p).sub).next))
    ensures Inv(LinkedRoots(l, p, c), LinkedShape(sh, p, c), AtRest)
    ensures Live(LinkedShape(sh, p, c)) == Live(sh)
    ensures LinkedShape(sh, p, c).kids[ROOT] == DetachShape(sh, ROOT, c).kids[ROOT]
    ensures |LinkedRoots(l, p, c).nodes| == |l.nodes|
    ensures At(LinkedRoots(l, p, c), c).sup == p && At(LinkedRoots(l, p, c), p).sup == NIL
    ensures forall j {:trigger At(LinkedRoots(l, p, c), j)} :: j != p && j != c ==>
              At(LinkedRoots(l, p, c), j).sup == At(l, j).sup && At(LinkedRoots(l, p, c), j).nSub == At(l, j).nSub
  {
    hide FibForest.Inv, FibForest.Tree, FibLinks.Ring;
    InvFacts(l, sh, AtRest);
    RootFacts(l, sh, p);
    RootFacts(l, sh, c);
    DetachInv(l, sh, AtRest, ROOT, c);
    DetachMembers(sh, ROOT, c);
    var d := DetachShape(sh, ROOT, c);
    var g := DetachGap(AtRest, ROOT, c);
    assert g == Gap({c}, NIL, NIL);
    assert At(Unlink(l, c), p).SameTree(At(l, p));
    HangChildInv(Unlink(l, c), d, g, p, c);
    assert g.(loose := g.loose - {c}) == AtRest;
  }

  lemma ScatteredFacts(l: Links, sh: Shape, r: Links, t: Shape, moved: set<nat>, x: nat, p: nat)
    requires Scattered(l, sh, r, t, moved) && x !in moved && x != ROOT
    ensures |r.nodes| == |l.nodes| && t.kids.Keys == sh.kids.Keys
    ensures At(r, x).SameTree(At(l, x)) && At(r, x).next == At(l, x).next
    ensures p != ROOT && p !in moved ==> At(r, p).SameTree(At(l, p))
    ensures p in sh.kids && p != ROOT ==> p in t.kids && t.kids[p] == sh.kids[p]
    ensures forall j {:trigger At(r, j)} :: At(r, j).sup == NIL || At(r, j).sup == At(l, j).sup
  {
  }

  ghost function SetOf(s: seq<nat>): set<nat> { set c | c in s }

  lemma NoneListed(s: seq<nat>)
    requires FirstOf(s) == NIL && NIL !in SetOf(s)
    ensures s == []
  {
    assert |s| > 0 ==> FirstOf(s) in SetOf(s);
  }

  lemma RingNext(l: Links, s: seq<nat>, k: nat)
    requires Ring(l, s) && k < |s|
    ensures l.Has(s[k]) && At(l, s[k]).next == s[Succ(k, |s|)]
    ensures s[Succ(k, |s|)] == s[0] <==> k + 1 == |s|
    ensures s[k] in SetOf(s) && s[k] !in SetOf(s[..k])
  {
    assert Linked(l, s, k);
  }

  /** All that making roots of the nodes in `moved` has changed. */
  ghost function RootSet(sh: Shape): set<nat> {
    SetOf(if ROOT in sh.kids then sh.kids[ROOT] else [])
  }

  lemma CutsNone(l: Links, live: set<nat>)
    ensures OnlyCuts(l, live, l, live)
  {
  }

  ghost predicate Scattered(l: Links, sh: Shape, r: Links, t: Shape, moved: set<nat>) {
    && |r.nodes| == |l.nodes| && t.kids.Keys == sh.kids.Keys
    && (forall p :: p in sh.kids && p != ROOT ==> t.kids[p] == sh.kids[p])
    && (forall j {:trigger At(r, j)} :: At(r, j).sup == NIL || At(r, j).sup == At(l, j).sup)
    && (forall j {:trigger At(r, j)} :: j != ROOT && j !in moved ==>
          At(r, j).SameTree(At(l, j)) && At(r, j).next == At(l, j).next)
  }

  lemma ScatteredSelf(l: Links, sh: Shape)
    ensures Scattered(l, sh, l, sh, {})
  {
  }

  lemma ScatteredStep(l: Links, sh: Shape, r: Links, t: Shape, moved: set<nat>, x: nat)
    requires Scattered(l, sh, r, t, moved) && r.Has(x) && r.Has(r.root.next) && x != ROOT && |r.nodes| <= ROOT
    requires ROOT in t.kids && x !in moved
    ensures At(r, x).next == At(l, x).next
    ensures Scattered(l, sh, HangRoot(r, x), RootShape(t, x), moved + {x})
  {
  }

  /** What callers need to know of a heap without unfolding what it means to be one. */
  lemma InvFacts(l: Links, sh: Shape, g: Gap)
    requires Inv(l, sh, g)
    ensures |l.nodes| <= ROOT && ROOT in sh.kids && sh.kids.Keys == sh.rank.Keys
    ensures forall p :: p in sh.kids ==> l.Has(p)
    ensures g.loose <= sh.kids.Keys - {ROOT}
    ensures forall c :: c in Live(sh) && c !in g.loose ==> At(l, c).sup == NIL || At(l, c).sup in Live(sh)
  {
    forall c | c in Live(sh) && c !in g.loose ensures At(l, c).sup == NIL || At(l, c).sup in Live(sh) {
      assert Placed(l, sh, c);
    }
  }
}

/** Well-formedness of the forest that the links of a Fibonacci heap encode, and the steps
    out of which every operation is built. */
module FibForest {
  import opened FibLinks
  import opened FibDegree

  /** What the links mean. `kids[p]` lists the ring of children of `p` starting at its `sub`;
      `kids[ROOT]` lists the roots. `rank` falls along every edge, so there is no cycle. */
  datatype Shape = Shape(kids: map<nat, seq<nat>>, rank: map<nat, nat>)

  /** How far the links are from rest: `loose` nodes hang in no ring; node `short` has
      lost a child that its `nSub` and `sub` do not yet know about; node `due` has lost a
      second child and is about to be cut from its parent. */
  datatype Gap = Gap(loose: set<nat>, short: nat, due: nat)

  const AtRest := Gap({}, NIL, NIL)

  ghost function Ring0(sh: Shape, p: nat): seq<nat>
    requires p in sh.kids
  {
    if p == ROOT then [ROOT] + sh.kids[p] else sh.kids[p]
  }

  function SupField(p: nat): nat { if p == ROOT then NIL else p }
  function Parent(n: Node): nat { if n.sup == NIL then ROOT else n.sup }

  /** The entry that child `c` counts for in its parent's degree bound. */
  function Counted(l: Links, g: Gap, c: nat): nat {
    At(l, c).Eff() + if c == g.due then 1 else 0
  }

  function Effs(l: Links, g: Gap, s: seq<nat>): (e: seq<nat>)
    ensures |e| == |s|
    ensures forall i :: 0 <= i < |s| ==> e[i] == Counted(l, g, s[i])
  {
    seq(|s|, i requires 0 <= i < |s| => Counted(l, g, s[i]))
  }

  ghost predicate Child(l: Links, sh: Shape, g: Gap, p: nat, c: nat)
    requires p in sh.kids && p in sh.rank
  {
    && c in sh.kids && c in sh.rank && c != ROOT && c !in g.loose
    && At(l, c).sup == SupField(p)
    && (p != ROOT ==> sh.rank[c] < sh.rank[p])
  }

  /** `c` is in the ring its `sup` names. */
  ghost predicate Placed(l: Links, sh: Shape, c: nat) {
    && At(l, c).sup != ROOT
    && Parent(At(l, c)) in sh.kids
    && c in sh.kids[Parent(At(l, c))]
  }

  ghost predicate Tree(l: Links, sh: Shape, g: Gap) {
    && |l.nodes| <= ROOT
    && ROOT in sh.kids && sh.kids.Keys == sh.rank.Keys
    && (forall p :: p in sh.kids ==> l.Has(p))
    && g.loose <= sh.kids.Keys - {ROOT}
    && (forall p, c :: p in sh.kids && c in sh.kids[p] ==> Child(l, sh, g, p, c))
    && (forall c :: c in sh.kids && c != ROOT && c !in g.loose ==> Placed(l, sh, c))
  }

  ghost predicate Rings(l: Links, sh: Shape)
    requires ROOT in sh.kids
  {
    forall p :: p in sh.kids ==> Ring(l, Ring0(sh, p))
  }

  function FirstOf(s: seq<nat>): nat { if |s| == 0 then NIL else s[0] }

  ghost predicate DegreeAt(l: Links, sh: Shape, g: Gap, x: nat)
    requires x in sh.kids
  {
    if x == g.short then At(l, x).nSub == |sh.kids[x]| + 1
    else At(l, x).nSub == |sh.kids[x]| && At(l, x).sub == FirstOf(sh.kids[x])
  }

  ghost predicate Degrees(l: Links, sh: Shape, g: Gap) {
    forall x :: x in sh.kids && x != ROOT ==> DegreeAt(l, sh, g, x)
  }

  ghost predicate Spreads(l: Links, sh: Shape, g: Gap) {
    forall x :: x in sh.kids && x != ROOT ==> Spread(Effs(l, g, sh.kids[x]))
  }

  ghost predicate Inv(l: Links, sh: Shape, g: Gap) {
    Tree(l, sh, g) && Rings(l, sh) && Degrees(l, sh, g) && Spreads(l, sh, g)
  }

  /** Only members of the heap that hang in a ring are listed in one. */
  lemma NotInRing0(l: Links, sh: Shape, g: Gap, p: nat, x: nat)
    requires Tree(l, sh, g) && p in sh.kids && x != ROOT && (x !in sh.kids || x in g.loose)
    ensures x !in Ring0(sh, p) && x !in sh.kids[p]
  {
    assert x in sh.kids[p] ==> Child(l, sh, g, p, x);
  }

  lemma EffsFrame(l: Links, g: Gap, r: Links, h: Gap, s: seq<nat>)
    requires forall c :: c in s ==> Counted(r, h, c) == Counted(l, g, c)
    ensures Effs(r, h, s) == Effs(l, g, s)
  {
  }

  // ---- entering and leaving the heap ----

  /** The shape with a new childless node `x`. */
  function AddNode(sh: Shape, x: nat): Shape {
    Shape(sh.kids[x := []], sh.rank[x := 0])
  }

  lemma IntroduceTree(l: Links, sh: Shape, g: Gap, x: nat, n: Node)
    requires Tree(l, sh, g) && x !in sh.kids && l.Has(x)
    ensures Tree(Put(l, x, n), AddNode(sh, x), g.(loose := g.loose + {x}))
  {
    var r, t, h := Put(l, x, n), AddNode(sh, x), g.(loose := g.loose + {x});
    forall p, c | p in t.kids && c in t.kids[p] ensures Child(r, t, h, p, c) {
      assert Child(l, sh, g, p, c);
    }
    forall c | c in t.kids && c != ROOT && c !in h.loose ensures Placed(r, t, c) {
      assert Placed(l, sh, c);
    }
  }

  lemma IntroduceRings(l: Links, sh: Shape, g: Gap, x: nat, n: Node)
    requires Tree(l, sh, g) && Rings(l, sh) && x !in sh.kids && l.Has(x)
    ensures Rings(Put(l, x, n), AddNode(sh, x))
  {
    var r, t := Put(l, x, n), AddNode(sh, x);
    forall p | p in t.kids ensures Ring(r, Ring0(t, p)) {
      if p != x {
        NotInRing0(l, sh, g, p, x);
        RingFrame(l, r, Ring0(sh, p));
      }
    }
  }

  lemma Introduce(l: Links, sh: Shape, g: Gap, x: nat, n: Node)
    requires Inv(l, sh, g) && x !in sh.kids && l.Has(x) && x != g.short
    requires n.sub == NIL && n.nSub == 0
    ensures Inv(Put(l, x, n), AddNode(sh, x), g.(loose := g.loose + {x}))
  {
    var r, t, h := Put(l, x, n), AddNode(sh, x), g.(loose := g.loose + {x});
    IntroduceTree(l, sh, g, x, n);
    IntroduceRings(l, sh, g, x, n);
    forall y | y in t.kids && y != ROOT ensures DegreeAt(r, t, h, y) && Spread(Effs(r, h, t.kids[y])) {
      if y != x {
        assert DegreeAt(l, sh, g, y);
        NotInRing0(l, sh, g, y, x);
        EffsFrame(l, g, r, h, sh.kids[y]);
      }
    }
  }

  /** The shape without the detached node `x`, whose children are left hanging. */
  function DropNode(sh: Shape, x: nat): Shape {
    Shape(sh.kids - {x}, sh.rank - {x})
  }

  function DropGap(sh: Shape, g: Gap, x: nat): Gap
    requires x in sh.kids
  {
    g.(loose := g.loose - {x} + (set c | c in sh.kids[x]))
  }

  lemma DropTree(l: Links, sh: Shape, g: Gap, x: nat)
    requires Tree(l, sh, g) && x in g.loose
    ensures Tree(l, DropNode(sh, x), DropGap(sh, g, x))
  {
    var t, h := DropNode(sh, x), DropGap(sh, g, x);
    forall c | c in sh.kids[x] ensures c in t.kids && c != ROOT {
      assert Child(l, sh, g, x, c);
    }
    forall p, c | p in t.kids && c in t.kids[p] ensures Child(l, t, h, p, c) {
      assert Child(l, sh, g, p, c);
      assert c in sh.kids[x] ==> Child(l, sh, g, x, c);
    }
    forall c | c in t.kids && c != ROOT && c !in h.loose ensures Placed(l, t, c) {
      assert Placed(l, sh, c);
    }
  }

  lemma Drop(l: Links, sh: Shape, g: Gap, x: nat)
    requires Inv(l, sh, g) && x in g.loose && x != g.short
    ensures Inv(l, DropNode(sh, x), DropGap(sh, g, x))
  {
    var t, h := DropNode(sh, x), DropGap(sh, g, x);
    DropTree(l, sh, g, x);
    forall p | p in t.kids ensures Ring(l, Ring0(t, p)) {
      assert Ring(l, Ring0(sh, p));
    }
    forall y | y in t.kids && y != ROOT ensures DegreeAt(l, t, h, y) && Spread(Effs(l, h, t.kids[y])) {
      assert DegreeAt(l, sh, g, y);
      EffsFrame(l, g, l, h, sh.kids[y]);
    }
  }

  // ---- hanging a loose node in a ring ----

  /** Two rings share no node. */
  lemma RingsApart(l: Links, sh: Shape, g: Gap, p: nat, q: nat, c: nat)
    requires Tree(l, sh, g) && p in sh.kids && q in sh.kids && p != q && c in Ring0(sh, p)
    ensures c !in Ring0(sh, q)
  {
    assert c in sh.kids[p] ==> Child(l, sh, g, p, c);
    assert c in sh.kids[q] ==> Child(l, sh, g, q, c);
  }

  lemma OneParent(l: Links, sh: Shape, g: Gap, p: nat, q: nat, c: nat)
    requires Tree(l, sh, g) && p in sh.kids && q in sh.kids && p != q && c in sh.kids[p]
    ensures c !in sh.kids[q] && c in sh.kids && c != ROOT && c !in g.loose
  {
    assert Child(l, sh, g, p, c);
    assert c in sh.kids[q] ==> Child(l, sh, g, q, c);
  }

  /** c.sup = NIL followed by addRoot. */
  function HangRoot(l: Links, x: nat): Links
    requires l.Has(x) && l.Has(l.root.next) && x != ROOT && |l.nodes| <= ROOT
  {
    LinkAfter(Put(l, x, At(l, x).(sup := NIL)), ROOT, x)
  }

  function RootShape(sh: Shape, x: nat): Shape
    requires ROOT in sh.kids
  {
    sh.(kids := sh.kids[ROOT := [x] + sh.kids[ROOT]])
  }

  lemma HangRootRings(l: Links, sh: Shape, g: Gap, x: nat)
    requires Tree(l, sh, g) && Rings(l, sh) && x in g.loose
    ensures l.Has(l.root.next) && Rings(HangRoot(l, x), RootShape(sh, x))
    ensures l.root.next == ROOT || l.root.next in sh.kids[ROOT]
  {
    var m := Put(l, x, At(l, x).(sup := NIL));
    forall p | p in sh.kids ensures Ring(m, Ring0(sh, p)) {
      RingFrame(l, m, Ring0(sh, p));
    }
    var s := Ring0(sh, ROOT);
    NotInRing0(l, sh, g, ROOT, x);
    RingInsert(m, s, x);
    var r, t := HangRoot(l, x), RootShape(sh, x);
    assert Ring0(t, ROOT) == [s[0], x] + s[1..];
    forall p | p in sh.kids && p != ROOT ensures Ring(r, Ring0(t, p)) {
      var u := Ring0(sh, p);
      NotInRing0(l, sh, g, p, x);
      forall i | 0 <= i < |u| ensures u[i] !in s {
        RingsApart(l, sh, g, p, ROOT, u[i]);
      }
      RingFrame(m, r, u);
    }
  }

  lemma HangRootTree(l: Links, sh: Shape, g: Gap, x: nat)
    requires Tree(l, sh, g) && x in g.loose && l.Has(l.root.next)
    ensures Tree(HangRoot(l, x), RootShape(sh, x), g.(loose := g.loose - {x}))
  {
    var r, t, h := HangRoot(l, x), RootShape(sh, x), g.(loose := g.loose - {x});
    forall p, c | p in t.kids && c in t.kids[p] ensures Child(r, t, h, p, c) {
      assert c in sh.kids[p] ==> Child(l, sh, g, p, c);
    }
    forall c | c in t.kids && c != ROOT && c !in h.loose ensures Placed(r, t, c) {
      assert c != x ==> Placed(l, sh, c);
    }
  }

  lemma HangRootInv(l: Links, sh: Shape, g: Gap, x: nat)
    requires Inv(l, sh, g) && x in g.loose
    ensures l.Has(l.root.next)
    ensures Inv(HangRoot(l, x), RootShape(sh, x), g.(loose := g.loose - {x}))
  {
    HangRootRings(l, sh, g, x);
    HangRootTree(l, sh, g, x);
    var r, t, h := HangRoot(l, x), RootShape(sh, x), g.(loose := g.loose - {x});
    forall y | y in t.kids && y != ROOT ensures DegreeAt(r, t, h, y) && Spread(Effs(r, h, t.kids[y])) {
      assert DegreeAt(l, sh, g, y);
      HangRootDegrees(l, sh, g, x, y);
    }
  }

  lemma HangRootDegrees(l: Links, sh: Shape, g: Gap, x: nat, y: nat)
    requires l.Has(x) && l.Has(l.root.next) && x != ROOT && |l.nodes| <= ROOT && ROOT in sh.kids
    requires y in sh.kids && y != ROOT && DegreeAt(l, sh, g, y) && Spread(Effs(l, g, sh.kids[y]))
    ensures DegreeAt(HangRoot(l, x), RootShape(sh, x), g.(loose := g.loose - {x}), y)
    ensures Spread(Effs(HangRoot(l, x), g.(loose := g.loose - {x}), RootShape(sh, x).kids[y]))
  {
    hide Spread, Effs;
    EffsFrame(l, g, HangRoot(l, x), g.(loose := g.loose - {x}), sh.kids[y]);
  }

  // ---- taking a node out of its ring ----

  function IndexOf(s: seq<nat>, x: nat): (i: nat)
    requires x in s
    ensures i < |s| && s[i] == x
  {
    if s[0] == x then 0 else 1 + IndexOf(s[1..], x)
  }

  /** The ring without `x`; a ring of children is left to start at the one after `x`. */
  function Without(s: seq<nat>, x: nat): seq<nat>
    requires x in s
  {
    var i := IndexOf(s, x);
    s[i+1..] + s[..i]
  }

  function DetachShape(sh: Shape, p: nat, x: nat): Shape
    requires p in sh.kids && x in sh.kids[p]
  {
    var i := IndexOf(sh.kids[p], x);
    sh.(kids := sh.kids[p := if p == ROOT then sh.kids[p][..i] + sh.kids[p][i+1..] else Without(sh.kids[p], x)])
  }

  function DetachGap(g: Gap, p: nat, x: nat): Gap {
    Gap(g.loose + {x}, if p == ROOT then g.short else p, if g.due == x then NIL else g.due)
  }

  lemma DetachMembers(sh: Shape, p: nat, x: nat)
    requires p in sh.kids && x in sh.kids[p] && Distinct(sh.kids[p])
    ensures var s, t := sh.kids[p], DetachShape(sh, p, x).kids[p];
            |t| == |s| - 1 && forall c :: c in t <==> c in s && c != x
  {
    var s := sh.kids[p];
    var i := IndexOf(s, x);
    assert s == s[..i] + [x] + s[i+1..];
    assert x !in s[..i] && x !in s[i+1..];
  }

  lemma RingRemoveRotate(l: Links, s: seq<nat>, k: nat)
    requires Ring(l, s) && k < |s| && |l.nodes| <= ROOT
    ensures l.Has(At(l, s[k]).prev) && l.Has(At(l, s[k]).next)
    ensures At(l, s[k]).prev in s && At(l, s[k]).next in s
    ensures Ring(Unlink(l, s[k]), s[k+1..] + s[..k])
  {
    hide FibLinks.Ring, Distinct, Linked;
    RingRemove(l, s, k);
    var u := s[..k] + s[k+1..];
    RingRotate(Unlink(l, s[k]), u, k);
    assert u[k..] == s[k+1..] && u[..k] == s[..k];
  }

  /** The ring `x` leaves. */
  lemma DetachOwnRing(l: Links, sh: Shape, p: nat, x: nat)
    requires p in sh.kids && Ring(l, Ring0(sh, p)) && x in sh.kids[p] && |l.nodes| <= ROOT
    ensures l.Has(At(l, x).prev) && l.Has(At(l, x).next)
    ensures At(l, x).prev in Ring0(sh, p) && At(l, x).next in Ring0(sh, p)
    ensures p in DetachShape(sh, p, x).kids && Ring(Unlink(l, x), Ring0(DetachShape(sh, p, x), p))
  {
    hide FibLinks.Ring, Distinct, Linked;
    var s := sh.kids[p];
    var k := IndexOf(s, x);
    if p == ROOT {
      var u := [ROOT] + s;
      RingRemove(l, u, k + 1);
      assert u[k+1] == x && u[..k+1] + u[k+2..] == [ROOT] + (s[..k] + s[k+1..]);
    } else {
      RingRemoveRotate(l, s, k);
    }
  }

  lemma DetachKeeps(sh: Shape, p: nat, x: nat, q: nat)
    requires p in sh.kids && x in sh.kids[p] && q in sh.kids && q != p
    ensures q in DetachShape(sh, p, x).kids && DetachShape(sh, p, x).kids[q] == sh.kids[q]
  {
  }

  lemma DetachRing(l: Links, sh: Shape, g: Gap, p: nat, x: nat, q: nat)
    requires Tree(l, sh, g) && p in sh.kids && q in sh.kids && x in sh.kids[p]
    requires Ring(l, Ring0(sh, p)) && Ring(l, Ring0(sh, q))
    ensures l.Has(At(l, x).prev) && l.Has(At(l, x).next)
    ensures q in DetachShape(sh, p, x).kids && Ring(Unlink(l, x), Ring0(DetachShape(sh, p, x), q))
  {
    hide FibLinks.Ring, FibLinks.Linked, Distinct, DetachShape;
    DetachOwnRing(l, sh, p, x);
    if q != p {
      DetachKeeps(sh, p, x, q);
      RingsApart(l, sh, g, p, q, At(l, x).prev);
      RingsApart(l, sh, g, p, q, At(l, x).next);
      RingFrame(l, Unlink(l, x), Ring0(sh, q));
    }
  }

  lemma DetachRings(l: Links, sh: Shape, g: Gap, p: nat, x: nat)
    requires Tree(l, sh, g) && Rings(l, sh) && p in sh.kids && x in sh.kids[p]
    ensures l.Has(At(l, x).prev) && l.Has(At(l, x).next)
    ensures Rings(Unlink(l, x), DetachShape(sh, p, x))
  {
    DetachRing(l, sh, g, p, x, p);
    var r, t := Unlink(l, x), DetachShape(sh, p, x);
    forall q | q in t.kids ensures Ring(r, Ring0(t, q)) {
      DetachRing(l, sh, g, p, x, q);
    }
  }

  lemma DetachTree(l: Links, sh: Shape, g: Gap, p: nat, x: nat)
    requires Tree(l, sh, g) && p in sh.kids && x in sh.kids[p] && Distinct(sh.kids[p])
    requires l.Has(At(l, x).prev) && l.Has(At(l, x).next)
    ensures Tree(Unlink(l, x), DetachShape(sh, p, x), DetachGap(g, p, x))
  {
    var r, t, h := Unlink(l, x), DetachShape(sh, p, x), DetachGap(g, p, x);
    DetachMembers(sh, p, x);
    assert Child(l, sh, g, p, x);
    forall q, c | q in t.kids && c in t.kids[q] ensures Child(r, t, h, q, c) {
      assert Child(l, sh, g, q, c);
    }
    forall c | c in t.kids && c != ROOT && c !in h.loose ensures Placed(r, t, c) {
      assert Placed(l, sh, c);
    }
  }

  lemma SpreadWithout(l: Links, g: Gap, r: Links, h: Gap, s: seq<nat>, x: nat)
    requires x in s && Spread(Effs(l, g, s))
    requires forall c :: c in Without(s, x) ==> Counted(r, h, c) == Counted(l, g, c)
    ensures Spread(Effs(r, h, Without(s, x)))
  {
    var i := IndexOf(s, x);
    var e := Effs(l, g, s);
    assert e == e[..i] + [e[i]] + e[i+1..];
    SpreadRemove(e[..i], e[i], e[i+1..]);
    EffsFrame(l, g, r, h, Without(s, x));
    assert Effs(l, g, Without(s, x)) == e[i+1..] + e[..i];
  }

  lemma DetachParentDegrees(l: Links, sh: Shape, g: Gap, p: nat, x: nat)
    requires p in sh.kids && x in sh.kids[p] && Distinct(sh.kids[p]) && p != ROOT && |l.nodes| <= ROOT
    requires DegreeAt(l, sh, g, p) && Spread(Effs(l, g, sh.kids[p])) && p != g.short && NIL !in sh.kids[p]
    requires l.Has(At(l, x).prev) && l.Has(At(l, x).next)
    ensures DegreeAt(Unlink(l, x), DetachShape(sh, p, x), DetachGap(g, p, x), p)
    ensures Spread(Effs(Unlink(l, x), DetachGap(g, p, x), DetachShape(sh, p, x).kids[p]))
  {
    hide Spread;
    DetachMembers(sh, p, x);
    SpreadWithout(l, g, Unlink(l, x), DetachGap(g, p, x), sh.kids[p], x);
  }

  lemma DetachOtherDegrees(l: Links, sh: Shape, g: Gap, p: nat, x: nat, y: nat)
    requires Tree(l, sh, g) && y in sh.kids && y != p && y != ROOT
    requires p in sh.kids && x in sh.kids[p] && g.short == NIL
    requires DegreeAt(l, sh, g, y) && Spread(Effs(l, g, sh.kids[y]))
    requires l.Has(At(l, x).prev) && l.Has(At(l, x).next)
    ensures DegreeAt(Unlink(l, x), DetachShape(sh, p, x), DetachGap(g, p, x), y)
    ensures Spread(Effs(Unlink(l, x), DetachGap(g, p, x), DetachShape(sh, p, x).kids[y]))
  {
    OneParent(l, sh, g, p, y, x);
    hide Spread, Tree;
    EffsFrame(l, g, Unlink(l, x), DetachGap(g, p, x), sh.kids[y]);
  }

  lemma DetachDegrees(l: Links, sh: Shape, g: Gap, p: nat, x: nat, y: nat)
    requires Tree(l, sh, g) && Degrees(l, sh, g) && Spreads(l, sh, g)
    requires p in sh.kids && x in sh.kids[p] && g.short == NIL && Distinct(sh.kids[p])
    requires y in sh.kids && y != ROOT
    requires l.Has(At(l, x).prev) && l.Has(At(l, x).next)
    ensures DegreeAt(Unlink(l, x), DetachShape(sh, p, x), DetachGap(g, p, x), y)
    ensures Spread(Effs(Unlink(l, x), DetachGap(g, p, x), DetachShape(sh, p, x).kids[y]))
  {
    assert DegreeAt(l, sh, g, y);
    if y == p {
      assert NIL in sh.kids[p] ==> Child(l, sh, g, p, NIL);
      hide Spread, DegreeAt, Effs, DetachShape, DetachGap;
      DetachParentDegrees(l, sh, g, p, x);
    } else {
      hide Spread, DegreeAt, Effs, DetachShape, DetachGap;
      DetachOtherDegrees(l, sh, g, p, x, y);
    }
  }

  /** Afterwards x.next still names the node its old ring now starts at. */
  lemma DetachNext(l: Links, sh: Shape, p: nat, x: nat)
    requires p in sh.kids && p != ROOT && x in sh.kids[p] && Ring(l, sh.kids[p]) && |sh.kids[p]| > 1
    requires l.Has(At(l, x).prev) && l.Has(At(l, x).next) && |l.nodes| <= ROOT
    ensures At(l, x).next == At(Unlink(l, x), x).next == FirstOf(DetachShape(sh, p, x).kids[p])
  {
    var s := sh.kids[p];
    var i := IndexOf(s, x);
    assert Linked(l, s, i);
    assert s[Pred(i, |s|)] != x;
    assert Without(s, x)[0] == s[Succ(i, |s|)];
  }

  lemma DetachInv(l: Links, sh: Shape, g: Gap, p: nat, x: nat)
    requires Inv(l, sh, g) && p in sh.kids && x in sh.kids[p] && g.short == NIL
    ensures l.Has(At(l, x).prev) && l.Has(At(l, x).next)
    ensures Inv(Unlink(l, x), DetachShape(sh, p, x), DetachGap(g, p, x))
    ensures p != ROOT && |sh.kids[p]| > 1 ==>
      At(l, x).next == At(Unlink(l, x), x).next == FirstOf(DetachShape(sh, p, x).kids[p])
  {
    assert Ring(l, Ring0(sh, p));
    DistinctKids(l, sh, p);
    DetachRings(l, sh, g, p, x);
    DetachTree(l, sh, g, p, x);
    forall y | y in sh.kids && y != ROOT
      ensures DegreeAt(Unlink(l, x), DetachShape(sh, p, x), DetachGap(g, p, x), y)
      ensures Spread(Effs(Unlink(l, x), DetachGap(g, p, x), DetachShape(sh, p, x).kids[y]))
    {
      DetachDegrees(l, sh, g, p, x, y);
    }
    if p != ROOT && |sh.kids[p]| > 1 {
      DetachNext(l, sh, p, x);
    }
  }

  lemma DistinctKids(l: Links, sh: Shape, p: nat)
    requires p in sh.kids && Ring(l, Ring0(sh, p))
    ensures Distinct(sh.kids[p])
  {
    if p == ROOT {
      var s := Ring0(sh, p);
      forall i, j | 0 <= i < j < |sh.kids[p]| ensures sh.kids[p][i] != sh.kids[p][j] {
        assert s[i+1] != s[j+1];
      }
    }
  }

  // ---- telling a node that it lost a child ----

  function Settled(n: Node, ni: nat): Node
    requires n.nSub > 0
  {
    n.(nSub := n.nSub - 1, isMarked := true, sub := if n.nSub == 1 then NIL else ni)
  }

  lemma SettleInv(l: Links, sh: Shape, g: Gap, ni: nat)
    requires Inv(l, sh, g) && g.short in sh.kids && g.short != ROOT && g.due == NIL
    requires |sh.kids[g.short]| > 0 ==> ni == sh.kids[g.short][0]
    ensures At(l, g.short).nSub > 0
    ensures Inv(Put(l, g.short, Settled(At(l, g.short), ni)), sh,
                Gap(g.loose, NIL, if At(l, g.short).isMarked then g.short else NIL))
  {
    var x := g.short;
    assert DegreeAt(l, sh, g, x);
    var r := Put(l, x, Settled(At(l, x), ni));
    var h := Gap(g.loose, NIL, if At(l, x).isMarked then x else NIL);
    assert Tree(r, sh, h) by {
      forall p, c | p in sh.kids && c in sh.kids[p] ensures Child(r, sh, h, p, c) {
        assert Child(l, sh, g, p, c);
      }
      forall c | c in sh.kids && c != ROOT && c !in h.loose ensures Placed(r, sh, c) {
        assert Placed(l, sh, c);
      }
    }
    forall p | p in sh.kids ensures Ring(r, Ring0(sh, p)) {
      RingFrame(l, r, Ring0(sh, p));
    }
    forall y | y in sh.kids && y != ROOT ensures DegreeAt(r, sh, h, y) && Spread(Effs(r, h, sh.kids[y])) {
      assert DegreeAt(l, sh, g, y);
      EffsFrame(l, g, r, h, sh.kids[y]);
    }
  }

  /** A root is nobody's child, so it need not be cut. */
  lemma RootNotDue(l: Links, sh: Shape, g: Gap)
    requires Inv(l, sh, g) && g.due in sh.kids[ROOT]
    ensures Inv(l, sh, g.(due := NIL))
  {
    var h := g.(due := NIL);
    assert Tree(l, sh, h) by {
      forall p, c | p in sh.kids && c in sh.kids[p] ensures Child(l, sh, h, p, c) {
        assert Child(l, sh, g, p, c);
      }
    }
    forall y | y in sh.kids && y != ROOT ensures DegreeAt(l, sh, h, y) && Spread(Effs(l, h, sh.kids[y])) {
      assert DegreeAt(l, sh, g, y);
      OneParent(l, sh, g, ROOT, y, g.due);
      EffsFrame(l, g, l, h, sh.kids[y]);
    }
  }

  // ---- making a loose node a child ----

  /** The second half of a consolidation step of Min: `c` becomes a child of root `p`. */
  function HangChild(l: Links, p: nat, c: nat): (r: Links)
    requires l.Has(p) && l.Has(c) && |l.nodes| <= ROOT && p != c
    requires At(l, p).sub == NIL || (l.Has(At(l, p).sub) && l.Has(At(l, At(l, p).sub).next))
    ensures |r.nodes| == |l.nodes|
    ensures forall j {:trigger At(r, j)} :: j != p && j != c ==> At(r, j).SameTree(At(l, j))
    ensures At(r, c).SameTree(At(l, c).(isMarked := false, sup := p))
    ensures At(l, p).sub != NIL ==> At(r, p).SameTree(At(l, p).(nSub := At(l, p).nSub + 1))
    ensures At(l, p).sub == NIL ==> At(r, p).SameTree(At(l, p).(sub := c, nSub := 1, isMarked := false))
  {
    var l1 := Put(l, c, At(l, c).(isMarked := false, sup := p));
    var n := At(l1, p);
    if n.sub != NIL then
      LinkAfter(Put(l1, p, n.(nSub := n.nSub + 1)), n.sub, c)
    else
      var l2 := Put(l1, p, n.(sub := c, nSub := 1, isMarked := false));
      Put(l2, c, At(l2, c).(next := c, prev := c))
  }

  function ChildShape(sh: Shape, p: nat, c: nat): Shape
    requires p in sh.kids && p in sh.rank && c in sh.rank
  {
    var s := sh.kids[p];
    Shape(sh.kids[p := if |s| == 0 then [c] else [s[0], c] + s[1..]],
          sh.rank[p := if sh.rank[c] < sh.rank[p] then sh.rank[p] else sh.rank[c] + 1])
  }

  lemma SubOfRoot(l: Links, sh: Shape, g: Gap, p: nat)
    requires Inv(l, sh, g) && p in sh.kids && p != ROOT && p != g.short
    ensures At(l, p).sub == FirstOf(sh.kids[p])
    ensures At(l, p).sub == NIL <==> |sh.kids[p]| == 0
    ensures At(l, p).sub == NIL || (l.Has(At(l, p).sub) && l.Has(At(l, At(l, p).sub).next))
  {
    assert DegreeAt(l, sh, g, p);
    if |sh.kids[p]| > 0 {
      assert Ring(l, Ring0(sh, p));
      assert Linked(l, sh.kids[p], 0) && Linked(l, sh.kids[p], Succ(0, |sh.kids[p]|));
    }
  }

  lemma HangChildTree(l: Links, sh: Shape, g: Gap, p: nat, c: nat)
    requires Tree(l, sh, g) && c in g.loose && p in sh.kids[ROOT] && p in sh.kids && p in sh.rank
    requires c in sh.rank && p != c
    requires At(l, p).sub == FirstOf(sh.kids[p])
    requires At(l, p).sub == NIL || (l.Has(At(l, p).sub) && l.Has(At(l, At(l, p).sub).next))
    ensures Tree(HangChild(l, p, c), ChildShape(sh, p, c), g.(loose := g.loose - {c}))
  {
    var r, t, h := HangChild(l, p, c), ChildShape(sh, p, c), g.(loose := g.loose - {c});
    assert Child(l, sh, g, ROOT, p);
    assert forall d :: d in t.kids[p] <==> d in sh.kids[p] || d == c;
    forall q, d | q in t.kids && d in t.kids[q] ensures Child(r, t, h, q, d) {
      assert d in sh.kids[q] ==> Child(l, sh, g, q, d);
      assert d == p ==> q == ROOT;
    }
    forall d | d in t.kids && d != ROOT && d !in h.loose ensures Placed(r, t, d) {
      assert d != c ==> Placed(l, sh, d);
    }
  }

  /** The links just before LinkAfter, when `p` has children already. */
  function Hanging(l: Links, p: nat, c: nat): Links
    requires l.Has(p) && l.Has(c) && |l.nodes| <= ROOT
  {
    var l1 := Put(l, c, At(l, c).(isMarked := false, sup := p));
    Put(l1, p, At(l1, p).(nSub := At(l1, p).nSub + 1))
  }

  lemma HangChildOwnRing(l: Links, sh: Shape, g: Gap, p: nat, c: nat)
    requires Tree(l, sh, g) && c in g.loose && p in sh.kids && p != ROOT && c in sh.rank && p in sh.rank
    requires At(l, p).sub == FirstOf(sh.kids[p]) && p != c && Ring(l, sh.kids[p])
    ensures At(l, p).sub == NIL || (l.Has(At(l, p).sub) && l.Has(At(l, At(l, p).sub).next))
    ensures |sh.kids[p]| > 0 ==> At(l, At(l, p).sub).next in sh.kids[p]
    ensures Ring(HangChild(l, p, c), ChildShape(sh, p, c).kids[p])
  {
    var s := sh.kids[p];
    NotInRing0(l, sh, g, p, c);
    if |s| > 0 {
      assert Child(l, sh, g, p, s[0]);
      var l2 := Hanging(l, p, c);
      RingFrame(l, l2, s);
      RingInsert(l2, s, c);
    } else {
      assert Linked(HangChild(l, p, c), [c], 0);
    }
  }

  lemma HangChildOtherRing(l: Links, sh: Shape, g: Gap, p: nat, c: nat, q: nat)
    requires Tree(l, sh, g) && c in g.loose && p in sh.kids && p != ROOT && p != c
    requires At(l, p).sub == FirstOf(sh.kids[p]) && q in sh.kids && q != p && Ring(l, Ring0(sh, q))
    requires At(l, p).sub == NIL || (l.Has(At(l, p).sub) && l.Has(At(l, At(l, p).sub).next))
    requires |sh.kids[p]| > 0 ==> At(l, At(l, p).sub).next in sh.kids[p]
    ensures Ring(HangChild(l, p, c), Ring0(sh, q))
  {
    var s, u := sh.kids[p], Ring0(sh, q);
    NotInRing0(l, sh, g, q, c);
    if |s| > 0 {
      assert Child(l, sh, g, p, s[0]);
      var l2 := Hanging(l, p, c);
      RingFrame(l, l2, u);
      RingsApart(l, sh, g, p, q, s[0]);
      RingsApart(l, sh, g, p, q, At(l2, s[0]).next);
      RingFrame(l2, LinkAfter(l2, s[0], c), u);
    } else {
      RingFrame(l, HangChild(l, p, c), u);
    }
  }

  lemma HangChildRing(l: Links, sh: Shape, g: Gap, p: nat, c: nat, q: nat)
    requires Tree(l, sh, g) && c in g.loose && p in sh.kids && p != ROOT && c in sh.rank && p in sh.rank
    requires At(l, p).sub == FirstOf(sh.kids[p])
    requires q in sh.kids && Ring(l, Ring0(sh, q)) && Ring(l, Ring0(sh, p)) && p != c
    ensures At(l, p).sub == NIL || (l.Has(At(l, p).sub) && l.Has(At(l, At(l, p).sub).next))
    ensures Ring(HangChild(l, p, c), Ring0(ChildShape(sh, p, c), q))
  {
    HangChildOwnRing(l, sh, g, p, c);
    if q != p {
      HangChildOtherRing(l, sh, g, p, c, q);
    }
  }

  lemma SpreadWith(l: Links, g: Gap, r: Links, h: Gap, s: seq<nat>, c: nat)
    requires Spread(Effs(l, g, s)) && (forall d :: d in s ==> Counted(r, h, d) == Counted(l, g, d))
    requires Counted(r, h, c) >= |s|
    ensures Spread(Effs(r, h, if |s| == 0 then [c] else [s[0], c] + s[1..]))
  {
    var e := Effs(l, g, s);
    if |s| == 0 {
      SpreadSingle(Counted(r, h, c));
      assert Effs(r, h, [c]) == [Counted(r, h, c)];
    } else {
      SpreadInsert(e, Counted(r, h, c));
      assert Effs(r, h, [s[0], c] + s[1..]) == [e[0], Counted(r, h, c)] + e[1..];
    }
  }

  lemma HangChildOwnDegrees(l: Links, sh: Shape, g: Gap, p: nat, c: nat)
    requires c in sh.kids && p in sh.kids && DegreeAt(l, sh, g, c) && DegreeAt(l, sh, g, p)
    requires p in sh.rank && c in sh.rank && p != c && |l.nodes| <= ROOT && l.Has(p) && l.Has(c)
    requires g.short == NIL && g.due == NIL && p != NIL && c != NIL && At(l, c).nSub == |sh.kids[p]|
    requires At(l, p).sub == NIL || (l.Has(At(l, p).sub) && l.Has(At(l, At(l, p).sub).next))
    requires At(l, p).sub == NIL <==> |sh.kids[p]| == 0
    requires p !in sh.kids[p] && c !in sh.kids[p] && Spread(Effs(l, g, sh.kids[p]))
    ensures DegreeAt(HangChild(l, p, c), ChildShape(sh, p, c), g.(loose := g.loose - {c}), p)
    ensures Spread(Effs(HangChild(l, p, c), g.(loose := g.loose - {c}), ChildShape(sh, p, c).kids[p]))
  {
    hide Spread, Effs;
    SpreadWith(l, g, HangChild(l, p, c), g.(loose := g.loose - {c}), sh.kids[p], c);
  }

  lemma HangChildOtherDegrees(l: Links, sh: Shape, g: Gap, p: nat, c: nat, y: nat)
    requires y in sh.kids && y != p && DegreeAt(l, sh, g, y) && Spread(Effs(l, g, sh.kids[y]))
    requires c in sh.kids && p in sh.kids && p in sh.rank && c in sh.rank && p != c
    requires |l.nodes| <= ROOT && l.Has(p) && l.Has(c)
    requires g.short == NIL && g.due == NIL
    requires At(l, p).sub == NIL || (l.Has(At(l, p).sub) && l.Has(At(l, At(l, p).sub).next))
    requires p !in sh.kids[y] && c !in sh.kids[y]
    ensures DegreeAt(HangChild(l, p, c), ChildShape(sh, p, c), g.(loose := g.loose - {c}), y)
    ensures Spread(Effs(HangChild(l, p, c), g.(loose := g.loose - {c}), ChildShape(sh, p, c).kids[y]))
  {
    hide Spread, Effs;
    EffsFrame(l, g, HangChild(l, p, c), g.(loose := g.loose - {c}), sh.kids[y]);
  }

  lemma HangChildDegrees(l: Links, sh: Shape, g: Gap, p: nat, c: nat, y: nat)
    requires Tree(l, sh, g) && Degrees(l, sh, g) && Spreads(l, sh, g)
    requires g.short == NIL && g.due == NIL && c in g.loose && p in sh.kids[ROOT] && p in sh.kids && p != ROOT
    requires p in sh.rank && c in sh.rank && p != c && At(l, c).nSub == |sh.kids[p]|
    requires At(l, p).sub == NIL || (l.Has(At(l, p).sub) && l.Has(At(l, At(l, p).sub).next))
    requires At(l, p).sub == NIL <==> |sh.kids[p]| == 0
    requires y in sh.kids && y != ROOT
    ensures DegreeAt(HangChild(l, p, c), ChildShape(sh, p, c), g.(loose := g.loose - {c}), y)
    ensures Spread(Effs(HangChild(l, p, c), g.(loose := g.loose - {c}), ChildShape(sh, p, c).kids[y]))
  {
    assert DegreeAt(l, sh, g, y) && DegreeAt(l, sh, g, c);
    OneParent(l, sh, g, ROOT, y, p);
    NotInRing0(l, sh, g, y, c);
    hide Spread, Effs, DegreeAt, HangChild, ChildShape;
    if y == p {
      HangChildOwnDegrees(l, sh, g, p, c);
    } else {
      HangChildOtherDegrees(l, sh, g, p, c, y);
    }
  }

  lemma HangChildInv(l: Links, sh: Shape, g: Gap, p: nat, c: nat)
    requires Inv(l, sh, g) && g.short == NIL && g.due == NIL
    requires c in g.loose && p in sh.kids[ROOT] && p != c
    requires p in sh.kids && At(l, c).nSub == |sh.kids[p]|
    ensures At(l, p).sub == NIL || (l.Has(At(l, p).sub) && l.Has(At(l, At(l, p).sub).next))
    ensures Inv(HangChild(l, p, c), ChildShape(sh, p, c), g.(loose := g.loose - {c}))
  {
    assert Child(l, sh, g, ROOT, p);
    SubOfRoot(l, sh, g, p);
    HangChildTree(l, sh, g, p, c);
    var r, t, h := HangChild(l, p, c), ChildShape(sh, p, c), g.(loose := g.loose - {c});
    forall q | q in t.kids ensures Ring(r, Ring0(t, q)) {
      assert Ring(l, Ring0(sh, q)) && Ring(l, Ring0(sh, p));
      HangChildRing(l, sh, g, p, c, q);
    }
    forall y | y in t.kids && y != ROOT ensures DegreeAt(r, t, h, y) && Spread(Effs(r, h, t.kids[y])) {
      HangChildDegrees(l, sh, g, p, c, y);
    }
  }
}

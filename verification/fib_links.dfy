/** The links of a Fibonacci heap (goes/elib/fibheap.go) as plain values: nodes that name
    each other by index, and the ring surgery done on them. */
module FibLinks {

  /** MaxIndex: "no node". */
  const NIL: nat := 0xffff_ffff
  /** fibRootIndex: the sentinel that heads the ring of roots. */
  const ROOT: nat := NIL - 1

  /** One fibNode. */
  datatype Node = Node(sup: nat, next: nat, prev: nat, sub: nat, nSub: nat, isMarked: bool) {
    /** Same node up to its sibling links. */
    predicate SameTree(other: Node) {
      sup == other.sup && sub == other.sub && nSub == other.nSub && isMarked == other.isMarked
    }

    /** Degree, counting a child lost since this node was linked. */
    function Eff(): nat { nSub + if isMarked then 1 else 0 }
  }

  const ZeroNode := Node(0, 0, 0, 0, 0, false)

  datatype Links = Links(root: Node, nodes: seq<Node>) {
    predicate Has(i: nat) { i == ROOT || i < |nodes| }
  }

  function At(l: Links, i: nat): Node {
    if i == ROOT then l.root else if i < |l.nodes| then l.nodes[i] else ZeroNode
  }

  function Put(l: Links, i: nat, n: Node): (r: Links)
    requires l.Has(i) && |l.nodes| <= ROOT
    ensures |r.nodes| == |l.nodes|
    ensures forall j {:trigger At(r, j)} :: At(r, j) == if j == i then n else At(l, j)
  {
    if i == ROOT then l.(root := n) else l.(nodes := l.nodes[i := n])
  }

  /** linkAfter. */
  function LinkAfter(l: Links, p: nat, x: nat): (r: Links)
    requires l.Has(p) && l.Has(x) && l.Has(At(l, p).next) && |l.nodes| <= ROOT
    ensures |r.nodes| == |l.nodes|
    ensures p != x && At(l, p).next != x ==>
              && At(r, p).next == x && At(r, x).prev == p
              && At(r, x).next == At(l, p).next && At(r, At(l, p).next).prev == x
    ensures forall j {:trigger At(r, j)} :: At(r, j).SameTree(At(l, j))
    ensures forall j {:trigger At(r, j)} :: j != p && j != x ==> At(r, j).next == At(l, j).next
    ensures forall j {:trigger At(r, j)} :: j != At(l, p).next && j != x ==> At(r, j).prev == At(l, j).prev
  {
    var n := At(l, p).next;
    var l1 := Put(l, p, At(l, p).(next := x));
    var l2 := Put(l1, x, At(l1, x).(prev := p, next := n));
    Put(l2, n, At(l2, n).(prev := x))
  }

  /** unlink. */
  function Unlink(l: Links, x: nat): (r: Links)
    requires l.Has(At(l, x).prev) && l.Has(At(l, x).next) && |l.nodes| <= ROOT
    ensures |r.nodes| == |l.nodes|
    ensures At(r, At(l, x).prev).next == At(l, x).next
    ensures At(r, At(l, x).next).prev == At(l, x).prev
    ensures forall j {:trigger At(r, j)} :: At(r, j).SameTree(At(l, j))
    ensures forall j {:trigger At(r, j)} :: j != At(l, x).prev ==> At(r, j).next == At(l, j).next
    ensures forall j {:trigger At(r, j)} :: j != At(l, x).next ==> At(r, j).prev == At(l, j).prev
  {
    var p, n := At(l, x).prev, At(l, x).next;
    var l1 := Put(l, p, At(l, p).(next := n));
    Put(l1, n, At(l1, n).(prev := p))
  }

  // ---- rings ----

  function Succ(i: nat, n: nat): nat { if i + 1 == n then 0 else i + 1 }

  function Pred(i: nat, n: nat): nat
    requires i < n
  {
    if i == 0 then n - 1 else i - 1
  }

  ghost predicate Distinct(s: seq<nat>) {
    forall i, j :: 0 <= i < j < |s| ==> s[i] != s[j]
  }

  ghost predicate Linked(l: Links, s: seq<nat>, i: nat)
    requires i < |s|
  {
    && l.Has(s[i])
    && At(l, s[i]).next == s[Succ(i, |s|)]
    && At(l, s[i]).prev == s[Pred(i, |s|)]
  }

  /** `s` lists one whole circular doubly linked list, in `next` order. */
  ghost predicate Ring(l: Links, s: seq<nat>) {
    Distinct(s) && forall i :: 0 <= i < |s| ==> Linked(l, s, i)
  }

  lemma RingFrame(l: Links, r: Links, s: seq<nat>)
    requires Ring(l, s)
    requires |r.nodes| == |l.nodes|
    requires forall i :: 0 <= i < |s| ==> At(r, s[i]).next == At(l, s[i]).next && At(r, s[i]).prev == At(l, s[i]).prev
    ensures Ring(r, s)
  {
    forall i | 0 <= i < |s| ensures Linked(r, s, i) {
      assert Linked(l, s, i);
    }
  }

  /** Linking a stranger after the first member. */
  lemma RingInsert(l: Links, s: seq<nat>, x: nat)
    requires Ring(l, s) && |s| > 0 && x !in s && l.Has(x) && |l.nodes| <= ROOT
    ensures l.Has(At(l, s[0]).next)
    ensures l.Has(s[0]) && At(l, s[0]).next in s
    ensures Ring(LinkAfter(l, s[0], x), [s[0], x] + s[1..])
  {
    assert Linked(l, s, 0) && Linked(l, s, Succ(0, |s|));
    var r := LinkAfter(l, s[0], x);
    var t := [s[0], x] + s[1..];
    forall i | 0 <= i < |t| ensures Linked(r, t, i) {
      if i >= 2 {
        assert t[i] == s[i-1];
        assert Linked(l, s, i-1);
      }
    }
  }

  /** `t` is `s` without position `i`. */
  ghost predicate Dropped(s: seq<nat>, i: nat, t: seq<nat>) {
    && i < |s| == |t| + 1
    && forall j :: 0 <= j < |t| ==> t[j] == s[if j < i then j else j + 1]
  }

  lemma LinkedRemove(l: Links, r: Links, s: seq<nat>, i: nat, t: seq<nat>, j: nat)
    requires Ring(l, s) && Dropped(s, i, t) && j < |t| && |l.nodes| <= ROOT
    requires l.Has(At(l, s[i]).prev) && l.Has(At(l, s[i]).next) && r == Unlink(l, s[i])
    ensures Linked(r, t, j)
  {
    var k := if j < i then j else j + 1;
    var p, n := Pred(i, |s|), Succ(i, |s|);
    assert t[j] == s[k] && Linked(l, s, k) && Linked(l, s, i);
    assert s[k] == s[p] <==> k == p;
    assert s[k] == s[n] <==> k == n;
    var a, b := Succ(j, |t|), Pred(j, |t|);
    assert t[a] == if k == p then s[n] else s[Succ(k, |s|)];
    assert t[b] == if k == n then s[p] else s[Pred(k, |s|)];
  }

  /** Dropping the member at position `i`. */
  lemma RingRemove(l: Links, s: seq<nat>, i: nat)
    requires Ring(l, s) && i < |s| && |l.nodes| <= ROOT
    ensures l.Has(At(l, s[i]).prev) && l.Has(At(l, s[i]).next)
    ensures At(l, s[i]).prev in s && At(l, s[i]).next in s
    ensures Ring(Unlink(l, s[i]), s[..i] + s[i+1..])
  {
    var p, n := Pred(i, |s|), Succ(i, |s|);
    assert Linked(l, s, i) && Linked(l, s, p) && Linked(l, s, n);
    var r := Unlink(l, s[i]);
    var t := s[..i] + s[i+1..];
    assert Dropped(s, i, t);
    forall j | 0 <= j < |t| ensures Linked(r, t, j) {
      LinkedRemove(l, r, s, i, t, j);
    }
  }

  function Rotate(s: seq<nat>, i: nat): seq<nat>
    requires i <= |s|
  {
    s[i..] + s[..i]
  }

  lemma RingRotate(l: Links, s: seq<nat>, i: nat)
    requires Ring(l, s) && i <= |s|
    ensures Ring(l, Rotate(s, i))
  {
    var t := Rotate(s, i);
    forall j | 0 <= j < |t| ensures Linked(l, t, j) {
      var k := if j < |s| - i then j + i else j - (|s| - i);
      assert t[j] == s[k];
      assert Linked(l, s, k);
      assert t[Succ(j, |t|)] == s[Succ(k, |s|)];
      assert t[Pred(j, |t|)] == s[Pred(k, |s|)];
    }
  }
}

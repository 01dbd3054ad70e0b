/** `save_helper` and `restore_helper` of `goes/elib/mctree/save.go`: a tree's shape and split bits written in
  * preorder, one flag bit a node and one byte a fork, and rebuilt from a fresh root.
  */
module MaskTreeSaves {
  import opened MaskTrees
  import opened MaskTreePools
  import opened MaskTreeMains

  /** One flag a node in preorder: is it split? */
  ghost function Flags(t: Tree): seq<bool> {
    match t
    case Leaf(_, _, _) => [false]
    case Fork(_, _, _, t0, t1) => [true] + Flags(t0) + Flags(t1)
  }

  /** One byte a fork in preorder: its split bit, cut to eight bits. */
  ghost function Bytes(t: Tree): seq<nat> {
    match t
    case Leaf(_, _, _) => []
    case Fork(_, _, bit, t0, t1) => [bit % 256] + Bytes(t0) + Bytes(t1)
  }

  ghost predicate BitsBelow256(t: Tree) {
    t.Fork? ==> t.bit < 256 && BitsBelow256(t.t0) && BitsBelow256(t.t1)
  }

  /** Every node's key follows from its parent's. */
  ghost predicate KeysOk(t: Tree) {
    && KeyOk(t.key)
    && (t.Fork? ==>
          && t.bit < |t.key| && !t.key[t.bit].mask
          && t.t0.key == Sub(t.key, t.bit, false) && t.t1.key == Sub(t.key, t.bit, true)
          && KeysOk(t.t0) && KeysOk(t.t1))
  }

  lemma {:induction false} GoodKeys(t: Tree, elts: seq<Shared>, pairs: map<nat, Key>)
    requires Good(t, elts, pairs)
    ensures KeysOk(t)
  {
    if t.Fork? {
      GoodKeys(t.t0, elts, pairs);
      GoodKeys(t.t1, elts, pairs);
    }
  }

  /** The bytes that a tree is saved as name bits of a key of n bits. */
  ghost predicate Fits(t: Tree, n: nat) {
    t.Fork? ==> t.bit % 256 < n && Fits(t.t0, n) && Fits(t.t1, n)
  }

  lemma {:induction false} KeysFit(t: Tree)
    requires KeysOk(t)
    ensures Fits(t, |t.key|)
  {
    if t.Fork? {
      KeysFit(t.t0);
      KeysFit(t.t1);
    }
  }

  /** What restoring makes of a saved tree under a node with this key: each fork splits on the low byte of the
    * bit it was saved with, and a bit that is in the key already keeps its value on the side of sub-node 0. */
  ghost predicate Restores(t: Tree, g: Tree, key: Key) {
    && g.key == key
    && match t
       case Leaf(_, _, _) => g.Leaf?
       case Fork(_, _, bit, t0, t1) =>
         var b := bit % 256;
         g.Fork? && g.bit == b < |key|
         && Restores(t0, g.t0, Sub(key, b, key[b].value)) && Restores(t1, g.t1, Sub(key, b, true))
  }

  lemma {:induction false} RestoredBelow256(t: Tree, g: Tree, key: Key)
    requires Restores(t, g, key)
    ensures BitsBelow256(g)
  {
    if t.Fork? {
      var b := t.bit % 256;
      RestoredBelow256(t.t0, g.t0, Sub(key, b, key[b].value));
      RestoredBelow256(t.t1, g.t1, Sub(key, b, true));
    }
  }

  lemma {:induction false} SmallRestored(t: Tree, g: Tree)
    requires KeysOk(t) && BitsBelow256(t) && Restores(t, g, t.key)
    ensures SameSplits(t, g)
  {
    if t.Fork? {
      assert !t.key[t.bit].value;
      SmallRestored(t.t0, g.t0);
      SmallRestored(t.t1, g.t1);
    }
  }

  lemma {:induction false} SameBelow256(t: Tree, g: Tree)
    requires SameSplits(t, g) && BitsBelow256(g)
    ensures BitsBelow256(t)
  {
    if t.Fork? {
      SameBelow256(t.t0, g.t0);
      SameBelow256(t.t1, g.t1);
    }
  }

  /** A tree comes back with its splits and keys exactly when every split bit fits the byte it is saved in. */
  lemma RestoredIff(t: Tree, g: Tree)
    requires KeysOk(t) && Restores(t, g, t.key)
    ensures BitsBelow256(g) && (SameSplits(t, g) <==> BitsBelow256(t))
  {
    RestoredBelow256(t, g, t.key);
    if BitsBelow256(t) {
      SmallRestored(t, g);
    }
    if SameSplits(t, g) {
      SameBelow256(t, g);
    }
  }

  /** Same shape, split bits and node keys. */
  ghost predicate SameSplits(a: Tree, b: Tree) {
    && a.key == b.key
    && match a
       case Leaf(_, _, _) => b.Leaf?
       case Fork(_, _, bit, t0, t1) => b.Fork? && b.bit == bit && SameSplits(t0, b.t0) && SameSplits(t1, b.t1)
  }

  /** What is written: a bitmap in 64-bit words, each the set of its one bits, and the split bytes. */
  class TreeSave {
    var isSplit: seq<set<nat>>
    var splitBits: seq<nat>
    var nNodes: nat
    var nSplit: nat

    constructor ()
      ensures isSplit == [] && splitBits == [] && nNodes == 0 && nSplit == 0
    {
      isSplit, splitBits, nNodes, nSplit := [], [], 0, 0;
    }

    predicate Flag(k: nat)
      reads `isSplit
    {
      k / 64 < |isSplit| && k % 64 in isSplit[k / 64]
    }

    /** The bitmap says exactly the flags listed. */
    ghost predicate Says(flags: seq<bool>)
      reads `isSplit
    {
      forall k: nat :: Flag(k) <==> k < |flags| && flags[k]
    }

    /** Set the flag of the node about to be counted; the bitmap grows by whole words. */
    method Mark(ghost flags: seq<bool>)
      requires Says(flags) && nNodes == |flags|
      modifies this`isSplit
      ensures Says(flags + [true])
    {
      var i0, i1 := nNodes / 64, nNodes % 64;
      ghost var was := isSplit;
      if i0 >= |isSplit| {
        isSplit := isSplit + seq(i0 + 1 - |isSplit|, _ => {});
      }
      isSplit := isSplit[i0 := isSplit[i0] + {i1}];
      forall k: nat ensures Flag(k) <==> (k / 64 < |was| && k % 64 in was[k / 64]) || k == nNodes {
        assert k / 64 == i0 && k % 64 == i1 ==> k == nNodes;
      }
      forall k: nat ensures Flag(k) <==> k < |flags + [true]| && (flags + [true])[k] {
        assert old(Flag(k)) <==> k < |flags| && flags[k];
      }
    }
  }

  method SaveHelper(m: Pool, s: TreeSave, ni: nat, ghost t: Tree, ghost flags: seq<bool>)
    requires Match(m.nodes, t) && t.node == ni && s.Says(flags) && s.nNodes == |flags|
    modifies s`isSplit, s`splitBits, s`nNodes
    ensures s.Says(flags + Flags(t)) && s.nNodes == |flags| + |Flags(t)|
    ensures s.splitBits == old(s.splitBits) + Bytes(t)
    decreases t
  {
    hide TreeSave.Says;
    if m.nodes[ni].sub0 >= 0 && m.nodes[ni].sub1 >= 0 {
      s.Mark(flags);
      s.splitBits := s.splitBits + [m.nodes[ni].splitBit % 256];
      s.nNodes := s.nNodes + 1;
      SaveHelper(m, s, m.nodes[ni].sub0, t.t0, flags + [true]);
      SaveHelper(m, s, m.nodes[ni].sub1, t.t1, flags + [true] + Flags(t.t0));
      assert flags + [true] + Flags(t.t0) + Flags(t.t1) == flags + Flags(t);
    } else {
      SaysLeaf(s, flags);
      s.nNodes := s.nNodes + 1;
    }
  }

  lemma SaysLeaf(s: TreeSave, flags: seq<bool>)
    requires s.Says(flags)
    ensures s.Says(flags + [false])
  {
  }

  /** The list x, from position n, goes on with y. */
  ghost predicate At<T>(x: seq<T>, n: nat, y: seq<T>) {
    n + |y| <= |x| && x[n..n + |y|] == y
  }

  lemma AtParts<T>(x: seq<T>, n: nat, a: seq<T>, b: seq<T>, c: seq<T>)
    requires At(x, n, a + b + c)
    ensures At(x, n, a) && At(x, n + |a|, b) && At(x, n + |a| + |b|, c)
  {
    var y := a + b + c;
    Slice(x, n, y, 0, |a|);
    Slice(x, n, y, |a|, |a| + |b|);
    Slice(x, n, y, |a| + |b|, |y|);
    assert y[0..|a|] == a;
    assert y[|a|..|a| + |b|] == b;
    assert y[|a| + |b|..|y|] == c;
  }

  lemma Slice<T>(x: seq<T>, n: nat, y: seq<T>, i: nat, j: nat)
    requires At(x, n, y) && i <= j <= |y|
    ensures x[n + i..n + j] == y[i..j]
  {
    forall k | 0 <= k < j - i ensures x[n + i..n + j][k] == y[i..j][k] {
      assert x[n..n + |y|][i + k] == x[n + i + k];
    }
  }

  /** Rebuild, at the fresh node ni, the tree t whose flags and bytes come next. */
  method RestoreHelper(m: Pool, s: TreeSave, ni: nat, ghost t: Tree, ghost flags: seq<bool>, ghost nb: multiset<nat>)
    returns (ghost g: Tree)
    requires NodesOk(|m.nodes|, m.nodeFree, nb) && ni in nb && ni < |m.nodes|
    requires m.nodes[ni].sub0 == m.nodes[ni].sub1 == m.nodes[ni].pool == -1 && Fits(t, |m.nodes[ni].key|)
    requires s.Says(flags) && At(flags, s.nNodes, Flags(t)) && At(s.splitBits, s.nSplit, Bytes(t))
    modifies m, s`nNodes, s`nSplit
    ensures Match(m.nodes, g) && g.node == ni && Restores(t, g, old(m.nodes[ni].key))
    ensures NodesOk(|m.nodes|, m.nodeFree, nb - multiset{ni} + Nodes(g))
    ensures Keeps(old(m.nodes), m.nodes, nb - multiset{ni}) && m.elts == old(m.elts) && m.eltFree == old(m.eltFree)
    ensures s.Says(flags) && s.nNodes == old(s.nNodes) + |Flags(t)| && s.nSplit == old(s.nSplit) + |Bytes(t)|
    decreases t
  {
    FlagNext(s, t, flags);
    if s.Flag(s.nNodes) {
      g := RestoreFork(m, s, ni, t, flags, nb);
    } else {
      s.nNodes := s.nNodes + 1;
      // A leaf gets a vector of length zero, which is none.
      g := Leaf(ni, m.nodes[ni].key, -1);
      OnceOut(|m.nodes|, m.nodeFree, nb, ni);
    }
  }

  lemma FlagNext(s: TreeSave, t: Tree, flags: seq<bool>)
    requires s.Says(flags) && At(flags, s.nNodes, Flags(t))
    ensures s.Flag(s.nNodes) <==> t.Fork?
  {
    assert flags[s.nNodes] == flags[s.nNodes..s.nNodes + |Flags(t)|][0] == Flags(t)[0];
  }

  method RestoreFork(m: Pool, s: TreeSave, ni: nat, ghost t: Tree, ghost flags: seq<bool>, ghost nb: multiset<nat>)
    returns (ghost g: Tree)
    requires t.Fork? && NodesOk(|m.nodes|, m.nodeFree, nb) && ni in nb && ni < |m.nodes|
    requires m.nodes[ni].sub0 == m.nodes[ni].sub1 == m.nodes[ni].pool == -1 && Fits(t, |m.nodes[ni].key|)
    requires s.Says(flags) && At(flags, s.nNodes, Flags(t)) && At(s.splitBits, s.nSplit, Bytes(t))
    modifies m, s`nNodes, s`nSplit
    ensures Match(m.nodes, g) && g.node == ni && Restores(t, g, old(m.nodes[ni].key))
    ensures NodesOk(|m.nodes|, m.nodeFree, nb - multiset{ni} + Nodes(g))
    ensures Keeps(old(m.nodes), m.nodes, nb - multiset{ni}) && m.elts == old(m.elts) && m.eltFree == old(m.eltFree)
    ensures s.Says(flags) && s.nNodes == old(s.nNodes) + |Flags(t)| && s.nSplit == old(s.nSplit) + |Bytes(t)|
    decreases t, 0
  {
    hide TreeSave.Says, NodesOk, Nodes, Keeps, Flags, Bytes, At;
    ForkNext(t, flags, s.nNodes, s.splitBits, s.nSplit);
    var bit := s.splitBits[s.nSplit];
    s.nSplit := s.nSplit + 1;
    s.nNodes := s.nNodes + 1;
    ghost var a0 := m.nodes;
    var n0, n1 := m.AllocSubs(ni, bit, nb);
    ghost var a1 := m.nodes;
    FirstBags(nb, ni, n0, n1);
    ghost var g0 := RestoreHelper(m, s, n0, t.t0, flags, nb + multiset{n0} + multiset{n1});
    ghost var a2 := m.nodes;
    KeepsOne(a1, a2, nb + multiset{n1}, n1);
    KeepsOne(a1, a2, nb + multiset{n1}, ni);
    SecondBags(nb, ni, n1, Nodes(g0));
    ghost var g1 := RestoreHelper(m, s, n1, t.t1, flags, nb + multiset{n1} + Nodes(g0));
    g := Fork(ni, a0[ni].key, bit, g0, g1);
    LastBags(nb, n1, g, Nodes(g0), Nodes(g1));
    KeepsOne(a2, m.nodes, nb + Nodes(g0), ni);
    MatchKept(a2, m.nodes, g0, nb + Nodes(g0));
    KeepsLess(a1, a2, nb + multiset{n1}, nb - multiset{ni});
    KeepsLess(a2, m.nodes, nb + Nodes(g0), nb - multiset{ni});
    KeepsTrans(a0, a1, a2, nb - multiset{ni});
    KeepsTrans(a0, a2, m.nodes, nb - multiset{ni});
  }

  lemma FirstBags(nb: multiset<nat>, ni: nat, n0: nat, n1: nat)
    requires ni in nb
    ensures n0 in nb + multiset{n0} + multiset{n1}
    ensures nb + multiset{n0} + multiset{n1} - multiset{n0} == nb + multiset{n1}
    ensures n1 in nb + multiset{n1} && ni in nb + multiset{n1} && nb - multiset{ni} <= nb + multiset{n1}
  {
  }

  lemma SecondBags(nb: multiset<nat>, ni: nat, n1: nat, g0: multiset<nat>)
    requires ni in nb
    ensures n1 in nb + multiset{n1} + g0 && nb + multiset{n1} + g0 - multiset{n1} == nb + g0
    ensures ni in nb + g0 && nb - multiset{ni} <= nb + g0 && g0 <= nb + g0
  {
  }

  lemma LastBags(nb: multiset<nat>, n1: nat, g: Tree, g0: multiset<nat>, g1: multiset<nat>)
    requires g.Fork? && g0 == Nodes(g.t0) && g1 == Nodes(g.t1) && g.node in nb
    ensures nb - multiset{g.node} + Nodes(g) == nb + g0 + g1
  {
  }

  lemma ForkNext(t: Tree, flags: seq<bool>, n: nat, bytes: seq<nat>, k: nat)
    requires t.Fork? && At(flags, n, Flags(t)) && At(bytes, k, Bytes(t))
    ensures At(flags, n + 1, Flags(t.t0)) && At(flags, n + 1 + |Flags(t.t0)|, Flags(t.t1))
    ensures |Flags(t)| == 1 + |Flags(t.t0)| + |Flags(t.t1)|
    ensures k < |bytes| && bytes[k] == t.bit % 256
    ensures At(bytes, k + 1, Bytes(t.t0)) && At(bytes, k + 1 + |Bytes(t.t0)|, Bytes(t.t1))
    ensures |Bytes(t)| == 1 + |Bytes(t.t0)| + |Bytes(t.t1)|
  {
    hide At, Flags, Bytes;
    ForkLists(t);
    ListNext(flags, n, true, Flags(t.t0), Flags(t.t1));
    ListNext<nat>(bytes, k, t.bit % 256, Bytes(t.t0), Bytes(t.t1));
  }

  lemma ForkLists(t: Tree)
    requires t.Fork?
    ensures Flags(t) == [true] + Flags(t.t0) + Flags(t.t1)
    ensures Bytes(t) == [t.bit % 256] + Bytes(t.t0) + Bytes(t.t1)
  {
  }

  lemma ListNext<T>(x: seq<T>, n: nat, v: T, b: seq<T>, c: seq<T>)
    requires At(x, n, [v] + b + c)
    ensures n < |x| && x[n] == v && At(x, n + 1, b) && At(x, n + 1 + |b|, c)
  {
    AtParts(x, n, [v], b, c);
    assert x[n] == x[n..n + 1][0];
  }

  /** Saving a tree and restoring it under a fresh root with the same key reads back exactly what was written,
    * and rebuilds its shape, split bits and node keys exactly when every split bit is below 256. */
  method RoundTrip(m: Pool, ni: nat, root: nat, ghost t: Tree, ghost nb: multiset<nat>)
    returns (s: TreeSave, ghost g: Tree)
    requires NodesOk(|m.nodes|, m.nodeFree, nb) && Nodes(t) <= nb && Match(m.nodes, t) && t.node == ni
    requires KeysOk(t)
    requires root in nb && root !in Nodes(t) && root < |m.nodes| && m.nodes[root].key == t.key
    requires m.nodes[root].sub0 == m.nodes[root].sub1 == m.nodes[root].pool == -1
    modifies m
    ensures Match(m.nodes, g) && g.node == root && Match(m.nodes, t)
    ensures Restores(t, g, t.key) && BitsBelow256(g) && (SameSplits(t, g) <==> BitsBelow256(t))
    ensures s.nNodes == |Flags(t)| && s.nSplit == |s.splitBits|
  {
    hide NodesOk, Nodes, Flags, Bytes, Keeps;
    s := new TreeSave();
    SaveHelper(m, s, ni, t, []);
    assert [] + Flags(t) == Flags(t) && [] + Bytes(t) == Bytes(t);
    s.nNodes, s.nSplit := 0, 0;
    ghost var was := m.nodes;
    KeysFit(t);
    OnceOut(|m.nodes|, m.nodeFree, nb, root);
    g := RestoreHelper(m, s, root, t, Flags(t), nb);
    RestoredIff(t, g);
    Without(Nodes(t), nb, root);
    MatchKept(was, m.nodes, t, nb - multiset{root});
  }

  lemma Without(a: multiset<nat>, nb: multiset<nat>, root: nat)
    requires a <= nb && root !in a
    ensures a <= nb - multiset{root}
  {
    forall i ensures a[i] <= (nb - multiset{root})[i] {
      if i == root { assert a[i] == 0; }
    }
  }

  /** A key of 257 bits, split on the last of them, and a fresh root. */
  method WideSplit() returns (m: Pool, ni: nat, root: nat, ghost t: Tree, ghost nb: multiset<nat>)
    ensures fresh(m) && NodesOk(|m.nodes|, m.nodeFree, nb) && Nodes(t) <= nb && Match(m.nodes, t) && t.node == ni
    ensures t.Fork? && t.bit == 256 && t.t0.Leaf? && t.t1.Leaf? && KeysOk(t)
    ensures root in nb && root !in Nodes(t) && root < |m.nodes| && m.nodes[root].key == t.key
    ensures m.nodes[root].sub0 == m.nodes[root].sub1 == m.nodes[root].pool == -1
  {
    hide NodesOk, Keeps;
    m := new Pool(257);
    ni := m.NewNode(multiset{});
    ghost var key := m.nodes[ni].key;
    nb := multiset{} + multiset{ni};
    var n0, n1 := m.AllocSubs(ni, 256, nb);
    nb := nb + multiset{n0} + multiset{n1};
    t := Fork(ni, key, 256, Leaf(n0, Sub(key, 256, false), -1), Leaf(n1, Sub(key, 256, true), -1));
    ghost var was := m.nodes;
    root := m.NewNode(nb);
    MatchKept(was, m.nodes, t, nb);
    m.nodes := m.nodes[root := m.nodes[root].(key := seq(257, _ => Bit(false, false)))];
    nb := nb + multiset{root};
  }

  /** It comes back as a split on the first bit. */
  method WideSplitLost() returns (m: Pool, ghost t: Tree, ghost g: Tree)
    ensures t.Fork? && t.bit == 256 && t.t0.Leaf? && t.t1.Leaf? && KeysOk(t) && fresh(m)
    ensures Match(m.nodes, t) && Match(m.nodes, g) && g.Fork? && g.key == t.key && g.bit == 0 && !SameSplits(t, g)
  {
    hide NodesOk, Nodes, Match, KeysOk, Flags, Bytes;
    var ni, root, s;
    ghost var nb;
    m, ni, root, t, nb := WideSplit();
    s, g := RoundTrip(m, ni, root, t, nb);
  }
}

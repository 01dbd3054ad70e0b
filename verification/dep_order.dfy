/** Ordering hooks by their dependencies: `sort`, `orderHelper` and `index` of `goes/elib/dep/dep.go`.
  *
  * An element is known by the index it was added at. Both the elements that it depends on and those that name
  * it as something to come before are turned into one list per element, and a depth-first walk appends each
  * element after everything it depends on.
  */
module DepOrder {
  import opened Basics

  /** Does element h depend on d, by its own list or by an anti-dependency of d? */
  predicate Wants(deps: seq<seq<nat>>, antiDeps: seq<seq<nat>>, h: nat, d: nat) {
    (h < |deps| && d in deps[h]) || (d < |antiDeps| && h in antiDeps[d])
  }

  /** The same, by the lists of these elements only. */
  predicate WantsAmong(deps: seq<seq<nat>>, antiDeps: seq<seq<nat>>, done: seq<nat>, h: nat, d: nat) {
    (h in done && h < |deps| && d in deps[h]) || (d in done && d < |antiDeps| && h in antiDeps[d])
  }

  /** Every position that an element's dependencies name holds one of them. */
  ghost predicate Stable(elts: seq<nat>, deps: seq<seq<nat>>, antiDeps: seq<seq<nat>>) {
    forall h: nat, d: nat :: d < |elts| && Wants(deps, antiDeps, h, d) ==> Wants(deps, antiDeps, h, elts[d])
  }

  /** Every element named is in the set. */
  predicate Closed(deps: seq<seq<nat>>) {
    forall h, i :: 0 <= h < |deps| && 0 <= i < |deps[h]| ==> deps[h][i] < |deps|
  }

  /** A ring of elements each of which depends on the next. */
  ghost predicate Cycle(deps: seq<seq<nat>>, c: seq<nat>) {
    && |c| > 0
    && (forall i :: 0 <= i < |c| ==> c[i] < |deps|)
    && (forall i :: 0 <= i < |c| - 1 ==> c[i + 1] in deps[c[i]])
    && c[0] in deps[c[|c| - 1]]
  }

  ghost predicate Acyclic(deps: seq<seq<nat>>) {
    forall c :: !Cycle(deps, c)
  }

  ghost predicate Permutation(order: seq<nat>, n: nat) {
    && |order| == n
    && (forall i :: 0 <= i < n ==> order[i] < n)
    && (forall i, j :: 0 <= i < j < n ==> order[i] != order[j])
  }

  /** Everything in the order comes after all that it depends on. */
  ghost predicate Ordered(deps: seq<seq<nat>>, order: seq<nat>) {
    forall i, d :: 0 <= i < |order| && order[i] < |deps| && d in deps[order[i]] ==> d in order[..i]
  }

  /** A chain of dependencies leads from h to x. */
  ghost predicate Reaches(deps: seq<seq<nat>>, h: nat, x: nat) {
    exists p: seq<nat> :: Leads(deps, p, h, x)
  }

  ghost predicate Leads(deps: seq<seq<nat>>, p: seq<nat>, h: nat, x: nat) {
    && |p| > 0 && p[0] == h && p[|p| - 1] == x
    && forall i :: 0 <= i < |p| - 1 ==> p[i] < |deps| && p[i + 1] in deps[p[i]]
  }

  lemma ReachesSelf(deps: seq<seq<nat>>, h: nat)
    ensures Reaches(deps, h, h)
  {
    assert Leads(deps, [h], h, h);
  }

  lemma ReachesMore(deps: seq<seq<nat>>, h: nat, d: nat, x: nat)
    requires h < |deps| && d in deps[h] && Reaches(deps, d, x)
    ensures Reaches(deps, h, x)
  {
    var p :| Leads(deps, p, d, x);
    assert Leads(deps, [h] + p, h, x);
  }

  /** The order from place a on was appended for h: nothing, or what h reaches and then h. */
  ghost predicate AppendedFor(deps: seq<seq<nat>>, order: seq<nat>, a: nat, b: nat, h: nat) {
    && a <= b <= |order|
    && (forall p :: a <= p < b ==> Reaches(deps, h, order[p]))
    && (a < b ==> order[b - 1] == h)
  }

  /** From the first cut on the order was appended for the elements of the list, one after the other; each of them is
    * there by its cut, or was marked before. */
  ghost predicate InTurn(deps: seq<seq<nat>>, order: seq<nat>, cuts: seq<nat>, list: seq<nat>, n: nat,
                         marked: set<nat>) {
    && n <= |list| && |cuts| == n + 1
    && (forall i :: 0 <= i < n ==> AppendedFor(deps, order, cuts[i], cuts[i + 1], list[i]))
    && (forall i :: 0 <= i < n ==> list[i] in marked || (cuts[i + 1] <= |order| && list[i] in order[..cuts[i + 1]]))
  }

  /** What the walk for h appends: the elements it depends on in the order of its list, each after what it reaches, and
    * h itself last. */
  ghost predicate WalkedFor(deps: seq<seq<nat>>, was: seq<nat>, order: seq<nat>, h: nat, marked: set<nat>)
    requires h < |deps|
  {
    && was < order && order[|order| - 1] == h
    && exists cuts: seq<nat> :: |cuts| > 0 && cuts[0] == |was| && cuts[|cuts| - 1] == |order| - 1
         && InTurn(deps, order, cuts, deps[h], |deps[h]|, marked)
  }

  lemma AppendedMore(deps: seq<seq<nat>>, order: seq<nat>, more: seq<nat>, a: nat, b: nat, h: nat)
    requires AppendedFor(deps, order, a, b, h) && order <= more
    ensures AppendedFor(deps, more, a, b, h)
  {
  }

  lemma InTurnMore(deps: seq<seq<nat>>, order: seq<nat>, more: seq<nat>, cuts: seq<nat>, list: seq<nat>, n: nat,
                   marked: set<nat>)
    requires InTurn(deps, order, cuts, list, n, marked) && order <= more
    ensures InTurn(deps, more, cuts, list, n, marked)
  {
    hide AppendedFor;
    forall i | 0 <= i < n ensures AppendedFor(deps, more, cuts[i], cuts[i + 1], list[i]) {
      AppendedMore(deps, order, more, cuts[i], cuts[i + 1], list[i]);
    }
    forall k | 0 <= k < |cuts| && cuts[k] <= |order| ensures order[..cuts[k]] == more[..cuts[k]] {
    }
  }

  lemma AppendedNone(deps: seq<seq<nat>>, order: seq<nat>, h: nat)
    ensures AppendedFor(deps, order, |order|, |order|, h)
  {
  }

  lemma AppendedAll(deps: seq<seq<nat>>, order: seq<nat>, a: nat, h: nat)
    requires a < |order| && order[|order| - 1] == h
    requires forall p :: a <= p < |order| ==> Reaches(deps, h, order[p])
    ensures AppendedFor(deps, order, a, |order|, h)
  {
  }

  lemma AppendedReaches(deps: seq<seq<nat>>, order: seq<nat>, a: nat, b: nat, h: nat, d: nat)
    requires h < |deps| && d in deps[h] && AppendedFor(deps, order, a, b, d)
    ensures forall p :: a <= p < b ==> Reaches(deps, h, order[p])
  {
    forall p | a <= p < b ensures Reaches(deps, h, order[p]) { ReachesMore(deps, h, d, order[p]); }
  }

  lemma InTurnNone(deps: seq<seq<nat>>, order: seq<nat>, list: seq<nat>, marked: set<nat>)
    ensures InTurn(deps, order, [|order|], list, 0, marked)
  {
  }

  lemma InTurnNext(deps: seq<seq<nat>>, order: seq<nat>, more: seq<nat>, cuts: seq<nat>, list: seq<nat>, n: nat,
                   marked: set<nat>)
    requires InTurn(deps, order, cuts, list, n, marked) && order <= more && n < |list|
    requires cuts[n] == |order| && AppendedFor(deps, more, |order|, |more|, list[n])
    requires list[n] in marked || list[n] in more
    ensures InTurn(deps, more, cuts + [|more|], list, n + 1, marked)
  {
    hide AppendedFor;
    InTurnMore(deps, order, more, cuts, list, n, marked);
    assert more[..|more|] == more;
  }

  /** The order takes the elements as sorted, each after what it reaches that is not there yet. */
  ghost predicate ByTurns(deps: seq<seq<nat>>, sorted: seq<nat>, order: seq<nat>) {
    exists cuts: seq<nat> :: |cuts| > 0 && cuts[0] == 0 && cuts[|cuts| - 1] == |order|
      && InTurn(deps, order, cuts, sorted, |sorted|, {})
  }

  predicate NoDup(s: seq<nat>) {
    forall i, j :: 0 <= i < j < |s| ==> s[i] != s[j]
  }

  /** Along a cycle positions would fall forever: a full order that respects a cycle does not exist. */
  lemma {:induction false} CycleFalls(deps: seq<seq<nat>>, order: seq<nat>, c: seq<nat>, k: nat, p: nat)
    requires Cycle(deps, c) && Ordered(deps, order) && NoDup(order)
    requires k < |c| && p < |order| && order[p] == c[0]
    ensures exists q :: 0 <= q <= p && order[q] == c[k] && (k > 0 ==> q < p)
    decreases k
  {
    if k > 0 {
      CycleFalls(deps, order, c, k - 1, p);
      var q :| 0 <= q <= p && order[q] == c[k - 1];
      assert c[k - 1 + 1] in deps[c[k - 1]];
      assert c[k] in order[..q];
      var r :| 0 <= r < q && order[r] == c[k];
    }
  }

  /** No full order respects a cycle. */
  lemma OrderedAcyclic(deps: seq<seq<nat>>, order: seq<nat>)
    requires Permutation(order, |deps|) && Ordered(deps, order)
    ensures Acyclic(deps)
  {
    forall c ensures !Cycle(deps, c) {
      if Cycle(deps, c) {
        FullHas(order, |deps|, c[0]);
        var p :| 0 <= p < |order| && order[p] == c[0];
        CycleFalls(deps, order, c, |c| - 1, p);
      }
    }
  }

  function Below(n: nat): set<nat> {
    if n == 0 then {} else Below(n - 1) + {n - 1}
  }

  lemma {:induction false} BelowIs(n: nat)
    ensures |Below(n)| == n && forall i: nat :: i in Below(n) <==> i < n
  {
    if n > 0 { BelowIs(n - 1); }
  }

  function Elems(s: seq<nat>): set<nat> {
    if |s| == 0 then {} else Elems(s[..|s| - 1]) + {s[|s| - 1]}
  }

  lemma {:induction false} ElemsIs(s: seq<nat>)
    ensures forall x :: x in Elems(s) <==> x in s
    ensures NoDup(s) ==> |Elems(s)| == |s|
  {
    if |s| > 0 {
      var rest := s[..|s| - 1];
      ElemsIs(rest);
      assert s == rest + [s[|s| - 1]];
      if NoDup(s) {
        assert NoDup(rest) && s[|s| - 1] !in rest;
      }
    }
  }

  lemma FullHas(order: seq<nat>, n: nat, x: nat)
    requires Permutation(order, n) && x < n
    ensures x in order
  {
    assert NoDup(order);
    ElemsIs(order);
    BelowIs(n);
    SubsetEq(Elems(order), Below(n));
  }

  lemma SubsetEq(a: set<nat>, b: set<nat>)
    requires a <= b && |a| == |b|
    ensures a == b
  {
    if a != b {
      var x :| x in b && x !in a;
      SubsetSize(a, b - {x});
    }
  }

  class Deps {
    /** Elements in their present order, each by the index it was added at. */
    var elts: seq<nat>
    var deps: seq<seq<nat>>
    var antiDeps: seq<seq<nat>>
    var isOrdered: bool
    var order: seq<nat>

    constructor ()
      ensures elts == [] && deps == [] && antiDeps == [] && !isOrdered && order == []
    {
      elts, deps, antiDeps, isOrdered, order := [], [], [], false, [];
    }

    /** Each element added stands at one place. */
    ghost predicate Valid()
      reads this
    {
      |deps| == |antiDeps| && Permutation(elts, |deps|)
    }

    /** Before any sort the elements stand in the order in which they were added. */
    ghost predicate Unmoved()
      reads `elts
    {
      forall i :: 0 <= i < |elts| ==> elts[i] == i
    }

    /** `Add`: the new element's lists may name elements that are added later. */
    method Add(depsOf: seq<nat>, antiDepsOf: seq<nat>)
      requires Valid()
      modifies this
      ensures Valid() && !isOrdered && order == old(order) && elts == old(elts) + [|old(elts)|]
      ensures deps == old(deps) + [depsOf] && antiDeps == old(antiDeps) + [antiDepsOf]
    {
      elts := elts + [|elts|];
      deps := deps + [depsOf];
      antiDeps := antiDeps + [antiDepsOf];
      isOrdered := false;
    }

    /** The first loops of `sort`: a set of wanted indices per element. */
    method Collect() returns (bits: seq<set<nat>>)
      requires Valid() && Closed(deps) && Closed(antiDeps)
      ensures |bits| == |elts|
      ensures forall h: nat, d: nat :: h < |bits| ==> (Has(bits, h, d) <==> Wants(deps, antiDeps, h, d))
    {
      var n := |elts|;
      bits := seq(n, _ => {});
      for i := 0 to n
        invariant |bits| == n
        invariant forall h: nat, d: nat :: h < n ==> (Has(bits, h, d) <==> WantsAmong(deps, antiDeps, elts[..i], h, d))
      {
        ghost var was := bits;
        bits := DependsOn(bits, elts[i], deps[elts[i]]);
        bits := AntiDependsOn(bits, elts[i], antiDeps[elts[i]]);
        forall h: nat, d: nat | h < n
          ensures Has(bits, h, d) <==> WantsAmong(deps, antiDeps, elts[..i + 1], h, d)
        {
          AmongMore(deps, antiDeps, elts, i, h, d);
          assert Has(was, h, d) <==> WantsAmong(deps, antiDeps, elts[..i], h, d);
        }
      }
      assert elts[..n] == elts;
      forall h: nat, d: nat | h < n ensures Has(bits, h, d) <==> Wants(deps, antiDeps, h, d) {
        FullHas(elts, n, h);
        if d < n { FullHas(elts, n, d); }
      }
    }

    /** The conversion loop of `sort`: each wanted index is read as a position. */
    method Convert(bits: seq<set<nat>>) returns (r: seq<seq<nat>>)
      requires Valid() && |bits| == |elts|
      ensures |r| == |bits| && forall h :: 0 <= h < |r| ==> r[h] == AtPositions(elts, bits[h], |elts|)
    {
      r := deps;
      for i := 0 to |elts|
        invariant |r| == |bits|
        invariant forall k :: 0 <= k < i ==> r[elts[k]] == AtPositions(elts, bits[elts[k]], |elts|)
      {
        var h := elts[i];
        var list := [];
        for j := 0 to |elts|
          invariant list == AtPositions(elts, bits[h], j)
        {
          if j in bits[h] { list := list + [elts[j]]; }
        }
        r := r[h := list];
      }
      forall h | 0 <= h < |r| ensures r[h] == AtPositions(elts, bits[h], |elts|) {
        FullHas(elts, |elts|, h);
        var k :| 0 <= k < |elts| && elts[k] == h;
      }
    }

    /** `orderHelper`: mark the element, walk what it depends on, then append it. `stack` is the walk's path. */
    method OrderHelper(h: nat, marked: set<nat>, ghost stack: seq<nat>) returns (b: set<nat>)
      requires Closed(deps) && h < |deps| && Marks(deps, order, marked, stack)
      requires Path(deps, stack) && (|stack| > 0 ==> h in deps[stack[|stack| - 1]])
      modifies this`order
      ensures Marks(deps, order, b, stack) && old(order) <= order && marked <= b && h in b
      ensures Acyclic(deps) && Ordered(deps, old(order)) ==> Ordered(deps, order)
      ensures if h in marked then b == marked && order == old(order)
        else WalkedFor(deps, old(order), order, h, marked + {h})
      ensures AppendedFor(deps, order, |old(order)|, |order|, h)
      ensures h !in marked && (forall d :: d in deps[h] ==> d in marked) ==> order == old(order) + [h]
      decreases Below(|deps|) - marked, 0
    {
      hide Reaches, AppendedFor, InTurn, Acyclic, Ordered, Path;
      b := marked;
      AppendedNone(deps, order, h);
      if h !in b {
        b := b + {h};
        PathMore(deps, stack, h);
        MarksMore(deps, order, marked, stack, h);
        BelowIs(|deps|);
        ghost var cuts;
        b, cuts := WalkDeps(h, b, stack + [h]);
        MarksDone(deps, order, b, stack, h);
        OrderedMore(deps, order, h);
        InTurnMore(deps, order, order + [h], cuts, deps[h], |deps[h]|, marked + {h});
        ReachesSelf(deps, h);
        order := order + [h];
        AppendedAll(deps, order, |old(order)|, h);
      }
    }

    /** The loop of `orderHelper`, over what the last element of the path depends on. */
    method WalkDeps(h: nat, marked: set<nat>, ghost path: seq<nat>) returns (b: set<nat>, ghost cuts: seq<nat>)
      requires Closed(deps) && h < |deps| && Marks(deps, order, marked, path)
      requires Path(deps, path) && |path| > 0 && path[|path| - 1] == h
      modifies this`order
      ensures Marks(deps, order, b, path) && old(order) <= order && marked <= b
      ensures Acyclic(deps) ==> forall d :: d in deps[h] ==> d in order
      ensures Acyclic(deps) && Ordered(deps, old(order)) ==> Ordered(deps, order)
      ensures |cuts| == |deps[h]| + 1 && cuts[0] == |old(order)| && cuts[|deps[h]|] == |order|
      ensures InTurn(deps, order, cuts, deps[h], |deps[h]|, marked)
      ensures forall p :: |old(order)| <= p < |order| ==> Reaches(deps, h, order[p])
      ensures (forall d :: d in deps[h] ==> d in marked) ==> order == old(order) && b == marked
      decreases Below(|deps|) - marked, 1
    {
      hide Reaches, AppendedFor, InTurn, Acyclic, Ordered, Path, Marks, WalkedFor;
      b, cuts := marked, [|order|];
      InTurnNone(deps, order, deps[h], b);
      for i := 0 to |deps[h]|
        invariant Marks(deps, order, b, path) && old(order) <= order && marked <= b
        invariant Acyclic(deps) && Ordered(deps, old(order)) ==> Ordered(deps, order)
        invariant Acyclic(deps) ==> forall k :: 0 <= k < i ==> deps[h][k] in order
        invariant |cuts| == i + 1 && cuts[0] == |old(order)| && cuts[i] == |order|
        invariant InTurn(deps, order, cuts, deps[h], i, marked)
        invariant forall p :: |old(order)| <= p < |order| ==> Reaches(deps, h, order[p])
        invariant (forall d :: d in deps[h] ==> d in marked) ==> order == old(order) && b == marked
      {
        ghost var was := order;
        var d := deps[h][i];
        b := OrderHelper(d, b, path);
        if Acyclic(deps) { NotOnPath(deps, path, d); }
        PathMarked(deps, old(order), marked, path, order, b, d);
        AppendedReaches(deps, order, |was|, |order|, h, d);
        InTurnNext(deps, was, order, cuts, deps[h], i, marked);
        cuts := cuts + [|order|];
      }
    }

    /** `sort`, where `sort.Sort` leaves the elements as sorted: what an element wanted by index it gets by
      * position, and the order respects what it got exactly when that has no cycle. */
    method Sort(sorted: seq<nat>)
      requires Valid() && Closed(deps) && Closed(antiDeps) && Permutation(sorted, |elts|)
      modifies this
      ensures Valid() && elts == sorted && isOrdered == old(isOrdered) && antiDeps == old(antiDeps)
      ensures |deps| == |old(deps)| == |old(elts)| && Closed(deps)
      ensures forall h: nat, j: nat :: h < |deps| && j < |elts| ==>
        (old(elts)[j] in deps[h] <==> Wants(old(deps), old(antiDeps), h, j))
      ensures (forall h: nat, d: nat :: h < |deps| ==> (d in deps[h] <==> Wants(old(deps), old(antiDeps), h, d)))
        <==> Stable(old(elts), old(deps), old(antiDeps))
      ensures forall h :: 0 <= h < |deps| ==> InPlaceOrder(old(elts), deps[h])
      ensures old(Unmoved()) ==> Stable(old(elts), old(deps), old(antiDeps))
      ensures Permutation(order, |deps|)
      ensures Ordered(deps, order) <==> Acyclic(deps)
      ensures ByTurns(deps, sorted, order) && (Ordered(deps, sorted) ==> order == sorted)
    {
      hide Stable, Wants, Closed, Acyclic, Ordered, ByTurns, InPlaceOrder;
      var bits := Collect();
      var lists := Convert(bits);
      Renaming(elts, bits, lists, deps, antiDeps);
      StableIff(elts, lists, deps, antiDeps);
      deps := lists;
      elts := sorted;
      WalkAll();
    }

    /** The last loop of `sort`. */
    method WalkAll()
      requires Valid() && Closed(deps)
      modifies this`order
      ensures Permutation(order, |deps|)
      ensures Ordered(deps, order) <==> Acyclic(deps)
      ensures ByTurns(deps, elts, order) && (Ordered(deps, elts) ==> order == elts)
    {
      hide Acyclic, Reaches, AppendedFor, InTurn;
      order := [];
      var b: set<nat> := {};
      ghost var cuts: seq<nat> := [0];
      InTurnNone(deps, order, elts, b);
      for i := 0 to |elts|
        invariant Marks(deps, order, b, [])
        invariant Acyclic(deps) ==> Ordered(deps, order)
        invariant forall k :: 0 <= k < i ==> elts[k] in b
        invariant |cuts| == i + 1 && cuts[0] == 0 && cuts[i] == |order| && InTurn(deps, order, cuts, elts, i, {})
        invariant Ordered(deps, elts) ==> order == elts[..i]
      {
        ghost var was := order;
        b := OrderHelper(elts[i], b, []);
        InTurnNext(deps, was, order, cuts, elts, i, {});
        cuts := cuts + [|order|];
      }
      assert elts[..|elts|] == elts;
      AllIn(deps, order, b, elts);
      if Ordered(deps, order) { OrderedAcyclic(deps, order); }
    }

    /** `index`: the place in the order, sorting first if an element was added since. */
    method Index(i: nat, isForward: bool, sorted: seq<nat>) returns (r: nat)
      requires Valid() && (|elts| > 0 ==> i < |elts|) && (isOrdered ==> Permutation(order, |elts|))
      requires !isOrdered ==> Closed(deps) && Closed(antiDeps) && Permutation(sorted, |elts|)
      modifies this
      ensures Valid() && |elts| == |old(elts)|
      ensures |elts| == 0 ==> r == i && isOrdered == old(isOrdered)
      ensures |elts| > 0 ==> isOrdered && Permutation(order, |elts|)
      ensures |elts| > 0 ==> r == if isForward then order[i] else order[|order| - 1 - i]
      ensures old(isOrdered) || |elts| == 0 ==> order == old(order) && deps == old(deps) && elts == old(elts)
      ensures !old(isOrdered) && |elts| > 0 ==> elts == sorted && antiDeps == old(antiDeps) && Closed(deps)
      ensures !old(isOrdered) && |elts| > 0 ==> (Ordered(deps, order) <==> Acyclic(deps))
      ensures !old(isOrdered) && |elts| > 0 ==>
        ByTurns(deps, sorted, order) && (Ordered(deps, sorted) ==> order == sorted)
      ensures !old(isOrdered) && |elts| > 0 ==> forall h :: 0 <= h < |deps| ==> InPlaceOrder(old(elts), deps[h])
      ensures !old(isOrdered) && |elts| > 0 ==>
        forall h: nat, j: nat :: h < |deps| && j < |elts| ==>
          (old(elts)[j] in deps[h] <==> Wants(old(deps), old(antiDeps), h, j))
    {
      hide Stable, Wants, Closed, Acyclic, Ordered, ByTurns, InPlaceOrder;
      if |elts| == 0 { return i; }
      if !isOrdered {
        isOrdered := true;
        Sort(sorted);
      }
      r := if isForward then order[i] else order[|order| - 1 - i];
    }
  }

  lemma AmongMore(deps: seq<seq<nat>>, antiDeps: seq<seq<nat>>, elts: seq<nat>, i: nat, h: nat, d: nat)
    requires i < |elts| && elts[i] < |deps| == |antiDeps|
    ensures WantsAmong(deps, antiDeps, elts[..i + 1], h, d) <==>
      (WantsAmong(deps, antiDeps, elts[..i], h, d)
       || (h == elts[i] && d in deps[elts[i]]) || (d == elts[i] && h in antiDeps[elts[i]]))
  {
    assert elts[..i + 1] == elts[..i] + [elts[i]];
  }

  /** The marked elements are those in the order and those on the path. */
  ghost predicate Marks(deps: seq<seq<nat>>, order: seq<nat>, b: set<nat>, stack: seq<nat>) {
    && NoDup(order) && NoDup(stack)
    && (forall x :: x in b <==> x in order || x in stack)
    && (forall x :: x in order ==> x < |deps| && x !in stack)
    && (forall x :: x in stack ==> x < |deps|)
  }

  /** Each element of the path depends on the next. */
  ghost predicate Path(deps: seq<seq<nat>>, stack: seq<nat>) {
    && (forall i :: 0 <= i < |stack| ==> stack[i] < |deps|)
    && (forall i :: 0 <= i < |stack| - 1 ==> stack[i + 1] in deps[stack[i]])
  }

  lemma PathMore(deps: seq<seq<nat>>, stack: seq<nat>, h: nat)
    requires Path(deps, stack) && h < |deps| && (|stack| > 0 ==> h in deps[stack[|stack| - 1]])
    ensures Path(deps, stack + [h])
  {
  }

  lemma MarksMore(deps: seq<seq<nat>>, order: seq<nat>, b: set<nat>, stack: seq<nat>, h: nat)
    requires Marks(deps, order, b, stack) && h < |deps| && h !in b
    ensures Marks(deps, order, b + {h}, stack + [h])
  {
  }

  lemma MarksDone(deps: seq<seq<nat>>, order: seq<nat>, b: set<nat>, stack: seq<nat>, h: nat)
    requires Marks(deps, order, b, stack + [h])
    ensures Marks(deps, order + [h], b, stack)
  {
    var path := stack + [h];
    assert path[|stack|] == h;
    forall x ensures x in path <==> x in stack || x == h {
    }
    forall i, j | 0 <= i < j < |stack| ensures stack[i] != stack[j] {
      assert path[i] == stack[i] && path[j] == stack[j];
    }
    forall i | 0 <= i < |stack| ensures stack[i] != h {
      assert path[i] == stack[i];
    }
    forall i | 0 <= i < |order| ensures order[i] != h {
      assert order[i] in order;
    }
  }

  /** What is marked after a walk from the end of the path is in the order, or was marked before. */
  lemma PathMarked(deps: seq<seq<nat>>, was: seq<nat>, marked: set<nat>, path: seq<nat>, order: seq<nat>, b: set<nat>,
                   d: nat)
    requires Marks(deps, was, marked, path) && Marks(deps, order, b, path) && d in b
    ensures d in marked || d in order
    ensures d in path || d in order
  {
  }

  lemma OrderedMore(deps: seq<seq<nat>>, order: seq<nat>, h: nat)
    requires h < |deps|
    ensures Ordered(deps, order) && (forall d :: d in deps[h] ==> d in order) ==> Ordered(deps, order + [h])
  {
    if Ordered(deps, order) && forall d :: d in deps[h] ==> d in order {
      var more := order + [h];
      forall i, d | 0 <= i < |more| && more[i] < |deps| && d in deps[more[i]] ensures d in more[..i] {
        if i < |order| {
          assert more[..i] == order[..i];
        } else {
          assert more[..i] == order;
        }
      }
    }
  }

  lemma CycleOnPath(deps: seq<seq<nat>>, path: seq<nat>, d: nat) returns (c: seq<nat>)
    requires Path(deps, path) && |path| > 0 && d in deps[path[|path| - 1]] && d in path
    ensures Cycle(deps, c)
  {
    var j :| 0 <= j < |path| && path[j] == d;
    c := path[j..];
    assert c[|c| - 1] == path[|path| - 1];
    forall i | 0 <= i < |c| - 1 ensures c[i + 1] in deps[c[i]] {
      assert path[j + i + 1] in deps[path[j + i]];
    }
  }

  /** A dependency found on the path closes a cycle. */
  lemma NotOnPath(deps: seq<seq<nat>>, path: seq<nat>, d: nat)
    requires Acyclic(deps) && Path(deps, path) && |path| > 0 && d in deps[path[|path| - 1]]
    ensures d !in path
  {
    if d in path {
      var c := CycleOnPath(deps, path, d);
    }
  }

  lemma AllIn(deps: seq<seq<nat>>, order: seq<nat>, b: set<nat>, sorted: seq<nat>)
    requires Marks(deps, order, b, []) && Permutation(sorted, |deps|)
    requires forall k :: 0 <= k < |sorted| ==> sorted[k] in b
    ensures Permutation(order, |deps|)
  {
    assert NoDup(sorted);
    ElemsIs(order);
    ElemsIs(sorted);
    SubsetSize(Elems(sorted), Elems(order));
    BelowIs(|deps|);
    SubsetSize(Elems(order), Below(|deps|));
    forall i | 0 <= i < |order| ensures order[i] < |deps| {
      assert order[i] in order;
    }
  }

  /** The elements standing at the first n positions that the set names. */
  function AtPositions(elts: seq<nat>, wanted: set<nat>, n: nat): seq<nat>
    requires n <= |elts|
  {
    if n == 0 then [] else AtPositions(elts, wanted, n - 1) + if n - 1 in wanted then [elts[n - 1]] else []
  }

  /** The list names elements in the order in which they stand, each once. */
  predicate InPlaceOrder(elts: seq<nat>, list: seq<nat>) {
    forall a, b, j, k ::
      (0 <= a < b < |list| && 0 <= j < |elts| && 0 <= k < |elts| && list[a] == elts[j] && list[b] == elts[k]) ==> j < k
  }

  lemma {:induction false} AtPositionsOrder(elts: seq<nat>, wanted: set<nat>, n: nat)
    requires n <= |elts| && NoDup(elts)
    ensures InPlaceOrder(elts, AtPositions(elts, wanted, n))
  {
    if n > 0 {
      AtPositionsOrder(elts, wanted, n - 1);
      var list, rest := AtPositions(elts, wanted, n), AtPositions(elts, wanted, n - 1);
      forall a, b, j, k | 0 <= a < b < |list| && 0 <= j < |elts| && 0 <= k < |elts|
        && list[a] == elts[j] && list[b] == elts[k] ensures j < k
      {
        assert list[a] == rest[a] && rest[a] in rest;
        AtPositionsHas(elts, wanted, n - 1, rest[a]);
        if b < |rest| { assert list[b] == rest[b]; }
      }
    }
  }

  lemma {:induction false} AtPositionsHas(elts: seq<nat>, wanted: set<nat>, n: nat, d: nat)
    requires n <= |elts|
    ensures d in AtPositions(elts, wanted, n) <==> exists j: nat :: j < n && j in wanted && elts[j] == d
  {
    if n > 0 {
      AtPositionsHas(elts, wanted, n - 1, d);
    }
  }

  /** Position j of the elements stands for index j. */
  lemma Renaming(elts: seq<nat>, bits: seq<set<nat>>, r: seq<seq<nat>>, deps: seq<seq<nat>>, antiDeps: seq<seq<nat>>)
    requires |r| == |bits| == |elts| == |deps| && Permutation(elts, |deps|)
    requires forall h :: 0 <= h < |r| ==> r[h] == AtPositions(elts, bits[h], |elts|)
    requires forall h: nat, d: nat :: h < |bits| ==> (Has(bits, h, d) <==> Wants(deps, antiDeps, h, d))
    ensures Closed(r) && forall h :: 0 <= h < |r| ==> InPlaceOrder(elts, r[h])
    ensures forall h: nat, j: nat :: h < |r| && j < |elts| ==> (elts[j] in r[h] <==> Wants(deps, antiDeps, h, j))
  {
    forall h: nat, j: nat | h < |r| && j < |elts| ensures elts[j] in r[h] <==> Wants(deps, antiDeps, h, j) {
      AtPositionsHas(elts, bits[h], |elts|, elts[j]);
      assert Has(bits, h, j) <==> Wants(deps, antiDeps, h, j);
    }
    forall h | 0 <= h < |r| ensures InPlaceOrder(elts, r[h]) { AtPositionsOrder(elts, bits[h], |elts|); }
    forall h, i | 0 <= h < |r| && 0 <= i < |r[h]| ensures r[h][i] < |r| {
      AtPositionsHas(elts, bits[h], |elts|, r[h][i]);
    }
  }

  /** The lists that result name what was wanted exactly when positions hold what their indices are wanted for. */
  lemma StableIff(elts: seq<nat>, r: seq<seq<nat>>, deps: seq<seq<nat>>, antiDeps: seq<seq<nat>>)
    requires |r| == |elts| == |deps| == |antiDeps| && Permutation(elts, |deps|) && Closed(deps) && Closed(antiDeps)
    requires Closed(r)
    requires forall h: nat, j: nat :: h < |r| && j < |elts| ==> (elts[j] in r[h] <==> Wants(deps, antiDeps, h, j))
    ensures (forall h: nat, d: nat :: h < |r| ==> (d in r[h] <==> Wants(deps, antiDeps, h, d)))
      <==> Stable(elts, deps, antiDeps)
    ensures (forall i :: 0 <= i < |elts| ==> elts[i] == i) ==> Stable(elts, deps, antiDeps)
  {
    if forall h: nat, d: nat :: h < |r| ==> (d in r[h] <==> Wants(deps, antiDeps, h, d)) {
      forall h: nat, d: nat | d < |elts| && Wants(deps, antiDeps, h, d) ensures Wants(deps, antiDeps, h, elts[d]) {
        assert h < |r|;
        assert elts[d] in r[h];
      }
    }
    if Stable(elts, deps, antiDeps) {
      forall h: nat, d: nat | h < |r| ensures d in r[h] <==> Wants(deps, antiDeps, h, d) {
        if d < |elts| {
          FullHas(elts, |elts|, d);
          var j: nat :| j < |elts| && elts[j] == d;
          if Wants(deps, antiDeps, h, d) {
            BelowIs(|deps|);
            Backward(elts, Wanted(deps, antiDeps, h), j);
          }
        }
      }
    }
  }

  ghost function Wanted(deps: seq<seq<nat>>, antiDeps: seq<seq<nat>>, h: nat): set<nat> {
    set d | d in Below(|deps|) && Wants(deps, antiDeps, h, d)
  }

  ghost function Image(elts: seq<nat>, w: set<nat>): set<nat> {
    set j | j in w && j < |elts| :: elts[j]
  }

  lemma {:induction false} ImageSize(elts: seq<nat>, w: set<nat>)
    requires NoDup(elts) && forall j :: j in w ==> j < |elts|
    ensures |Image(elts, w)| == |w|
    decreases |w|
  {
    if w == {} {
      assert Image(elts, w) == {};
    } else {
      var j :| j in w;
      ImageSize(elts, w - {j});
      assert Image(elts, w) == Image(elts, w - {j}) + {elts[j]};
    }
  }

  /** Every position that the set names holds an element of the set. */
  predicate Into(elts: seq<nat>, w: set<nat>) {
    forall d :: d in w ==> d < |elts| && elts[d] in w
  }

  lemma ImageFacts(elts: seq<nat>, w: set<nat>)
    requires NoDup(elts) && Into(elts, w)
    ensures Image(elts, w) <= w && |Image(elts, w)| == |w|
    ensures forall d :: d in Image(elts, w) ==> exists j :: j in w && j < |elts| && elts[j] == d
  {
    ImageSize(elts, w);
  }

  lemma SamePlace(elts: seq<nat>, j: nat, k: nat)
    requires NoDup(elts) && j < |elts| && k < |elts| && elts[j] == elts[k]
    ensures j == k
  {
  }

  /** A set that a permutation maps into itself it maps from nowhere else. */
  lemma Backward(elts: seq<nat>, w: set<nat>, j: nat)
    requires NoDup(elts) && Into(elts, w) && j < |elts| && elts[j] in w
    ensures j in w
  {
    hide Image, Into, NoDup;
    ImageFacts(elts, w);
    SubsetEq(Image(elts, w), w);
    var k: nat :| k in w && k < |elts| && elts[k] == elts[j];
    SamePlace(elts, j, k);
  }

  /** Element j stands where its turn in these three leaves it; element 3 has not moved. */
  const MOVED: seq<nat> := [2, 0, 1, 3]

  predicate OneWantsTwo(h: nat, d: nat) {
    (h == 1 && d == 2) || (h == 2 && d == 0)
  }

  predicate WantsLast(h: nat, d: nat) {
    (h == 1 && d == 0) || (h == 2 && d == 1)
  }

  lemma MovedLists(deps: seq<seq<nat>>)
    requires |deps| == 4 && Closed(deps)
    requires forall h: nat, d: nat :: h < 4 && d < 4 ==> (d in deps[h] <==> OneWantsTwo(h, d))
    ensures Acyclic(deps) && 2 in deps[1]
  {
    var order: seq<nat> := [0, 2, 1, 3];
    assert order[..1] == [0] && order[..2] == [0, 2];
    forall i, d | 0 <= i < 4 && d in deps[order[i]] ensures d in order[..i] {
      assert d < 4;
    }
    OrderedAcyclic(deps, order);
  }

  /** Three elements, each waiting for the one before, sorted in an order that moves all of them. */
  method FirstSort() returns (d: Deps)
    ensures fresh(d) && d.Valid() && d.elts == [2, 0, 1]
    ensures |d.deps| == 3 && Closed(d.deps) && d.antiDeps == [[], [], []]
    ensures forall h: nat, j: nat :: h < 3 && j < 3 ==> (j in d.deps[h] <==> WantsLast(h, j))
    ensures Ordered(d.deps, d.order) <==> Acyclic(d.deps)
  {
    hide Acyclic, Ordered, ByTurns;
    d := new Deps();
    d.Add([], []);
    d.Add([0], []);
    d.Add([1], []);
    ghost var elts, given, anti := d.elts, d.deps, d.antiDeps;
    assert elts == [0, 1, 2] && given == [[], [0], [1]] && anti == [[], [], []];
    var r := d.Index(0, true, [2, 0, 1]);
    forall h: nat, j: nat | h < 3 && j < 3 ensures j in d.deps[h] <==> WantsLast(h, j) {
      assert elts[j] == j;
      assert elts[j] in d.deps[h] <==> Wants(given, anti, h, j);
    }
  }

  /** The first sort moves three elements round, two of which wait for the one before; the second, of the lists given
    * with a fourth element added, puts element 2 before element 1, for which it waits. */
  method SecondSortLoses() returns (d: Deps, ghost given: seq<seq<nat>>, ghost p: nat, ghost q: nat)
    ensures fresh(d) && d.isOrdered && p < q < |d.order| && d.order[p] == 2 && d.order[q] == 1
    ensures |given| == 4 && 1 in given[2]
  {
    hide Acyclic, Ordered, Permutation, ByTurns;
    d := FirstSort();
    ghost var deps := d.deps;
    d.Add([], []);
    given := d.deps;
    ghost var anti := d.antiDeps;
    assert d.elts == MOVED && given == deps + [[]] && anti == [[], [], [], []];
    assert WantsLast(2, 1) && 1 in deps[2];
    var r := d.Index(0, true, MOVED);
    forall h: nat, x: nat | h < 4 && x < 4 ensures x in d.deps[h] <==> OneWantsTwo(h, x) {
      var j: nat := if x == 2 then 0 else if x == 0 then 1 else if x == 1 then 2 else 3;
      assert MOVED[j] in d.deps[h] <==> Wants(given, anti, h, j);
    }
    MovedLists(d.deps);
    p, q := Precedes(d.deps, d.order, 1, 2);
  }

  lemma Precedes(deps: seq<seq<nat>>, order: seq<nat>, h: nat, d: nat) returns (p: nat, q: nat)
    requires Permutation(order, |deps|) && Ordered(deps, order) && h < |deps| && d in deps[h]
    ensures p < q < |order| && order[p] == d && order[q] == h
  {
    FullHas(order, |deps|, h);
    q :| q < |order| && order[q] == h;
    assert d in order[..q];
    p :| p < q && order[p] == d;
  }

  /** Index d is in element h's set. */
  predicate Has(bits: seq<set<nat>>, h: nat, d: nat) {
    h < |bits| && d in bits[h]
  }

  /** Element i depends on every element of the list. */
  method DependsOn(bits: seq<set<nat>>, i: nat, list: seq<nat>) returns (r: seq<set<nat>>)
    requires i < |bits|
    ensures |r| == |bits|
    ensures forall h: nat, d: nat :: h < |bits| ==> (Has(r, h, d) <==> Has(bits, h, d) || (h == i && d in list))
  {
    r := bits;
    for j := 0 to |list|
      invariant |r| == |bits|
      invariant forall h: nat, d: nat :: h < |bits| ==>
        (Has(r, h, d) <==> Has(bits, h, d) || (h == i && d in list[..j]))
    {
      assert list[..j + 1] == list[..j] + [list[j]];
      ghost var was := r;
      r := r[i := r[i] + {list[j]}];
      assert forall h: nat, d: nat :: h < |bits| ==> (Has(r, h, d) <==> Has(was, h, d) || (h == i && d == list[j]));
    }
    assert list[..|list|] == list;
  }

  /** Every element of the list depends on element i. */
  method AntiDependsOn(bits: seq<set<nat>>, i: nat, list: seq<nat>) returns (r: seq<set<nat>>)
    requires forall j :: 0 <= j < |list| ==> list[j] < |bits|
    ensures |r| == |bits|
    ensures forall h: nat, d: nat :: h < |bits| ==> (Has(r, h, d) <==> Has(bits, h, d) || (d == i && h in list))
  {
    r := bits;
    for j := 0 to |list|
      invariant |r| == |bits|
      invariant forall h: nat, d: nat :: h < |bits| ==>
        (Has(r, h, d) <==> Has(bits, h, d) || (d == i && h in list[..j]))
    {
      assert list[..j + 1] == list[..j] + [list[j]];
      ghost var was := r;
      r := r[list[j] := r[list[j]] + {i}];
      assert forall h: nat, d: nat :: h < |bits| ==> (Has(r, h, d) <==> Has(was, h, d) || (d == i && h == list[j]));
    }
    assert list[..|list|] == list;
  }
}

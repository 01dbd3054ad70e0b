/** Counting facts behind the degree bound of the heap: no links, only sequences of degrees. */
module FibDegree {

  function Fib(n: nat): nat {
    if n < 2 then n else Fib(n - 1) + Fib(n - 2)
  }

  /** How many entries are below `k`. */
  function Below(e: seq<nat>, k: nat): nat {
    if |e| == 0 then 0 else (if e[0] < k then 1 else 0) + Below(e[1..], k)
  }

  /** For every k, at most k entries are below k. */
  ghost predicate Spread(e: seq<nat>) {
    forall k: nat :: Below(e, k) <= k
  }

  lemma {:induction false} BelowConcat(a: seq<nat>, b: seq<nat>, k: nat)
    ensures Below(a + b, k) == Below(a, k) + Below(b, k)
  {
    if |a| == 0 {
      assert a + b == b;
    } else {
      assert (a + b)[1..] == a[1..] + b;
      BelowConcat(a[1..], b, k);
    }
  }

  lemma {:induction false} BelowLength(e: seq<nat>, k: nat)
    ensures Below(e, k) <= |e|
    ensures (forall i :: 0 <= i < |e| ==> e[i] < k) ==> Below(e, k) == |e|
  {
    if |e| > 0 {
      BelowLength(e[1..], k);
    }
  }

  /** Losing an entry, with the rest in either order. */
  lemma SpreadRemove(a: seq<nat>, v: nat, b: seq<nat>)
    requires Spread(a + [v] + b)
    ensures Spread(a + b) && Spread(b + a)
  {
    forall k: nat ensures Below(a + b, k) <= k && Below(b + a, k) <= k {
      BelowConcat(a + [v], b, k);
      BelowConcat(a, [v], k);
      BelowConcat(a, b, k);
      BelowConcat(b, a, k);
      assert Below(a + [v] + b, k) <= k;
    }
  }

  /** Gaining, in second place, an entry at least as large as the number already there. */
  lemma SpreadInsert(e: seq<nat>, v: nat)
    requires Spread(e) && |e| > 0 && v >= |e|
    ensures Spread([e[0], v] + e[1..])
  {
    var r := [e[0], v] + e[1..];
    forall k: nat ensures Below(r, k) <= k {
      assert e == [e[0]] + e[1..];
      BelowConcat([e[0]], e[1..], k);
      assert r == ([e[0]] + [v]) + e[1..];
      BelowConcat([e[0]] + [v], e[1..], k);
      BelowConcat([e[0]], [v], k);
      BelowLength(r, k);
      assert Below(e, k) <= k;
      assert Below([v], k) == if v < k then 1 else 0;
    }
  }

  lemma SpreadSingle(v: nat)
    ensures Spread([v])
  {
    forall k: nat ensures Below([v], k) <= k {
      assert [v][1..] == [];
    }
  }

  function Sum(e: seq<nat>): nat {
    if |e| == 0 then 0 else e[0] + Sum(e[1..])
  }

  lemma {:induction false} SumConcat(a: seq<nat>, b: seq<nat>)
    ensures Sum(a + b) == Sum(a) + Sum(b)
  {
    if |a| == 0 {
      assert a + b == b;
    } else {
      assert (a + b)[1..] == a[1..] + b;
      SumConcat(a[1..], b);
    }
  }

  /** Least subtree size that a counted degree `v` vouches for. */
  function Vouched(v: nat): nat { Fib(if v == 0 then 2 else v + 1) }

  lemma {:induction false} FibMono(m: nat, n: nat)
    requires m <= n
    ensures Fib(m) <= Fib(n)
    decreases n - m
  {
    if m < n {
      FibMono(m, n - 1);
      if n >= 2 { assert Fib(n) == Fib(n - 1) + Fib(n - 2); }
    }
  }

  /** The children of a node of degree d, together with the node, number at least Fib(d + 2). */
  lemma {:induction false} SpreadSum(e: seq<nat>, size: seq<nat>)
    requires Spread(e) && |size| == |e|
    requires forall i :: 0 <= i < |e| ==> size[i] >= Vouched(e[i])
    ensures 1 + Sum(size) >= Fib(|e| + 2)
    decreases |e|
  {
    var d := |e|;
    if d > 0 {
      // Not all of them are below d - 1, so some child vouches for Fib(d).
      BelowLength(e, d - 1);
      assert Below(e, d - 1) <= d - 1;
      var i :| 0 <= i < d && e[i] >= d - 1;
      var rest := Removed(e, i);
      var sizes := Removed(size, i);
      assert forall j :: 0 <= j < d - 1 ==> sizes[j] >= Vouched(rest[j]);
      SpreadRemoved(e, i);
      SpreadSum(rest, sizes);
      SumRemoved(size, i);
      hide Spread, Below, Sum, Removed;
      FibMono(d, if e[i] == 0 then 2 else e[i] + 1);
      assert Fib(d + 2) == Fib(d + 1) + Fib(d);
    }
  }

  function Removed(e: seq<nat>, i: nat): (r: seq<nat>)
    requires i < |e|
    ensures |r| == |e| - 1 && forall j :: 0 <= j < |r| ==> r[j] == e[if j < i then j else j + 1]
  {
    e[..i] + e[i+1..]
  }

  lemma SpreadRemoved(e: seq<nat>, i: nat)
    requires Spread(e) && i < |e|
    ensures Spread(Removed(e, i))
  {
    hide Spread;
    assert e == e[..i] + [e[i]] + e[i+1..];
    SpreadRemove(e[..i], e[i], e[i+1..]);
  }

  lemma SumRemoved(e: seq<nat>, i: nat)
    requires i < |e|
    ensures Sum(e) == Sum(Removed(e, i)) + e[i]
  {
    SumSplit(e, i);
    SumConcat(e[..i], e[i+1..]);
  }

  lemma SumSplit(e: seq<nat>, i: nat)
    requires i < |e|
    ensures Sum(e) == Sum(e[..i]) + e[i] + Sum(e[i+1..])
  {
    assert e == e[..i] + e[i..];
    SumConcat(e[..i], e[i..]);
    assert e[i..][0] == e[i] && e[i..][1..] == e[i+1..];
  }

  lemma Fib34()
    ensures Fib(34) == 5702887
  {
    assert Fib(10) == 55 && Fib(11) == 89;
    assert Fib(12) == 144 && Fib(13) == 233;
    assert Fib(14) == 377 && Fib(15) == 610;
    assert Fib(16) == 987 && Fib(17) == 1597;
    assert Fib(18) == 2584 && Fib(19) == 4181;
    assert Fib(20) == 6765 && Fib(21) == 10946;
    assert Fib(22) == 17711 && Fib(23) == 28657;
    assert Fib(24) == 46368 && Fib(25) == 75025;
    assert Fib(26) == 121393 && Fib(27) == 196418;
    assert Fib(28) == 317811 && Fib(29) == 514229;
    assert Fib(30) == 832040 && Fib(31) == 1346269;
    assert Fib(32) == 2178309 && Fib(33) == 3524578;
  }
}

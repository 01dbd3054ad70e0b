/** Subtrees of the heap are large: a node of degree d heads at least Fib(d + 2) nodes. */
module FibSize {
  import opened Basics
  import opened FibLinks
  import opened FibDegree
  import opened FibForest

  ghost function Live(sh: Shape): set<nat> { sh.kids.Keys - {ROOT} }

  ghost predicate Under(sh: Shape, c: nat, bound: nat) {
    c in sh.kids && c in sh.rank && c != ROOT && sh.rank[c] < bound
  }

  lemma KidsUnder(l: Links, sh: Shape, g: Gap, x: nat)
    requires Tree(l, sh, g) && x in Live(sh)
    ensures x in sh.rank && forall c :: c in sh.kids[x] ==> Under(sh, c, sh.rank[x])
  {
    forall c | c in sh.kids[x] ensures Under(sh, c, sh.rank[x]) {
      assert Child(l, sh, g, x, c);
    }
  }

  /** `x` and everything below it. */
  ghost function Desc(l: Links, sh: Shape, g: Gap, x: nat): set<nat>
    requires Tree(l, sh, g) && x in Live(sh) && x in sh.rank
    decreases sh.rank[x], 1, 0
  {
    KidsUnder(l, sh, g, x);
    {x} + DescAll(l, sh, g, sh.kids[x], sh.rank[x])
  }

  ghost function DescAll(l: Links, sh: Shape, g: Gap, s: seq<nat>, bound: nat): set<nat>
    requires Tree(l, sh, g) && forall c :: c in s ==> Under(sh, c, bound)
    decreases bound, 0, |s|
  {
    if |s| == 0 then {} else
      assert Under(sh, s[0], bound);
      Desc(l, sh, g, s[0]) + DescAll(l, sh, g, s[1..], bound)
  }

  /** Every descendant other than `x` itself hangs from another descendant. */
  lemma {:induction false} DescUp(l: Links, sh: Shape, g: Gap, x: nat, y: nat)
    requires Tree(l, sh, g) && x in Live(sh) && x in sh.rank && y in Desc(l, sh, g, x)
    ensures y in Live(sh) && y in sh.rank && sh.rank[y] <= sh.rank[x]
    ensures y != x ==> At(l, y).sup in Desc(l, sh, g, x) && At(l, y).sup in sh.kids && y in sh.kids[At(l, y).sup]
    decreases sh.rank[x], 1, 0
  {
    KidsUnder(l, sh, g, x);
    if y != x {
      DescAllUp(l, sh, g, x, sh.kids[x], y);
    }
  }

  lemma {:induction false} DescAllUp(l: Links, sh: Shape, g: Gap, x: nat, s: seq<nat>, y: nat)
    requires Tree(l, sh, g) && x in Live(sh) && x in sh.rank
    requires forall c :: c in s ==> c in sh.kids[x]
    requires forall c :: c in s ==> Under(sh, c, sh.rank[x])
    requires y in DescAll(l, sh, g, s, sh.rank[x])
    requires DescAll(l, sh, g, s, sh.rank[x]) <= Desc(l, sh, g, x)
    ensures y in Live(sh) && y in sh.rank && sh.rank[y] < sh.rank[x]
    ensures At(l, y).sup in Desc(l, sh, g, x) && At(l, y).sup in sh.kids && y in sh.kids[At(l, y).sup]
    decreases sh.rank[x], 0, |s|
  {
    assert Under(sh, s[0], sh.rank[x]);
    if y in Desc(l, sh, g, s[0]) {
      DescUp(l, sh, g, s[0], y);
      if y == s[0] {
        assert Child(l, sh, g, x, y);
        assert At(l, y).sup == x;
      }
    } else {
      DescAllUp(l, sh, g, x, s[1..], y);
    }
  }

  /** Siblings have no descendant in common. */
  lemma {:induction false} DescApart(l: Links, sh: Shape, g: Gap, x: nat, a: nat, b: nat, y: nat)
    requires Tree(l, sh, g) && x in Live(sh) && x in sh.rank
    requires a in sh.kids[x] && b in sh.kids[x] && a != b && a in sh.rank && b in sh.rank
    requires a in Live(sh) && b in Live(sh) && y in Desc(l, sh, g, a)
    ensures y !in Desc(l, sh, g, b)
    decreases sh.rank[x] - (if y in sh.rank && sh.rank[y] <= sh.rank[x] then sh.rank[y] else 0)
  {
    KidsUnder(l, sh, g, x);
    DescUp(l, sh, g, a, y);
    assert Under(sh, a, sh.rank[x]) && Under(sh, b, sh.rank[x]);
    if y in Desc(l, sh, g, b) {
      DescUp(l, sh, g, b, y);
      var p := At(l, y).sup;
      assert Child(l, sh, g, x, a) && Child(l, sh, g, x, b);
      if y == a || y == b {
        // then x would be below one of its own children
        if y == a { DescUp(l, sh, g, b, x); } else { DescUp(l, sh, g, a, x); }
        assert false;
      } else {
        DescUp(l, sh, g, a, p);
        assert Child(l, sh, g, p, y);
        DescApart(l, sh, g, x, a, b, p);
      }
    }
  }

  ghost function Sizes(l: Links, sh: Shape, g: Gap, s: seq<nat>, bound: nat): (r: seq<nat>)
    requires Tree(l, sh, g) && forall c :: c in s ==> Under(sh, c, bound)
    ensures |r| == |s|
    ensures forall i :: 0 <= i < |s| ==> Under(sh, s[i], bound) && r[i] == |Desc(l, sh, g, s[i])|
  {
    if |s| == 0 then [] else
      assert Under(sh, s[0], bound);
      [|Desc(l, sh, g, s[0])|] + Sizes(l, sh, g, s[1..], bound)
  }

  lemma {:induction false} DescAllIn(l: Links, sh: Shape, g: Gap, s: seq<nat>, bound: nat, y: nat)
    requires Tree(l, sh, g) && forall c :: c in s ==> Under(sh, c, bound)
    requires y in DescAll(l, sh, g, s, bound)
    ensures exists i :: 0 <= i < |s| && Under(sh, s[i], bound) && y in Desc(l, sh, g, s[i])
    decreases |s|
  {
    assert Under(sh, s[0], bound);
    if y !in Desc(l, sh, g, s[0]) {
      DescAllIn(l, sh, g, s[1..], bound, y);
      var i :| 0 <= i < |s[1..]| && Under(sh, s[1..][i], bound) && y in Desc(l, sh, g, s[1..][i]);
      assert s[i+1] == s[1..][i];
    }
  }

  lemma {:induction false} DescAllSize(l: Links, sh: Shape, g: Gap, x: nat, s: seq<nat>)
    requires Tree(l, sh, g) && x in Live(sh) && x in sh.rank
    requires forall c :: c in s ==> Under(sh, c, sh.rank[x])
    requires forall c :: c in s ==> c in sh.kids[x]
    requires Distinct(s)
    ensures |DescAll(l, sh, g, s, sh.rank[x])| == Sum(Sizes(l, sh, g, s, sh.rank[x]))
    decreases |s|
  {
    if |s| > 0 {
      var b := sh.rank[x];
      assert Under(sh, s[0], b);
      DescAllSize(l, sh, g, x, s[1..]);
      var d, e := Desc(l, sh, g, s[0]), DescAll(l, sh, g, s[1..], b);
      forall y | y in d ensures y !in e {
        if y in e {
          DescAllIn(l, sh, g, s[1..], b, y);
          var i :| 0 <= i < |s[1..]| && Under(sh, s[1..][i], b) && y in Desc(l, sh, g, s[1..][i]);
          assert s[1..][i] == s[i+1] != s[0];
          DescApart(l, sh, g, x, s[0], s[i+1], y);
        }
      }
      assert d !! e;
      assert |d + e| == |d| + |e|;
      var z := Sizes(l, sh, g, s, b);
      assert z[1..] == Sizes(l, sh, g, s[1..], b);
    }
  }

  /** Any node of a heap at rest heads at least Fib(degree + 2) nodes. */
  lemma {:induction false} SubtreeSize(l: Links, sh: Shape, g: Gap, x: nat)
    requires Inv(l, sh, g) && g.short == NIL && g.due == NIL && x in Live(sh) && x in sh.rank
    ensures |Desc(l, sh, g, x)| >= Fib(At(l, x).nSub + 2)
    decreases sh.rank[x]
  {
    KidsUnder(l, sh, g, x);
    var s, b := sh.kids[x], sh.rank[x];
    var e, z := Effs(l, g, s), Sizes(l, sh, g, s, b);
    assert DegreeAt(l, sh, g, x);
    forall i | 0 <= i < |s| ensures z[i] >= Vouched(e[i]) {
      assert Under(sh, s[i], b);
      SubtreeSize(l, sh, g, s[i]);
      var d := At(l, s[i]).nSub;
      FibMono(if e[i] == 0 then 2 else e[i] + 1, d + 2);
    }
    SpreadSum(e, z);
    assert Ring(l, Ring0(sh, x));
    DescAllSize(l, sh, g, x, s);
    if x in DescAll(l, sh, g, s, b) {
      DescAllUp(l, sh, g, x, s, x);
      assert false;
    }
  }

  lemma DescLive(l: Links, sh: Shape, g: Gap, x: nat)
    requires Tree(l, sh, g) && x in Live(sh) && x in sh.rank
    ensures Desc(l, sh, g, x) <= Live(sh)
  {
    forall y | y in Desc(l, sh, g, x) ensures y in Live(sh) {
      DescUp(l, sh, g, x, y);
    }
  }

  /** The bound Min relies on to index its 32 degree slots. */
  lemma DegreeBound(l: Links, sh: Shape, g: Gap, x: nat, d: nat)
    requires Inv(l, sh, g) && g.short == NIL && g.due == NIL && x in Live(sh)
    requires |Live(sh)| < Fib(d + 2)
    ensures At(l, x).nSub < d
  {
    SubtreeSize(l, sh, g, x);
    DescLive(l, sh, g, x);
    SubsetSize(Desc(l, sh, g, x), Live(sh));
    if At(l, x).nSub >= d {
      FibMono(d + 2, At(l, x).nSub + 2);
    }
  }
}

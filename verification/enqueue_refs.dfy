/** Speculative enqueue of `goes/vnet/node.go` over the vector lengths of `goes/elib/loop/call.go`.
  *
  * Packets of one input vector go to many outputs. The enqueuer guesses that the next ones go where the last
  * ones went, writes them there first, and takes the writes back when it guessed wrong. The guessed output's
  * length is kept aside until a sync. A length is one byte, so 256 is stored as zero with a pending bit.
  */
module EnqueueRefs {
  const MAX_VECTOR := 256

  function Total<R>(sent: seq<seq<R>>): nat {
    if |sent| == 0 then 0 else |sent[0]| + Total(sent[1..])
  }

  lemma {:induction false} TotalSet<R>(sent: seq<seq<R>>, j: nat, s: seq<R>)
    requires j < |sent|
    ensures Total(sent[j := s]) == Total(sent) - |sent[j]| + |s|
    ensures |sent[j]| <= Total(sent)
  {
    if j == 0 {
      assert sent[j := s][1..] == sent[1..];
    } else {
      assert sent[j := s][1..] == sent[1..][j - 1 := s];
      TotalSet(sent[1..], j - 1, s);
    }
  }

  /** One more ref for one output. */
  function Sent1<R>(sent: seq<seq<R>>, r: R, x: nat): seq<seq<R>>
    requires x < |sent|
  {
    sent[x := sent[x] + [r]]
  }

  /** The pending list gained output j, unless it was pending already or got nothing. */
  predicate Appended(after: seq<nat>, before: seq<nat>, wasPending: seq<bool>, j: nat, any: bool) {
    j < |wasPending| && after == if !any || wasPending[j] then before else before + [j]
  }

  lemma AppendedMore(after: seq<nat>, before: seq<nat>, wasPending: seq<bool>, j: nat, any: bool)
    requires Appended(after, before, wasPending, j, any)
    ensures before <= after
  {
  }

  lemma AppendedNone(before: seq<nat>, wasPending: seq<bool>, j: nat)
    requires j < |wasPending|
    ensures Appended(before, before, wasPending, j, false)
  {
  }

  class Enqueue<R(0)> {
    /** Cached output and its count; the input's buffer pool. */
    var x: nat
    var n: nat
    var inPool: nat
    /** The outputs: their refs, stored lengths, pending bits and buffer pools, and the pending list. */
    var refs: array2<R>
    var lens: seq<nat>
    var isPending: seq<bool>
    var pools: seq<nat>
    var pending: seq<nat>
    /** What each output has been sent so far. */
    ghost var sent: seq<seq<R>>

    /** `In.GetLen`. */
    function GetLen(j: nat): (l: nat)
      requires j < |lens| == |isPending|
      reads `lens, `isPending
    {
      if lens[j] == 0 && isPending[j] then MAX_VECTOR else lens[j]
    }

    ghost predicate Lengths()
      reads `lens, `isPending, `pools, `inPool, `pending
    {
      && |lens| == |isPending| == |pools|
      && (forall j :: 0 <= j < |lens| ==> lens[j] < MAX_VECTOR && (lens[j] > 0 ==> isPending[j]))
      && (forall j :: 0 <= j < |lens| && GetLen(j) > 0 ==> pools[j] == inPool)
      && (forall j: nat :: j in pending <==> j < |lens| && isPending[j])
      && (forall i, j :: 0 <= i < j < |pending| ==> pending[i] != pending[j])
    }

    ghost predicate Valid()
      reads this, refs
    {
      && Lengths()
      && x < |sent| == |lens| == refs.Length0 && refs.Length1 == MAX_VECTOR
      && Total(sent) <= MAX_VECTOR
      && (forall j :: 0 <= j < |sent| && j != x ==> |sent[j]| == GetLen(j))
      && GetLen(x) <= |sent[x]| == n
      && (forall j, i :: 0 <= j < |sent| && 0 <= i < |sent[j]| && i < MAX_VECTOR ==> refs[j, i] == sent[j][i])
    }

    /** Outputs all empty, with whatever output was cached last time. */
    constructor (outs: nat, cached: nat, pool: nat)
      requires cached < outs
      ensures Valid() && fresh(refs) && sent == seq(outs, _ => []) && inPool == pool
    {
      x, n, inPool := cached, 0, pool;
      refs := new R[outs, MAX_VECTOR];
      lens, isPending, pools := seq(outs, _ => 0), seq(outs, _ => false), seq(outs, _ => 0);
      pending := [];
      sent := seq(outs, _ => []);
      new;
      NoneSent(sent);
    }

    /** `In.SetLen`: a length that becomes positive for the first time makes the output the last pending one. A length
      * of zero reads back as 256 once the output is pending. */
    method SetLen(j: nat, l: nat)
      requires Lengths() && j < |lens| && l <= MAX_VECTOR && pools[j] == inPool
      modifies this`lens, this`isPending, this`pending
      ensures Lengths() && GetLen(j) == if l == 0 && old(isPending[j]) then MAX_VECTOR else l
      ensures Appended(pending, old(pending), old(isPending), j, l > 0)
      ensures forall k :: 0 <= k < |lens| && k != j ==> GetLen(k) == old(GetLen(k))
    {
      lens := lens[j := l % 256];
      if l > 0 && !isPending[j] {
        isPending := isPending[j := true];
        pending := pending + [j];
      }
    }

    method Dup(j: nat)
      requires Lengths() && j < |lens|
      modifies this`pools
      ensures Lengths() && pools[j] == inPool
    {
      pools := pools[j := inPool];
    }

    /** `sync`: store the cached output's length. */
    method Sync()
      requires Valid()
      modifies this`lens, this`isPending, this`pending, this`pools
      ensures Valid() && sent == old(sent)
      ensures forall j :: 0 <= j < |sent| ==> GetLen(j) == |sent[j]|
      ensures Appended(pending, old(pending), old(isPending), x, |sent[x]| > 0)
      ensures x == old(x)
    {
      TotalSet(sent, x, []);
      if n > GetLen(x) {
        Dup(x);
        SetLen(x, n);
      }
    }

    /** `In.AddLen`, for the input's buffer pool. */
    method AddLen(j: nat) returns (l: nat)
      requires Lengths() && j < |lens| && GetLen(j) < MAX_VECTOR
      modifies this`lens, this`isPending, this`pending, this`pools
      ensures Lengths() && |lens| == |old(lens)| && l == old(GetLen(j)) && GetLen(j) == l + 1
      ensures forall k :: 0 <= k < |lens| && k != j ==> GetLen(k) == old(GetLen(k))
      ensures Appended(pending, old(pending), old(isPending), j, true)
    {
      Dup(j);
      l := GetLen(j);
      SetLen(j, l + 1);
    }

    /** `put`: straight to an output that is not cached. */
    method Put(r: R, x0: nat)
      requires Valid() && x0 < |sent| && x0 != x && Total(sent) < MAX_VECTOR
      modifies this`lens, this`isPending, this`pending, this`pools, this`sent, refs
      ensures Valid() && sent == Sent1(old(sent), r, x0)
      ensures Appended(pending, old(pending), old(isPending), x0, true)
    {
      hide Lengths, Appended;
      TotalSet(sent, x0, sent[x0] + [r]);
      var i0 := AddLen(x0);
      refs[x0, i0] := r;
      sent := Sent1(sent, r, x0);
    }

    /** `Put1`: write to the cached output, and take it back when the ref belongs elsewhere. */
    method Put1(r: R, x0: nat)
      requires Valid() && x0 < |sent| && Total(sent) < MAX_VECTOR
      modifies this`n, this`lens, this`isPending, this`pending, this`pools, this`sent, refs
      ensures Valid() && sent == Sent1(old(sent), r, x0)
      ensures Appended(pending, old(pending), old(isPending), x0, x0 != x)
    {
      hide Appended;
      TotalSet(sent, x, sent[x] + [r]);
      refs[x, n] := r;
      n := n + 1;
      if x0 != x {
        n := n - 1;
        Put(r, x0);
      } else {
        sent := Sent1(sent, r, x0);
        AppendedNone(pending, isPending, x0);
      }
    }

    method SetCachedNext(x0: nat)
      requires Valid() && x0 < |sent|
      modifies this`x, this`n, this`lens, this`isPending, this`pending, this`pools
      ensures Valid() && sent == old(sent) && x == x0 && old(pending) <= pending
    {
      Sync();
      x := x0;
      n := GetLen(x0);
    }

    /** Write past the cached output's count, where nothing is kept. */
    method Guess(r: R, k: nat)
      requires Valid() && n + k < MAX_VECTOR
      modifies refs
      ensures Valid() && refs[x, n + k] == r
      ensures forall i :: 0 <= i < MAX_VECTOR && i != n + k ==> refs[x, i] == old(refs[x, i])
    {
      refs[x, n + k] := r;
    }

    /** The guess was right: what was written counts. */
    method Confirm(k: nat, ghost rs: seq<R>)
      requires Valid() && |rs| == k && Total(sent) + k <= MAX_VECTOR && n + k <= MAX_VECTOR
      requires forall i :: 0 <= i < k ==> refs[x, n + i] == rs[i]
      modifies this`n, this`sent
      ensures Valid() && sent == old(sent)[x := old(sent)[x] + rs]
    {
      TotalSet(sent, x, sent[x] + rs);
      n := n + k;
      sent := sent[x := sent[x] + rs];
    }

    /** `Put2`. */
    method Put2(r0: R, r1: R, x0: nat, x1: nat)
      requires Valid() && x0 < |sent| && x1 < |sent| && Total(sent) + 2 <= MAX_VECTOR
      modifies this`x, this`n, this`lens, this`isPending, this`pending, this`pools, this`sent, refs
      ensures Valid() && sent == Sent1(Sent1(old(sent), r0, x0), r1, x1)
      ensures x == (if x0 == x1 then x0 else old(x)) && old(pending) <= pending
    {
      TotalSent(sent, r0, x0);
      TotalSet(sent, x, []);
      hide Valid;
      Room();
      Guess(r0, 0);
      Guess(r1, 1);
      var same, matchCache0 := x0 == x1, x0 == x;
      if same && matchCache0 {
        Confirm(2, [r0, r1]);
        assert old(sent)[x] + [r0, r1] == old(sent)[x] + [r0] + [r1];
        return;
      }
      PutPair(r0, r1, x0, x1);
      if same { SetCachedNext(x0); }
    }

    /** Two refs to their outputs, when the guess was wrong. */
    method PutPair(r0: R, r1: R, x0: nat, x1: nat)
      requires Valid() && x0 < |sent| && x1 < |sent| && Total(sent) + 2 <= MAX_VECTOR
      modifies this`n, this`lens, this`isPending, this`pending, this`pools, this`sent, refs
      ensures Valid() && sent == Sent1(Sent1(old(sent), r0, x0), r1, x1) && old(pending) <= pending
    {
      hide Valid, Sent1;
      TotalSent(sent, r0, x0);
      ghost var p0, was0 := pending, isPending;
      Put1(r0, x0);
      ghost var p1, was1 := pending, isPending;
      AppendedMore(p1, p0, was0, x0, x0 != x);
      Put1(r1, x1);
      AppendedMore(pending, p1, was1, x1, x1 != x);
    }

    lemma Room()
      requires Valid()
      ensures n == |sent[x]| <= Total(sent) && refs.Length0 == |sent| && refs.Length1 == MAX_VECTOR
    {
      TotalSet(sent, x, []);
    }

    /** `Put4`. */
    method Put4(r0: R, r1: R, r2: R, r3: R, x0: nat, x1: nat, x2: nat, x3: nat)
      requires Valid() && x0 < |sent| && x1 < |sent| && x2 < |sent| && x3 < |sent|
      requires Total(sent) + 4 <= MAX_VECTOR
      modifies this`x, this`n, this`lens, this`isPending, this`pending, this`pools, this`sent, refs
      ensures Valid() && x == (if x2 == x3 then x2 else old(x)) && old(pending) <= pending
      ensures sent == Sent1(Sent1(Sent1(Sent1(old(sent), r0, x0), r1, x1), r2, x2), r3, x3)
    {
      hide Valid, Sent1;
      Room();
      var xc := x;
      Guess(r0, 0);
      Guess(r1, 1);
      Guess(r2, 2);
      Guess(r3, 3);
      if x0 == xc && x0 == x1 && x2 == x3 && x0 == x2 {
        Confirm(4, [r0, r1, r2, r3]);
        SentFour(old(sent), r0, r1, r2, r3, xc);
        return;
      }
      PutFour(r0, r1, r2, r3, x0, x1, x2, x3);
      if x2 != xc && x2 == x3 { SetCachedNext(x2); }
    }

    method PutFour(r0: R, r1: R, r2: R, r3: R, x0: nat, x1: nat, x2: nat, x3: nat)
      requires Valid() && x0 < |sent| && x1 < |sent| && x2 < |sent| && x3 < |sent|
      requires Total(sent) + 4 <= MAX_VECTOR
      modifies this`n, this`lens, this`isPending, this`pending, this`pools, this`sent, refs
      ensures Valid() && old(pending) <= pending
      ensures sent == Sent1(Sent1(Sent1(Sent1(old(sent), r0, x0), r1, x1), r2, x2), r3, x3)
      ensures |sent| == |old(sent)|
    {
      hide Valid, Sent1;
      TotalSent(sent, r0, x0);
      TotalSent(Sent1(sent, r0, x0), r1, x1);
      TotalSent(Sent1(Sent1(sent, r0, x0), r1, x1), r2, x2);
      TotalSent(Sent1(Sent1(Sent1(sent, r0, x0), r1, x1), r2, x2), r3, x3);
      PutPair(r0, r1, x0, x1);
      PutPair(r2, r3, x2, x3);
    }

    /** One operation of a run. */
    method Do(op: Op<R>)
      requires Valid() && InRange(op, |sent|) && Total(sent) + |Refs(op)| <= MAX_VECTOR
      modifies this`x, this`n, this`lens, this`isPending, this`pending, this`pools, this`sent, refs
      ensures Valid() && |sent| == |old(sent)| && Total(sent) == old(Total(sent)) + |Refs(op)|
      ensures forall j :: 0 <= j < |sent| ==> sent[j] == old(sent)[j] + For(Refs(op), j)
      ensures old(pending) <= pending
    {
      ghost var was := sent;
      TotalBy(sent, op);
      match op {
        case One(r, x0) => Put1(r, x0);
        case Two(r0, r1, x0, x1) => Put2(r0, r1, x0, x1);
        case Four(r0, r1, r2, r3, x0, x1, x2, x3) => Put4(r0, r1, r2, r3, x0, x1, x2, x3);
      }
      assert sent == SentBy(was, op);
      forall j | 0 <= j < |was| ensures sent[j] == was[j] + For(Refs(op), j) {
        SentFew(was, op, j);
      }
    }

    method Run(ops: seq<Op<R>>)
      requires Valid() && (forall op :: op in ops ==> InRange(op, |sent|))
      requires Total(sent) + |AllRefs(ops)| <= MAX_VECTOR
      modifies this`x, this`n, this`lens, this`isPending, this`pending, this`pools, this`sent, refs
      ensures Valid() && |sent| == |old(sent)|
      ensures forall j :: 0 <= j < |sent| ==> sent[j] == old(sent)[j] + For(AllRefs(ops), j)
      ensures old(pending) <= pending
    {
      hide Valid, For, AllRefs, Refs, Total;
      NoneFor(ops[..0]);
      for k := 0 to |ops|
        invariant Valid() && |sent| == |old(sent)| && old(pending) <= pending
        invariant forall j :: 0 <= j < |sent| ==> sent[j] == old(sent)[j] + For(AllRefs(ops[..k]), j)
        invariant Total(sent) == old(Total(sent)) + |AllRefs(ops[..k])|
      {
        AllRefsStep(ops, k);
        AllRefsPart(ops, k + 1);
        ghost var was := sent;
        Do(ops[k]);
        forall j | 0 <= j < |sent| ensures sent[j] == old(sent)[j] + For(AllRefs(ops[..k + 1]), j) {
          ForBoth(AllRefs(ops[..k]), Refs(ops[k]), j);
          assert sent[j] == was[j] + For(Refs(ops[k]), j);
        }
      }
      assert ops[..|ops|] == ops;
    }
  }

  lemma TotalBy<R>(sent: seq<seq<R>>, op: Op<R>)
    requires InRange(op, |sent|)
    ensures |SentBy(sent, op)| == |sent| && Total(SentBy(sent, op)) == Total(sent) + |Refs(op)|
  {
    match op
    case One(r, x) => TotalSent(sent, r, x);
    case Two(r0, r1, x0, x1) =>
      TotalSent(sent, r0, x0);
      TotalSent(Sent1(sent, r0, x0), r1, x1);
    case Four(r0, r1, r2, r3, x0, x1, x2, x3) =>
      TotalSent(sent, r0, x0);
      TotalSent(Sent1(sent, r0, x0), r1, x1);
      TotalSent(Sent1(Sent1(sent, r0, x0), r1, x1), r2, x2);
      TotalSent(Sent1(Sent1(Sent1(sent, r0, x0), r1, x1), r2, x2), r3, x3);
  }

  predicate InRange<R>(op: Op<R>, outs: nat) {
    match op
    case One(_, x) => x < outs
    case Two(_, _, x0, x1) => x0 < outs && x1 < outs
    case Four(_, _, _, _, x0, x1, x2, x3) => x0 < outs && x1 < outs && x2 < outs && x3 < outs
  }

  function SentBy<R>(sent: seq<seq<R>>, op: Op<R>): seq<seq<R>>
    requires InRange(op, |sent|)
  {
    match op
    case One(r, x) => Sent1(sent, r, x)
    case Two(r0, r1, x0, x1) => Sent1(Sent1(sent, r0, x0), r1, x1)
    case Four(r0, r1, r2, r3, x0, x1, x2, x3) => Sent1(Sent1(Sent1(Sent1(sent, r0, x0), r1, x1), r2, x2), r3, x3)
  }

  lemma SentOne<R>(sent: seq<seq<R>>, r: R, x: nat, j: nat)
    requires x < |sent| && j < |sent|
    ensures |Sent1(sent, r, x)| == |sent| && Sent1(sent, r, x)[j] == sent[j] + For([(r, x)], j)
  {
    assert [(r, x)][..0] == [];
  }

  /** The change to one output by one, two and four puts. */
  lemma SentFew<R>(sent: seq<seq<R>>, op: Op<R>, j: nat)
    requires j < |sent| && InRange(op, |sent|)
    ensures |SentBy(sent, op)| == |sent| && SentBy(sent, op)[j] == sent[j] + For(Refs(op), j)
  {
    hide For, Sent1;
    match op
    case One(r, x) => SentOne(sent, r, x, j);
    case Two(r0, r1, x0, x1) => SentTwo(sent, r0, r1, x0, x1, j);
    case Four(r0, r1, r2, r3, x0, x1, x2, x3) =>
      SentTwo(sent, r0, r1, x0, x1, j);
      SentTwo(Sent1(Sent1(sent, r0, x0), r1, x1), r2, r3, x2, x3, j);
      assert Refs(op) == [(r0, x0), (r1, x1)] + [(r2, x2), (r3, x3)];
      ForBoth([(r0, x0), (r1, x1)], [(r2, x2), (r3, x3)], j);
  }

  lemma SentTwo<R>(sent: seq<seq<R>>, r0: R, r1: R, x0: nat, x1: nat, j: nat)
    requires j < |sent| && x0 < |sent| && x1 < |sent|
    ensures |Sent1(sent, r0, x0)| == |Sent1(Sent1(sent, r0, x0), r1, x1)| == |sent|
    ensures Sent1(Sent1(sent, r0, x0), r1, x1)[j] == sent[j] + For([(r0, x0), (r1, x1)], j)
  {
    hide For, Sent1;
    SentOne(sent, r0, x0, j);
    SentOne(Sent1(sent, r0, x0), r1, x1, j);
    assert [(r0, x0), (r1, x1)] == [(r0, x0)] + [(r1, x1)];
    ForBoth([(r0, x0)], [(r1, x1)], j);
  }

  lemma {:induction false} NoneSent<R>(sent: seq<seq<R>>)
    requires forall j :: 0 <= j < |sent| ==> sent[j] == []
    ensures Total(sent) == 0
  {
    if |sent| > 0 { NoneSent(sent[1..]); }
  }

  lemma SentFour<R>(sent: seq<seq<R>>, r0: R, r1: R, r2: R, r3: R, x: nat)
    requires x < |sent|
    ensures var s2 := Sent1(Sent1(sent, r0, x), r1, x);
      |s2| == |sent| && sent[x := sent[x] + [r0, r1, r2, r3]] == Sent1(Sent1(s2, r2, x), r3, x)
  {
    assert sent[x] + [r0, r1, r2, r3] == sent[x] + [r0] + [r1] + [r2] + [r3];
  }

  lemma TotalSent<R>(sent: seq<seq<R>>, r: R, x: nat)
    requires x < |sent|
    ensures |Sent1(sent, r, x)| == |sent| && Total(Sent1(sent, r, x)) == Total(sent) + 1
  {
    TotalSet(sent, x, sent[x] + [r]);
  }

  // ---- Whole runs ----

  datatype Op<R> =
    | One(r: R, x: nat)
    | Two(r0: R, r1: R, x0: nat, x1: nat)
    | Four(r0: R, r1: R, r2: R, r3: R, x0: nat, x1: nat, x2: nat, x3: nat)

  /** The refs of an operation with their outputs, in order. */
  function Refs<R>(op: Op<R>): seq<(R, nat)> {
    match op
    case One(r, x) => [(r, x)]
    case Two(r0, r1, x0, x1) => [(r0, x0), (r1, x1)]
    case Four(r0, r1, r2, r3, x0, x1, x2, x3) => [(r0, x0), (r1, x1), (r2, x2), (r3, x3)]
  }

  function AllRefs<R>(ops: seq<Op<R>>): seq<(R, nat)> {
    if |ops| == 0 then [] else AllRefs(ops[..|ops| - 1]) + Refs(ops[|ops| - 1])
  }

  /** The refs meant for one output. */
  function For<R>(rs: seq<(R, nat)>, j: nat): seq<R> {
    if |rs| == 0 then []
    else For(rs[..|rs| - 1], j) + if rs[|rs| - 1].1 == j then [rs[|rs| - 1].0] else []
  }

  /** After any list of puts of at most 256 refs in all, and a sync, each output holds exactly the refs sent to it,
    * in order; its length reads back right even when it is 256; it is pending once, exactly when it has any; and
    * it has the input's buffer pool. */
  method Enqueued<R(0)>(outs: nat, cached: nat, pool: nat, ops: seq<Op<R>>) returns (q: Enqueue<R>)
    requires cached < outs && |AllRefs(ops)| <= MAX_VECTOR
    requires forall op :: op in ops ==> InRange(op, outs)
    ensures q.Valid() && |q.lens| == outs
    ensures forall j :: 0 <= j < outs ==> q.GetLen(j) == |For(AllRefs(ops), j)|
    ensures forall j, i :: 0 <= j < outs && 0 <= i < q.GetLen(j) && i < MAX_VECTOR ==>
      q.refs[j, i] == For(AllRefs(ops), j)[i]
    ensures forall j: nat :: j in q.pending <==> j < outs && For(AllRefs(ops), j) != []
    ensures forall j :: 0 <= j < outs && For(AllRefs(ops), j) != [] ==> q.pools[j] == pool
  {
    hide For, AllRefs, Total;
    q := new Enqueue(outs, cached, pool);
    NoneSent(q.sent);
    q.Run(ops);
    q.Sync();
  }

  lemma NoneFor<R>(none: seq<Op<R>>)
    requires |none| == 0
    ensures AllRefs(none) == [] && forall j: nat :: For(AllRefs(none), j) == []
  {
  }

  lemma AllRefsStep<R>(ops: seq<Op<R>>, k: nat)
    requires k < |ops|
    ensures AllRefs(ops[..k + 1]) == AllRefs(ops[..k]) + Refs(ops[k])
  {
    assert ops[..k + 1][..k] == ops[..k];
  }

  lemma {:induction false} AllRefsPart<R>(ops: seq<Op<R>>, k: nat)
    requires k <= |ops|
    ensures AllRefs(ops[..k]) <= AllRefs(ops)
    decreases |ops| - k
  {
    if k == |ops| {
      assert ops[..k] == ops;
    } else {
      AllRefsStep(ops, k);
      AllRefsPart(ops, k + 1);
    }
  }

  lemma {:induction false} ForBoth<R>(a: seq<(R, nat)>, b: seq<(R, nat)>, j: nat)
    ensures For(a + b, j) == For(a, j) + For(b, j)
  {
    if |b| == 0 {
      assert a + b == a;
    } else {
      assert (a + b)[..|a + b| - 1] == a + b[..|b| - 1];
      ForBoth(a, b[..|b| - 1], j);
    }
  }
}

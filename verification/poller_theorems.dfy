/** What the invariants of the poller protocol mean for its users. */
module PollerTheorems {
  import opened Basics
  import opened PollerProtocol
  import opened PollerSafety

  lemma {:induction false} SumBits(x: seq<NodeWord>)
    ensures Sum(NeedBit, x) >= 0
    ensures Sum(NeedBit, x) == 0 <==> forall n :: 0 <= n < |x| ==> !Needs(x[n])
  {
    if |x| > 0 {
      SumBits(x[1..]);
      assert forall n :: 0 < n < |x| ==> x[n] == x[1..][n - 1];
      assert forall n :: 0 <= n < |x| - 1 ==> x[1..][n] == x[n + 1];
    }
  }

  lemma {:induction false} SumBounded(x: seq<Worker>)
    requires forall t :: 0 <= t < |x| ==> Owed(x[t]) <= 0
    ensures Sum(Owed, x) <= 0
  {
    if |x| > 0 { SumBounded(x[1..]); }
  }

  predicate CountingUp(w: Worker) {
    (w.Counting? || w.Counted?) && w.up
  }

  /** While the loop sleeps and a node needs polling, an interrupt is queued, about to be queued, or some
    * worker still owes the increment that will raise one. */
  lemma NoLostWakeup(s: State, n: nat)
    requires Inv(s) && s.loop.Sleeping? && n < |s.nodes| && Needs(s.nodes[n])
    ensures s.events > 0
      || exists t :: 0 <= t < |s.threads| && (s.threads[t].Waking? || CountingUp(s.threads[t]))
  {
    hide Shape, Words, Owners, Sum;
    SumBits(s.nodes);
    if !SomeoneWakes(s) && forall t :: 0 <= t < |s.threads| ==> !CountingUp(s.threads[t]) {
      SumBounded(s.threads);
    }
  }

  /** The increment that a sleeping loop waits for does raise the interrupt. */
  lemma IncrementWakes(s: State, t: nat)
    requires Inv(s) && !s.crashed && s.loop.Sleeping? && s.events == 0 && t < |s.threads|
    requires forall u :: 0 <= u < |s.threads| ==> !s.threads[u].Waking?
    requires s.threads[t].Counted? && s.threads[t].up && s.threads[t].was == s.word && |s.nodes| > 0
    ensures Next(Next(s, Work(t)), Work(t)).events > 0
  {
    hide Words, Counts, Owners;
    ShapeKept(s, Work(t));
    assert s.word.wait;
    assert Next(s, Work(t)).threads[t].Waking?;
  }

  /** nActive is the number of nodes to poll less the increments owed plus the decrements owed, plus every
    * decrement that found zero. */
  lemma ActiveCount(s: State)
    requires Inv(s)
    ensures var net := Sum(Owed, s.threads) + LoopOwed(s.loop);
      && s.word.nActive >= Sum(NeedBit, s.nodes) - net
      && (s.word.nActive == Sum(NeedBit, s.nodes) - net <==> s.clamps == 0)
  {
  }

  /** k steps of the loop thread, with nobody in between. */
  ghost function LoopFor(s: State, pick: Pick, k: nat): (r: State)
    requires Shape(s)
    ensures Shape(r)
  {
    if k == 0 then s else
    var r := LoopFor(s, pick, k - 1);
    ShapeKept(r, Loop(pick));
    Next(r, Loop(pick))
  }

  const TRY := Pick(true, true, 0)

  lemma SleepSteps(s: State)
    requires Shape(s) && Waits(s) && !s.crashed && s.loop.Events?
    ensures LoopFor(s, TRY, 1).loop == if s.word.nActive == 0 then WaitLoaded(s.word) else NoWait
    ensures LoopFor(s, TRY, 2) == if s.word.nActive == 0 then s.(loop := Sleeping, word := LoopWord(0, true))
      else s.(loop := Pollers, events := if s.events > 0 then s.events - 1 else 0)
  {
    assert LoopFor(s, TRY, 1) == Next(LoopFor(s, TRY, 0), Loop(TRY));
  }

  /** With no count in flight, an attempt to wait puts the loop to sleep exactly when no node needs polling and no
    * decrement ever found zero; else it goes on to poll. */
  lemma SleepsIff(s: State)
    requires Inv(s) && !s.crashed && s.loop.Events? && forall t :: 0 <= t < |s.threads| ==> Owed(s.threads[t]) == 0
    ensures var idle := (forall n :: 0 <= n < |s.nodes| ==> !Needs(s.nodes[n])) && s.clamps == 0;
      var s' := LoopFor(s, TRY, 2);
      if idle then s'.loop == Sleeping && s'.word == LoopWord(0, true) else s'.loop == Pollers && s'.word == s.word
  {
    SumZero(Owed, s.threads);
    SumBits(s.nodes);
    SleepSteps(s);
    hide Shape, Words, Owners, Polls, Served, Sum, Needs, LoopFor;
  }

  /** An event ends the sleep: it is consumed, the wait bit is cleared, and the loop polls. */
  lemma WakesUp(s: State)
    requires Inv(s) && !s.crashed && s.loop.Sleeping? && s.events > 0
    ensures LoopFor(s, TRY, if s.word.wait then 3 else 2)
      == s.(loop := Pollers, events := s.events - 1, word := s.word.(wait := false))
  {
    hide Words, Counts, Owners, Polls, Served, LoopFor, LoopInPool, Next;
    var s1 := s.(loop := Clearing, events := s.events - 1);
    assert Shape(s1) && Next(s, Loop(TRY)) == s1 by { WakeStep(s); }
    ClearSteps(s1);
    LoopNext(s, TRY, 0);
    LoopSum(s, TRY, 1, if s.word.wait then 2 else 1);
    LoopNone(s, TRY);
  }

  lemma WakeStep(s: State)
    requires Shape(s) && !s.crashed && s.loop.Sleeping? && s.events > 0
    ensures var s1 := s.(loop := Clearing, events := s.events - 1); Shape(s1) && Next(s, Loop(TRY)) == s1
  {
    hide LoopScan, LoopCollect;
  }

  lemma LoopNext(s: State, pick: Pick, k: nat)
    requires Shape(s)
    ensures LoopFor(s, pick, k + 1) == Next(LoopFor(s, pick, k), Loop(pick))
  {
    hide Shape, Next;
  }

  lemma LoopNone(s: State, pick: Pick)
    requires Shape(s)
    ensures LoopFor(s, pick, 0) == s
  {
  }

  lemma ClearSteps(s: State)
    requires Shape(s) && !s.crashed && s.loop.Clearing?
    ensures if s.word.wait then LoopFor(s, TRY, 2) == s.(loop := Pollers, word := s.word.(wait := false))
      else LoopFor(s, TRY, 1) == s.(loop := Pollers)
  {
    hide LoopScan, LoopCollect, LoopFor;
    LoopNext(s, TRY, 0);
    LoopNext(s, TRY, 1);
    LoopNone(s, TRY);
  }

  /** A round signals exactly the nodes with a poller that need polling, and waits for exactly those. */
  lemma SignalsNeedy(s: State, pick: Pick)
    requires Inv(s) && !s.crashed && s.loop.Scanning? && SlotUsed(s, s.loop.slot)
    ensures var n := s.pool[s.loop.slot]; var s' := Next(s, Loop(pick));
      s' == s.(isPolling := s.isPolling[n := Needs(s.nodes[n])], signals := s.signals[n := Needs(s.nodes[n])],
               loop := Scanning(s.loop.slot + 1))
  {
    NeverBlocks(s, s.pool[s.loop.slot]);
    var n := s.pool[s.loop.slot];
    hide Words, Waits, Counts, Owners, Polls, Served, Needs;
    assert s.signals[n := false] == s.signals;
  }

  /** The loop takes the answer of node n in slot i and looks at the word once. */
  lemma TakesAnswer(s: State, pick: Pick)
    requires Shape(s) && !s.crashed && s.loop.Collecting? && SlotUsed(s, s.loop.slot)
    requires s.isPolling[s.pool[s.loop.slot]] && s.answers[s.pool[s.loop.slot]].Some?
    requires s.nodes[s.pool[s.loop.slot]].mode != Resumed
    ensures var i := s.loop.slot; var done := s.answers[s.pool[i]].value;
      LoopFor(s, pick, 2)
        == s.(answers := s.answers[s.pool[i] := None], loop := if done then FreeLoading(i) else Collecting(i + 1))
  {
    assert LoopFor(s, pick, 1) == Next(LoopFor(s, pick, 0), Loop(pick));
  }

  /** A node whose poll is over loses its poller and becomes inactive exactly if both its counts are zero. */
  lemma FreesIdle(s: State, pick: Pick)
    requires Inv(s) && !s.crashed && s.loop.Collecting? && SlotUsed(s, s.loop.slot)
    requires s.isPolling[s.pool[s.loop.slot]] && s.answers[s.pool[s.loop.slot]] == Some(true)
    requires s.nodes[s.pool[s.loop.slot]].mode == Active
    ensures var i := s.loop.slot; var n := s.pool[i];
      if s.nodes[n].active == 0 && s.nodes[n].suspend == 0 then
        var s' := LoopFor(s, pick, 5);
        (s'.nodes == s.nodes[n := NodeWord(0, 0, Inactive)] && s'.pool == s.pool[i := -1]
         && s'.pollerIndex == s.pollerIndex[n := -1] && s'.loop == Collecting(i + 1))
      else LoopFor(s, pick, 3) == s.(answers := s.answers[n := None], loop := Collecting(i + 1))
  {
    hide Words, Waits, Counts, Owners, Polls, Served, LoopFor, LoopInPool, Next;
    assert PoolOk(s) by { InvPool(s); }
    TakesAnswer(s, pick);
    FreeSteps(LoopFor(s, pick, 2), pick);
    LoopSum(s, pick, 2, 1);
    LoopSum(s, pick, 2, 3);
  }

  lemma InvPool(s: State)
    requires Inv(s)
    ensures PoolOk(s)
  {
  }

  lemma FreeSteps(s: State, pick: Pick)
    requires Shape(s) && !s.crashed && s.loop.FreeLoading? && s.pollerIndex[s.pool[s.loop.slot]] == s.loop.slot
    requires s.nodes[s.pool[s.loop.slot]].mode == Active
    ensures var i := s.loop.slot; var n := s.pool[i];
      if s.nodes[n].active == 0 && s.nodes[n].suspend == 0 then
        var s' := LoopFor(s, pick, 3);
        (s'.nodes == s.nodes[n := NodeWord(0, 0, Inactive)] && s'.pool == s.pool[i := -1]
         && s'.pollerIndex == s.pollerIndex[n := -1] && s'.loop == Collecting(i + 1))
      else LoopFor(s, pick, 1) == s.(loop := Collecting(i + 1))
  {
    hide Needs, ChangeActive, AfterResume, LoopEvents, LoopScan;
    assert LoopFor(s, pick, 1) == Next(LoopFor(s, pick, 0), Loop(pick));
    assert LoopFor(s, pick, 2) == Next(LoopFor(s, pick, 1), Loop(pick));
  }

  lemma {:induction false} LoopSum(s: State, pick: Pick, a: nat, b: nat)
    requires Shape(s)
    ensures LoopFor(s, pick, a + b) == LoopFor(LoopFor(s, pick, a), pick, b)
  {
    hide Shape, Next;
    if b > 0 { LoopSum(s, pick, a, b - 1); }
  }

  predicate CountingDown(w: Worker) {
    (w.Counting? || w.Counted?) && !w.up
  }

  /** No decrement is owed, and none ever found zero. */
  ghost predicate Calm(s: State) {
    && s.clamps == 0 && LoopOwed(s.loop) == 0
    && forall t :: 0 <= t < |s.threads| ==> !CountingDown(s.threads[t])
  }

  lemma {:induction false} SumSome(x: seq<Worker>, t: nat)
    requires t < |x| && CountingUp(x[t]) && forall u :: 0 <= u < |x| ==> !CountingDown(x[u])
    ensures Sum(Owed, x) >= 1
  {
    if t > 0 {
      SumSome(x[1..], t - 1);
    } else {
      SumNotNegative(x[1..]);
    }
  }

  lemma {:induction false} SumNotNegative(x: seq<Worker>)
    requires forall u :: 0 <= u < |x| ==> !CountingDown(x[u])
    ensures Sum(Owed, x) >= 0
  {
    if |x| > 0 { SumNotNegative(x[1..]); }
  }

  lemma {:induction false} SumAtMost(x: seq<NodeWord>)
    ensures Sum(NeedBit, x) <= |x|
  {
    if |x| > 0 { SumAtMost(x[1..]); }
  }

  /** There is room for an increment that reads the loop word while no decrement is owed. */
  lemma CalmHasRoom(s: State, t: nat)
    requires Inv(s) && Calm(s) && t < |s.threads| && CountingUp(s.threads[t])
    ensures s.word.nActive + 1 <= |s.nodes|
  {
    hide Shape, Words, Waits, Owners, Polls, Served, Sum, Needs;
    SumSome(s.threads, t);
    SumAtMost(s.nodes);
  }

  /** Every increment about to swap has room for it. */
  ghost predicate Roomy(s: State) {
    forall t :: 0 <= t < |s.threads| && s.threads[t].Counted? && s.threads[t].up ==>
      s.threads[t].was.nActive + 1 <= |s.nodes|
  }

  predicate ReadsUp(s: State, a: Action) {
    a.Work? && a.t < |s.threads| && s.threads[a.t].Counting? && s.threads[a.t].up
  }

  lemma RoomyKept(s: State, a: Action)
    requires Inv(s) && Roomy(s) && (ReadsUp(s, a) ==> Calm(s))
    ensures Roomy(Next(s, a))
  {
    if ReadsUp(s, a) { CalmHasRoom(s, a.t); }
    RoomyStep(s, a);
  }

  lemma ThreadsOf(s: State, a: Action)
    requires Shape(s)
    ensures var s' := Next(s, a);
      && |s'.nodes| == |s.nodes|
      && forall t :: 0 <= t < |s'.threads| && s'.threads[t].Counted? ==>
           (t < |s.threads| && (s'.threads[t] == s.threads[t]
            || (a == Work(t) && s.threads[t].Counting? && s.threads[t].up == s'.threads[t].up
                && s'.threads[t].was == s.word)))
  {
    hide Needs, AddActivity, ChangeActive, LoopInPool;
    match a {
      case Work(t) => if t < |s.threads| { ThreadsWork(s, t); } hide Work1;
      case Loop(pick) => ThreadsLoop(s, pick); hide Loop1;
      case _ =>
    }
  }

  lemma ThreadsLoop(s: State, pick: Pick)
    requires Shape(s)
    ensures var s' := Loop1(s, pick); s'.threads == s.threads && |s'.nodes| == |s.nodes|
  {
    hide Needs, ChangeActive, LoopScan, AfterResume;
    if s.loop.Pollers? || s.loop.Allocating? || s.loop.Scanning? || s.loop.Collecting? {
      ScanFrame(s, pick);
    }
  }

  lemma ThreadsWork(s: State, t: nat)
    requires Shape(s) && t < |s.threads|
    ensures var s' := Work1(s, t);
      (|s'.nodes| == |s.nodes| && |s'.threads| == |s.threads|
       && (forall u :: 0 <= u < |s.threads| && u != t ==> s'.threads[u] == s.threads[u])
       && (s'.threads[t].Counted? ==>
             (s'.threads[t] == s.threads[t]
              || (s.threads[t].Counting? && s.threads[t].up == s'.threads[t].up && s'.threads[t].was == s.word))))
  {
    hide Shape, AddActivity, Needs, ChangeActive, TrySwap, TryCount, Enqueue, AwaitLoop, Answer;
    WorkFrame(s, t);
    var w := s.threads[t];
    if w.Idle? || w.Parked? { ThreadsAwait(s, t); }
    if w.Parking? { ThreadsAnswer(s, t); }
    if w.Queueing? { ThreadsEnqueue(s, t); }
    if w.Loaded? { ThreadsSwap(s, t); }
    if w.Counted? { ThreadsCount(s, t); }
  }

  lemma ThreadsAwait(s: State, t: nat)
    requires Shape(s) && t < |s.threads| && (s.threads[t].Idle? || s.threads[t].Parked?)
    ensures |AwaitLoop(s, t).nodes| == |s.nodes| && |AwaitLoop(s, t).threads| == |s.threads|
    ensures !AwaitLoop(s, t).threads[t].Counted?
  {
    hide LoopInPool;
  }

  lemma ThreadsAnswer(s: State, t: nat)
    requires Shape(s) && t < |s.threads| && s.threads[t].Parking?
    ensures var n := s.threads[t].node;
      var s' := Answer(s, t, n, false, Parked(n, s.threads[t].change), s.working[n]);
      |s'.nodes| == |s.nodes| && |s'.threads| == |s.threads| && !s'.threads[t].Counted?
  {
    hide LoopInPool;
  }

  lemma ThreadsEnqueue(s: State, t: nat)
    requires Shape(s) && t < |s.threads| && s.threads[t].Queueing?
    ensures var s' := Enqueue(s, t, s.threads[t].node);
      |s'.nodes| == |s.nodes| && |s'.threads| == |s.threads| && !s'.threads[t].Counted?
  {
    hide LoopInPool;
  }

  lemma ThreadsSwap(s: State, t: nat)
    requires Shape(s) && t < |s.threads| && s.threads[t].Loaded?
    ensures var s' := TrySwap(s, t);
      |s'.nodes| == |s.nodes| && |s'.threads| == |s.threads| && !s'.threads[t].Counted?
  {
    hide LoopInPool, AddActivity, Needs, RestOf;
  }

  lemma ThreadsCount(s: State, t: nat)
    requires Shape(s) && t < |s.threads| && s.threads[t].Counted?
    ensures var s' := TryCount(s, t);
      (|s'.nodes| == |s.nodes| && |s'.threads| == |s.threads|
       && (s'.threads[t].Counted? ==> s'.threads[t] == s.threads[t]))
  {
    hide LoopInPool, ChangeActive;
  }

  lemma RoomyStep(s: State, a: Action)
    requires Shape(s) && Roomy(s) && (ReadsUp(s, a) ==> s.word.nActive + 1 <= |s.nodes|)
    ensures Roomy(Next(s, a))
  {
    ThreadsOf(s, a);
    hide Shape, Next;
  }

  /** Over any run in which every increment reads the loop word while no decrement is owed, "too many active pollers"
    * is never reached: only a decrement in flight, or one that found zero, can let it happen. */
  lemma NeverTooMany(lim: Limits, nodes: nat, workers: nat, run: seq<State>, acts: seq<Action>,
                                        k: nat)
    requires 0 <= lim.suspend < COUNT_LIMIT
    requires Run(run, acts) && run[0] == Init(lim, nodes, workers) && k < |run|
    requires forall i :: 0 <= i < |acts| && ReadsUp(run[i], acts[i]) ==> Calm(run[i])
    ensures forall t :: 0 <= t < |run[k].threads| && run[k].threads[t].Counted? ==>
      ChangeActive(run[k].threads[t].was, run[k].threads[t].up, |run[k].nodes|).Some?
  {
    NeverCrowded(lim, nodes, workers, run, acts, k);
  }

  lemma {:induction false} NeverCrowded(lim: Limits, nodes: nat, workers: nat, run: seq<State>, acts: seq<Action>,
                                        k: nat)
    requires 0 <= lim.suspend < COUNT_LIMIT
    requires Run(run, acts) && run[0] == Init(lim, nodes, workers) && k < |run|
    requires forall i :: 0 <= i < |acts| && ReadsUp(run[i], acts[i]) ==> Calm(run[i])
    ensures Roomy(run[k])
  {
    hide Inv, Shape, Next, Calm, ReadsUp;
    if k > 0 {
      NeverCrowded(lim, nodes, workers, run, acts, k - 1);
      RunInv(lim, nodes, workers, run, acts, k - 1);
      RoomyKept(run[k - 1], acts[k - 1]);
    }
  }

  lemma NoFault(s: State)
    requires Inv(s)
    ensures !s.fault
  {
  }

  /** `allocActivePoller` never finds the node already allocated, and no vector names a node twice. */
  lemma NeverAlreadyAllocated(s: State)
    requires Inv(s)
    ensures !s.fault
    ensures s.loop.Allocating? && s.loop.k < s.loop.len ==>
      s.pollerIndex[s.activePending[s.loop.vec][s.loop.k]] == -1
    ensures var q := s.activePending[s.sequence % 2];
      forall i, j :: 0 <= i < j < |q| ==> q[i] != q[j]
    ensures forall i, j :: 0 <= i < j < |s.pool| && s.pool[i] >= 0 ==> s.pool[i] != s.pool[j]
  {
    hide Words, Waits, Counts, ModesOk;
    var q := s.activePending[s.sequence % 2];
    forall i, j | 0 <= i < j < |q| ensures q[i] != q[j] {
      assert s.owner[q[i]] == Queued(i) && s.owner[q[j]] == Queued(j);
    }
    NoFault(s);
  }

  /** Where a node's request or poller is, without the history that records it. */
  ghost predicate AtWorker(s: State, n: nat) {
    exists t :: 0 <= t < |s.threads| && Requesting(s.threads[t]) && s.threads[t].node == n
  }

  ghost predicate InBatch(s: State, n: nat)
    requires Shape(s)
  {
    s.loop.Allocating? && n in s.activePending[s.loop.vec][s.loop.k..s.loop.len]
  }

  ghost predicate HasPoller(s: State, n: nat)
    requires Shape(s) && n < |s.nodes|
  {
    s.pollerIndex[n] >= 0 && !(s.loop.Releasing? && s.pool[s.loop.slot] == n)
  }

  function Bit(b: bool): nat { if b then 1 else 0 }

  lemma PlaceOf(s: State, n: nat)
    requires Inv(s) && n < |s.nodes|
    ensures AtWorker(s, n) <==> s.owner[n].Held?
    ensures n in s.activePending[s.sequence % 2] <==> s.owner[n].Queued?
    ensures InBatch(s, n) <==> s.owner[n].Taken?
    ensures HasPoller(s, n) <==> s.owner[n].Pooled?
  {
    hide Words, Waits, Counts, ModesOk;
    if s.owner[n].Queued? {
      assert s.activePending[s.sequence % 2][s.owner[n].pos] == n;
    }
    if s.owner[n].Taken? {
      var p := s.owner[n].pos;
      assert s.activePending[s.loop.vec][s.loop.k..s.loop.len][p - s.loop.k] == n;
    }
  }

  /** A node that is not inactive is with one worker, or queued, or being handed out, or has its poller:
    * exactly one of these; an inactive node is in none. */
  lemma OnePlace(s: State, n: nat)
    requires Inv(s) && n < |s.nodes|
    ensures Bit(AtWorker(s, n)) + Bit(n in s.activePending[s.sequence % 2]) + Bit(InBatch(s, n))
      + Bit(HasPoller(s, n)) == Bit(s.nodes[n].mode != Inactive)
  {
    PlaceOf(s, n);
    assert ModesOk(s);
    hide Shape, Words, Waits, Counts, Owners, Polls, Served, AtWorker, InBatch, HasPoller;
  }

  // ---- What the calls do ----

  /** The suspend count after a call: an addition that would go over the limit is taken back. */
  function KeptCount(lim: Limits, s: int, c: int): int {
    if s + c > lim.suspend then s else s + c
  }

  lemma WrapSum(a: int, d: int)
    requires 0 <= a < COUNT_LIMIT && -COUNT_LIMIT <= d < COUNT_LIMIT
    ensures Wrap32(a + d) == if a + d < COUNT_LIMIT then a + d else a + d - 2 * COUNT_LIMIT
  {
  }

  /** `AddDataActivity`: the active count changes by i, whatever i is; only an inactive node that gets activity changes
    * its state, and asks for a poller. */
  lemma DataAdds(lim: Limits, i: int, da: int, w: NodeWord)
    requires WordOk(lim, w) && lim.suspend < COUNT_LIMIT && -COUNT_LIMIT <= i < COUNT_LIMIT
    ensures AddActivity(lim, Data(i), da, w).Panic? <==> !(0 <= w.active + i < COUNT_LIMIT)
    ensures 0 <= w.active + i < COUNT_LIMIT ==>
      (var starts := w.mode == Inactive && w.active + i > 0;
       AddActivity(lim, Data(i), da, w)
         == Update(NodeWord(w.active + i, w.suspend, if starts then Active else w.mode), starts, i, false, false))
  {
    hide Wrap32;
    WrapSum(w.active, i);
    WrapSum(w.suspend, 0);
  }

  /** `Activate`: one more if the node had no activity and should, one less if it had some and should not. */
  lemma ActivateFlips(lim: Limits, on: bool, w: NodeWord)
    requires WordOk(lim, w) && lim.suspend < COUNT_LIMIT
    ensures w.active < COUNT_LIMIT - 1 ==> AddActivity(lim, Activate(on), 0, w).Update?
    ensures AddActivity(lim, Activate(on), 0, w).Update? ==>
      (var o := AddActivity(lim, Activate(on), 0, w).word;
       o.active == (if on then (if w.active > 0 then w.active else 1) else if w.active > 0 then w.active - 1 else 0)
       && o.suspend == w.suspend && (o.mode == if w.mode == Inactive && on then Active else w.mode))
  {
    hide Wrap32;
    WrapSum(w.active, 0);
    WrapSum(w.active, 1);
    WrapSum(w.active, -1);
    WrapSum(w.suspend, 0);
  }

  /** An active or resumed node takes more packets up to the suspend limit; a call that would go over it suspends the
    * node and leaves the count as it was. */
  lemma SuspendsOver(lim: Limits, c: int, da: int, w: NodeWord)
    requires WordOk(lim, w) && lim.suspend < COUNT_LIMIT && w.mode in {Active, Resumed}
    requires -COUNT_LIMIT <= c < COUNT_LIMIT
    ensures AddActivity(lim, Suspend(c), da, w).Panic? <==> !(0 <= w.suspend + c < COUNT_LIMIT)
    ensures 0 <= w.suspend + c < COUNT_LIMIT ==>
      (var over := w.suspend + c > lim.suspend;
       AddActivity(lim, Suspend(c), da, w)
         == Update(NodeWord(w.active, if over then w.suspend else w.suspend + c, if over then Suspended else w.mode),
                   false, 0, over, false))
  {
    hide Wrap32;
    WrapBack(w.suspend, c);
    WrapSum(w.active, 0);
    WrapSum(w.suspend, c);
  }

  /** An inactive node becomes active and asks for a poller if the count stays within the suspend limit, and else is
    * suspended without one; no call comes to that (`NeverStranded`). */
  lemma SuspendsInactive(lim: Limits, c: int, da: int, w: NodeWord)
    requires WordOk(lim, w) && lim.suspend < COUNT_LIMIT && w.mode == Inactive && 0 <= c < COUNT_LIMIT
    ensures AddActivity(lim, Suspend(c), da, w)
      == if c <= lim.suspend then Update(NodeWord(0, c, Active), true, 0, false, false)
         else Update(NodeWord(0, 0, Suspended), false, 0, true, false)
  {
    hide Wrap32;
    WrapBack(0, c);
    WrapSum(0, 0);
    WrapSum(0, c);
  }

  /** A suspended node is resumed as soon as its count is at or below the resume limit, by however much. */
  lemma ResumesBelow(lim: Limits, c: int, da: int, w: NodeWord)
    requires WordOk(lim, w) && lim.suspend < COUNT_LIMIT && w.mode == Suspended
    requires -COUNT_LIMIT <= c < COUNT_LIMIT
    ensures AddActivity(lim, Suspend(c), da, w).Panic? <==> !(0 <= w.suspend + c < COUNT_LIMIT)
    ensures 0 <= w.suspend + c < COUNT_LIMIT ==>
      (var kept := KeptCount(lim, w.suspend, c);
       AddActivity(lim, Suspend(c), da, w)
         == Update(NodeWord(w.active, kept, if kept <= lim.resume then Resumed else Suspended), false, 0, false,
                   kept <= lim.resume))
    ensures c <= 0 && 0 <= w.suspend + c ==> KeptCount(lim, w.suspend, c) == w.suspend + c
  {
    hide Wrap32;
    WrapBack(w.suspend, c);
    WrapSum(w.active, 0);
    WrapSum(w.suspend, c);
  }

  /** A call that brings a suspended node's count to the resume limit or below makes it need polling, and its thread
    * goes on to count the node. */
  lemma ResumeCounts(s: State, t: nat)
    requires Inv(s) && !s.crashed && t < |s.threads| && s.threads[t].Loaded? && s.threads[t].call.Suspend?
    requires var w := s.threads[t];
      s.nodes[w.node] == w.seen && w.seen.mode == Suspended && -COUNT_LIMIT <= w.call.change <= 0
      && 0 <= w.seen.suspend + w.call.change <= s.lim.resume
    ensures var w := s.threads[t]; var s' := Next(s, Work(t));
      Needs(s'.nodes[w.node]) && s'.threads[t] == Counting(w.node, true, Return)
  {
    var w := s.threads[t];
    assert WordOk(s.lim, w.seen);
    ResumesBelow(s.lim, w.call.change, w.da, w.seen);
    hide AddActivity, Inv;
  }

  // ---- Suspension ----

  /** A suspended node has its poller, and its own goroutine is inside the suspend call that did it: about to tell the
    * loop, or parked until the loop signals the node. */
  lemma SuspendedParks(s: State, n: nat)
    requires Inv(s) && n < |s.nodes| && s.nodes[n].mode == Suspended
    ensures HasPoller(s, n) && s.working[n] && !s.signals[n]
    ensures s.threads[n].Parking? || s.threads[n].Parked?
      || ((s.threads[n].Counting? || s.threads[n].Counted? || s.threads[n].Waking?) && s.threads[n].rest.Park?)
  {
    PlaceOf(s, n);
    hide Words, Waits, Counts, Owners, Tokens, Collects, HasPoller;
  }

  /** A node at the point of being suspended has its poller, so `addActivity` never suspends an inactive node, and
    * `getPoller` never panics for a node's own goroutine. */
  lemma NeverStranded(s: State, n: nat)
    requires Inv(s) && n < |s.nodes|
    ensures s.threads[n].Loaded? && s.threads[n].call.Suspend? && s.threads[n].call.change > 0 ==>
      HasPoller(s, n) && s.nodes[n].mode != Inactive
    ensures s.working[n] ==> forall call: Call :: Next(s, Begin(n, n, call)).crashed == s.crashed
    ensures forall t :: (0 <= t < |s.threads| && s.threads[t].Loaded? && s.threads[t].call.Suspend?
      && s.threads[t].call.change > 0) ==> t == s.threads[t].node
  {
    PlaceOf(s, n);
    assert ModesOk(s);
    assert s.working[n] ==> s.pollerIndex[n] >= 0;
    hide Words, Waits, Counts, Owners, Tokens, Suspensions, Collects, HasPoller;
  }

  /** Any other thread that takes packets off a node's suspend count panics exactly if the node has no poller. */
  lemma PanicsWithout(s: State, t: nat, n: nat, c: int)
    requires Inv(s) && !s.crashed && |s.nodes| <= t < |s.threads| && s.threads[t].Idle? && n < |s.nodes| && c <= 0
    ensures Next(s, Begin(t, n, Suspend(c))).crashed <==> s.pollerIndex[n] < 0
    ensures s.nodes[n].mode == Suspended ==> !Next(s, Begin(t, n, Suspend(c))).crashed
  {
    if s.nodes[n].mode == Suspended { SuspendedParks(s, n); }
    hide Words, Waits, Counts, Owners, Polls, Served;
  }

  /** The channels of one place are never full: no signal and no answer ever blocks. */
  lemma NeverBlocks(s: State, n: nat)
    requires Inv(s) && n < |s.nodes|
    ensures s.loop.Scanning? && s.loop.slot < |s.pool| && s.pool[s.loop.slot] == n ==> !s.signals[n]
    ensures s.working[n] && !s.threads[n].Parked? ==> s.answers[n] == None
    ensures forall t :: 0 <= t < |s.threads| && s.threads[t].Parking? ==> s.answers[s.threads[t].node] == None
  {
    assert One(s.signals[n]) + One(s.answers[n].Some?) + One(Busy(s, n)) == One(Due(s, n));
    forall t | 0 <= t < |s.threads| && s.threads[t].Parking? ensures s.answers[s.threads[t].node] == None {
      assert One(s.signals[t]) + One(s.answers[t].Some?) + One(Busy(s, t)) == One(Due(s, t));
    }
    hide Words, Waits, Counts, HeldOk, QueueOk, BatchOk, ModesOk, Suspensions, Collects;
  }

  /** A node about to be freed does not need polling and its goroutine is at rest: nothing is freed from under it. */
  lemma FreedAtRest(s: State)
    requires Inv(s) && s.loop.FreeLoaded? && s.nodes[s.pool[s.loop.slot]] == s.loop.state
    ensures var n := s.pool[s.loop.slot]; !Needs(s.nodes[n]) && !s.working[n] && s.threads[n].Idle?
  {
    hide Waits, Counts, Owners, Tokens, Suspensions;
  }

  /** A parked goroutine that the loop signals makes its suspend call again, and goes on with its poll if there is room
    * by now. */
  lemma GoesOn(s: State, n: nat)
    requires Inv(s) && !s.crashed && n < |s.nodes| && s.threads[n].Parked? && s.signals[n]
    requires s.nodes[n].suspend + s.threads[n].change <= s.lim.suspend
    ensures var v := s.nodes[n].(suspend := s.nodes[n].suspend + s.threads[n].change);
      WorkFor(s, n, 3)
        == s.(signals := s.signals[n := false], threads := s.threads[n := Idle], nodes := s.nodes[n := v])
  {
    hide Words, Waits, Counts, Owners, Polls, Served, AddActivity, WorkFor, LoopInPool, Next;
    GoesOnFacts(s, n);
    SuspendsOver(s.lim, s.threads[n].change, 0, s.nodes[n]);
    GoesOnSteps(s, n, s.nodes[n].(suspend := s.nodes[n].suspend + s.threads[n].change));
  }

  lemma GoesOnSteps(s: State, n: nat, v: NodeWord)
    requires Shape(s) && !s.crashed && n < |s.nodes| && s.threads[n].Parked? && s.signals[n] && s.threads[n].node == n
    requires AddActivity(s.lim, Suspend(s.threads[n].change), 0, s.nodes[n]) == Update(v, false, 0, false, false)
    requires Needs(s.nodes[n]) == Needs(v)
    ensures WorkFor(s, n, 3)
      == s.(signals := s.signals[n := false], threads := s.threads[n := Idle], nodes := s.nodes[n := v])
  {
    hide AddActivity, LoopInPool, Needs;
    var call := Suspend(s.threads[n].change);
    var s1 := s.(signals := s.signals[n := false], threads := s.threads[n := Loading(n, call, 0)]);
    assert WorkFor(s, n, 1) == Next(WorkFor(s, n, 0), Work(n)) == s1;
    assert WorkFor(s, n, 2) == Next(s1, Work(n)) == s1.(threads := s.threads[n := Loaded(n, call, 0, s.nodes[n])]);
  }

  lemma GoesOnFacts(s: State, n: nat)
    requires Inv(s) && n < |s.nodes| && s.threads[n].Parked? && s.signals[n]
    ensures WordOk(s.lim, s.nodes[n]) && s.lim.suspend < COUNT_LIMIT && s.nodes[n].mode in {Active, Resumed}
    ensures s.threads[n].node == n && s.threads[n].change > 0 && s.working[n] && s.answers[n] == None
  {
    PlaceOf(s, n);
    assert ModesOk(s);
    assert One(s.signals[n]) + One(s.answers[n].Some?) + One(Busy(s, n)) == One(Due(s, n));
    hide Waits, Counts, Collects, HasPoller, HeldOk, QueueOk, BatchOk;
  }

  /** k steps of one thread, with nobody in between. */
  ghost function WorkFor(s: State, t: nat, k: nat): (r: State)
    requires Shape(s)
    ensures Shape(r)
  {
    if k == 0 then s else
    var r := WorkFor(s, t, k - 1);
    ShapeKept(r, Work(t));
    Next(r, Work(t))
  }

  // ---- A resume can be forgotten ----

  /** When the loop clears the resume of a node whose goroutine is parked, the goroutine has not been signalled, and
    * the node goes on to need polling exactly if it is active. */
  lemma ClearedIff(s: State)
    requires Inv(s) && !s.crashed && s.loop.ResumeLoaded? && !s.loop.done
    requires s.nodes[s.pool[s.loop.slot]] == s.loop.state
    ensures var n := s.pool[s.loop.slot]; var s' := Loop1(s, Pick(false, false, 0));
      && s'.threads[n].Parked? && !s'.signals[n]
      && (Needs(s'.nodes[n]) <==> s.nodes[n].active > 0)
  {
    var n := s.pool[s.loop.slot];
    assert One(s.signals[n]) + One(s.answers[n].Some?) + One(Busy(s, n)) == One(Due(s, n));
    hide Waits, Counts, Suspensions, HeldOk, QueueOk, BatchOk, ModesOk;
  }

  /** A goroutine parked at a node that does not need polling, with no signal or call on the node under way. */
  ghost predicate Forgotten(s: State, n: nat) {
    && n < |s.nodes| == |s.signals| <= |s.threads|
    && s.threads[n].Parked? && s.threads[n].node == n && !s.signals[n] && !Needs(s.nodes[n])
    && forall t :: 0 <= t < |s.threads| && (s.threads[t].Loading? || s.threads[t].Loaded?) ==> s.threads[t].node != n
  }

  lemma ForgottenSwap(s: State, n: nat, t: nat)
    requires Shape(s) && Forgotten(s, n) && t < |s.threads| && s.threads[t].Loaded?
    ensures Forgotten(TrySwap(s, t), n)
  {
    hide AddActivity, Needs, LoopInPool;
  }

  lemma ForgottenEnqueue(s: State, n: nat, t: nat)
    requires Shape(s) && Forgotten(s, n) && t < |s.threads| && s.threads[t].Queueing?
    ensures Forgotten(Enqueue(s, t, s.threads[t].node), n)
  {
    hide Needs, LoopInPool;
  }

  lemma ForgottenCount(s: State, n: nat, t: nat)
    requires Shape(s) && Forgotten(s, n) && t < |s.threads| && s.threads[t].Counted?
    ensures Forgotten(TryCount(s, t), n)
  {
    hide ChangeActive, Needs, LoopInPool;
  }

  lemma ForgottenWait(s: State, n: nat, t: nat)
    requires Shape(s) && Goroutines(s) && Forgotten(s, n) && t < |s.threads|
    requires s.threads[t].Idle? || s.threads[t].Parked?
    ensures Forgotten(AwaitLoop(s, t), n)
  {
    hide Needs, LoopInPool;
  }

  lemma ForgottenWork(s: State, n: nat, t: nat)
    requires Shape(s) && Goroutines(s) && Forgotten(s, n) && t < |s.threads|
    ensures Forgotten(Work1(s, t), n)
  {
    hide TrySwap, TryCount, Enqueue, AwaitLoop, Needs, LoopInPool, Goroutines;
    match s.threads[t] {
      case Loaded(_, _, _, _) => ForgottenSwap(s, n, t);
      case Counted(_, _, _, _) => ForgottenCount(s, n, t);
      case Queueing(_) => ForgottenEnqueue(s, n, t);
      case Idle => ForgottenWait(s, n, t);
      case Parked(_, _) => ForgottenWait(s, n, t);
      case _ =>
    }
  }

  lemma ForgottenPoll(s: State, n: nat, i: nat)
    requires Shape(s) && Forgotten(s, n) && s.loop.Scanning? && SlotUsed(s, i)
    ensures Forgotten(StartPoll(s, i, s.pool[i]), n)
  {
    hide Needs, LoopInPool;
  }

  lemma ForgottenScan(s: State, n: nat, pick: Pick)
    requires Shape(s) && Forgotten(s, n)
    ensures Forgotten(LoopScan(s, pick), n)
  {
    hide Needs, StartPoll, Alloc, TakePending;
    if s.loop.Scanning? && s.loop.slot < |s.pool| && s.pool[s.loop.slot] >= 0 { ForgottenPoll(s, n, s.loop.slot); }
    if s.loop.Pollers? { ForgottenTake(s, n); }
    if s.loop.Allocating? && s.loop.k < s.loop.len { ForgottenAlloc(s, n, pick.slot); }
  }

  lemma ForgottenTake(s: State, n: nat)
    requires Shape(s) && Forgotten(s, n)
    ensures Forgotten(TakePending(s), n)
  {
    hide Needs, LoopInPool;
  }

  lemma ForgottenAlloc(s: State, n: nat, pick: nat)
    requires Shape(s) && Forgotten(s, n) && s.loop.Allocating? && s.loop.k < s.loop.len
    ensures Forgotten(Alloc(s, s.loop.vec, s.loop.len, s.loop.k, pick), n)
  {
    hide Needs;
  }

  lemma ForgottenClear(s: State, n: nat)
    requires Shape(s) && Words(s) && Forgotten(s, n) && s.loop.ResumeLoaded?
    ensures Forgotten(ClearResume(s), n)
  {
  }

  lemma ForgottenFree(s: State, n: nat)
    requires Shape(s) && Forgotten(s, n) && s.loop.FreeLoaded?
    ensures Forgotten(MarkFree(s), n)
  {
  }

  lemma ForgottenCollect(s: State, n: nat)
    requires Shape(s) && Words(s) && Forgotten(s, n)
    ensures Forgotten(LoopCollect(s), n)
  {
    hide ChangeActive, LoopInPool, ClearResume, MarkFree, Words, Needs;
    if s.loop.ResumeLoaded? { ForgottenClear(s, n); }
    if s.loop.FreeLoaded? { ForgottenFree(s, n); }
  }

  lemma ForgottenLoop(s: State, n: nat, pick: Pick)
    requires Shape(s) && Words(s) && Forgotten(s, n)
    ensures Forgotten(Loop1(s, pick), n)
  {
    hide ChangeActive, LoopScan, LoopCollect, Words, Needs;
    ForgottenScan(s, n, pick);
    ForgottenCollect(s, n);
  }

  /** Only a further call on the node can bring a forgotten goroutine back. */
  lemma ForgottenKept(s: State, n: nat, a: Action)
    requires Inv(s) && Forgotten(s, n) && !(a.Begin? && a.node == n)
    ensures Forgotten(Next(s, a), n)
  {
    hide Waits, Counts, Owners, Tokens, Suspensions, Collects, Served;
    match a {
      case Work(t) => if !s.crashed && t < |s.threads| { ForgottenWork(s, n, t); } hide Work1;
      case Loop(pick) => if !s.crashed { ForgottenLoop(s, n, pick); } hide Loop1;
      case _ =>
    }
  }

  /** However the run goes on, without a call on its node a forgotten goroutine stays parked for ever. */
  lemma {:induction false} ForgottenForEver(lim: Limits, nodes: nat, workers: nat, run: seq<State>,
                                            acts: seq<Action>, from: nat, n: nat, k: nat)
    requires 0 <= lim.suspend < COUNT_LIMIT
    requires Run(run, acts) && run[0] == Init(lim, nodes, workers) && from <= k < |run|
    requires Forgotten(run[from], n)
    requires forall i :: from <= i < |acts| && acts[i].Begin? ==> acts[i].node != n
    ensures Forgotten(run[k], n)
  {
    hide Inv, Shape, Next, Forgotten;
    if k > from {
      ForgottenForEver(lim, nodes, workers, run, acts, from, n, k - 1);
      RunInv(lim, nodes, workers, run, acts, k - 1);
      ForgottenKept(run[k - 1], n, acts[k - 1]);
    }
  }

  // ---- The excess is real ----

  /** A state of one node, its waiting goroutine and two workers that have not yet met the loop thread. */
  function Pair(lim: Limits, w: NodeWord, word: LoopWord, a: Worker, b: Worker, queued: bool, owner: Place,
                clamps: nat, crashed: bool): State {
    State(lim, [w], [queued], [false], [-1], word, [if queued then [0] else [], []], 0, [], [Idle, a, b],
          Events, 0, crashed, false, [false], [None], [false], [owner], clamps)
  }

  const UP := Data(1)
  const DOWN := Data(-1)
  const RESTING := NodeWord(0, 0, Inactive)
  const BUSY := NodeWord(1, 0, Active)
  const SPENT := NodeWord(0, 0, Active)

  /** Worker 1 makes the node active, worker 2 undoes that and is first to the loop word; then worker 1
    * makes the node active again. */
  function OvertakingStep(k: nat): Action {
    if k == 0 || k == 11 then Begin(1, 0, UP)
    else if k == 3 then Begin(2, 0, DOWN)
    else if 4 <= k <= 7 then Work(2)
    else Work(1)
  }

  function OvertakingState(lim: Limits, k: nat): State {
    var zero, one := LoopWord(0, false), LoopWord(1, false);
    match k
    case 0 => Pair(lim, RESTING, zero, Idle, Idle, false, Nowhere, 0, false)
    case 1 => Pair(lim, RESTING, zero, Loading(0, UP, 0), Idle, false, Nowhere, 0, false)
    case 2 => Pair(lim, RESTING, zero, Loaded(0, UP, 0, RESTING), Idle, false, Nowhere, 0, false)
    case 3 => Pair(lim, BUSY, zero, Counting(0, true, Queue), Idle, false, Held(1), 0, false)
    case 4 => Pair(lim, BUSY, zero, Counting(0, true, Queue), Loading(0, DOWN, 0), false, Held(1), 0, false)
    case 5 => Pair(lim, BUSY, zero, Counting(0, true, Queue), Loaded(0, DOWN, 0, BUSY), false, Held(1), 0, false)
    case 6 => Pair(lim, SPENT, zero, Counting(0, true, Queue), Counting(0, false, Return), false, Held(1), 0, false)
    case 7 => Pair(lim, SPENT, zero, Counting(0, true, Queue), Counted(0, false, Return, zero),
      false, Held(1), 0, false)
    case 8 => Pair(lim, SPENT, zero, Counting(0, true, Queue), Idle, false, Held(1), 1, false)
    case 9 => Pair(lim, SPENT, zero, Counted(0, true, Queue, zero), Idle, false, Held(1), 1, false)
    case 10 => Pair(lim, SPENT, one, Queueing(0), Idle, false, Held(1), 1, false)
    case 11 => Pair(lim, SPENT, one, Idle, Idle, true, Queued(0), 1, false)
    case 12 => Pair(lim, SPENT, one, Loading(0, UP, 0), Idle, true, Queued(0), 1, false)
    case 13 => Pair(lim, SPENT, one, Loaded(0, UP, 0, SPENT), Idle, true, Queued(0), 1, false)
    case 14 => Pair(lim, BUSY, one, Counting(0, true, Return), Idle, true, Queued(0), 1, false)
    case 15 => Pair(lim, BUSY, one, Counted(0, true, Return, one), Idle, true, Queued(0), 1, false)
    case _ => Pair(lim, BUSY, one, Counted(0, true, Return, one), Idle, true, Queued(0), 1, true)
  }

  lemma OvertakingRise(lim: Limits, k: nat)
    requires 0 <= lim.suspend < COUNT_LIMIT && 0 <= k < 3
    ensures Shape(OvertakingState(lim, k))
    ensures Next(OvertakingState(lim, k), OvertakingStep(k)) == OvertakingState(lim, k + 1)
  {
  }

  lemma OvertakingFall(lim: Limits, k: nat)
    requires 0 <= lim.suspend < COUNT_LIMIT && 3 <= k < 6
    ensures Shape(OvertakingState(lim, k))
    ensures Next(OvertakingState(lim, k), OvertakingStep(k)) == OvertakingState(lim, k + 1)
  {
  }

  lemma OvertakingClamp(lim: Limits, k: nat)
    requires 0 <= lim.suspend < COUNT_LIMIT && 6 <= k < 8
    ensures Shape(OvertakingState(lim, k))
    ensures Next(OvertakingState(lim, k), OvertakingStep(k)) == OvertakingState(lim, k + 1)
  {
  }

  lemma OvertakingLate(lim: Limits, k: nat)
    requires 0 <= lim.suspend < COUNT_LIMIT && 8 <= k < 11
    ensures Shape(OvertakingState(lim, k))
    ensures Next(OvertakingState(lim, k), OvertakingStep(k)) == OvertakingState(lim, k + 1)
  {
    var empty: seq<seq<nat>> := [[], []];
    assert empty[0] + [0] == [0];
    assert empty[0 := [0]] == [[0], []];
  }

  lemma OvertakingAgain(lim: Limits, k: nat)
    requires 0 <= lim.suspend < COUNT_LIMIT && 11 <= k < 14
    ensures Shape(OvertakingState(lim, k))
    ensures Next(OvertakingState(lim, k), OvertakingStep(k)) == OvertakingState(lim, k + 1)
  {
  }

  lemma OvertakingPanic(lim: Limits, k: nat)
    requires 0 <= lim.suspend < COUNT_LIMIT && 14 <= k < 16
    ensures Shape(OvertakingState(lim, k))
    ensures Next(OvertakingState(lim, k), OvertakingStep(k)) == OvertakingState(lim, k + 1)
  {
  }

  lemma OvertakingStepOk(lim: Limits, k: nat)
    requires 0 <= lim.suspend < COUNT_LIMIT && k < 16
    ensures Shape(OvertakingState(lim, k))
    ensures Next(OvertakingState(lim, k), OvertakingStep(k)) == OvertakingState(lim, k + 1)
  {
    hide *;
    if k < 3 {
      OvertakingRise(lim, k);
    } else if k < 6 {
      OvertakingFall(lim, k);
    } else if k < 8 {
      OvertakingClamp(lim, k);
    } else if k < 11 {
      OvertakingLate(lim, k);
    } else if k < 14 {
      OvertakingAgain(lim, k);
    } else {
      OvertakingPanic(lim, k);
    }
  }

  lemma OvertakenIncrement(lim: Limits) returns (run: seq<State>, acts: seq<Action>)
    requires 0 <= lim.suspend < COUNT_LIMIT
    ensures Run(run, acts) && run[0] == Init(lim, 1, 2) && |run| == 17 && |run[11].nodes| == 1
    ensures run[11].threads == [Idle, Idle, Idle] && !Needs(run[11].nodes[0]) && run[11].word == LoopWord(1, false)
    ensures !run[15].crashed && run[16].crashed
  {
    run := seq(17, k requires 0 <= k => OvertakingState(lim, k));
    acts := seq(16, k requires 0 <= k => OvertakingStep(k));
    assert run[0] == Init(lim, 1, 2);
    forall k | 0 <= k < 16 ensures Shape(run[k]) && run[k + 1] == Next(run[k], acts[k]) {
      OvertakingStepOk(lim, k);
    }
    ShapeKept(run[15], acts[15]);
    hide Shape, Next;
  }

  // ---- The forgotten resume is real ----

  /** One node, its goroutine g and one worker t. Stages of the node: not queued, queued, taken, with a poller,
    * signalled, worked on, answered. */
  function Solo(lim: Limits, w: NodeWord, word: LoopWord, g: Worker, t: Worker, loop: LoopAt, stage: nat): State {
    State(lim, [w], [stage == 1], [stage >= 4], [if stage >= 3 then 0 else -1], word,
          if stage == 0 then [[], []] else [[0], []], if stage <= 1 then 0 else 1, if stage <= 2 then [] else [0],
          [g, t], loop, 0, false, false, [stage == 4], [if stage == 6 then Some(false) else None], [stage >= 5],
          [if stage == 0 then (if Requesting(t) then Held(1) else Nowhere)
           else if stage == 1 then Queued(0) else if stage == 2 then Taken(0) else Pooled(0)], 0)
  }

  const HOLD := Suspend(1)

  function FILL(lim: Limits): Call { Suspend(lim.suspend) }

  function RESUME(lim: Limits): Call { Suspend(lim.resume - lim.suspend) }

  function FULL(lim: Limits): NodeWord { NodeWord(0, lim.suspend, Active) }

  function STOPPED(lim: Limits): NodeWord { NodeWord(0, lim.suspend, Suspended) }

  function AGAIN(lim: Limits): NodeWord { NodeWord(0, lim.resume, Resumed) }

  function CLEARED(lim: Limits): NodeWord { NodeWord(0, lim.resume, Active) }

  /** The worker makes the node active and it is polled; its goroutine uses up the activity, reaches the suspend limit
    * and parks; the worker brings the count down to the resume limit; then the loop takes the goroutine's answer. */
  function ForgetStep(lim: Limits, k: nat): Action {
    if k == 0 then Begin(1, 0, UP)
    else if k == 14 then Begin(0, 0, DOWN)
    else if k == 19 then Begin(0, 0, FILL(lim))
    else if k == 22 then Begin(0, 0, HOLD)
    else if k == 26 then Begin(1, 0, RESUME(lim))
    else if 6 <= k <= 12 || k >= 31 then Loop(Pick(false, true, 0))
    else if 13 <= k <= 25 then Work(0)
    else Work(1)
  }

  function ForgetState(lim: Limits, k: nat): State {
    var zero, one := LoopWord(0, false), LoopWord(1, false);
    var done, parked := false, Parked(0, 1);
    match k
    case 0 => Solo(lim, RESTING, zero, Idle, Idle, Events, 0)
    case 1 => Solo(lim, RESTING, zero, Idle, Loading(0, UP, 0), Events, 0)
    case 2 => Solo(lim, RESTING, zero, Idle, Loaded(0, UP, 0, RESTING), Events, 0)
    case 3 => Solo(lim, BUSY, zero, Idle, Counting(0, true, Queue), Events, 0)
    case 4 => Solo(lim, BUSY, zero, Idle, Counted(0, true, Queue, zero), Events, 0)
    case 5 => Solo(lim, BUSY, one, Idle, Queueing(0), Events, 0)
    case 6 => Solo(lim, BUSY, one, Idle, Idle, Events, 1)
    case 7 => Solo(lim, BUSY, one, Idle, Idle, NoWait, 1)
    case 8 => Solo(lim, BUSY, one, Idle, Idle, Pollers, 1)
    case 9 => Solo(lim, BUSY, one, Idle, Idle, Allocating(0, 1, 0), 2)
    case 10 => Solo(lim, BUSY, one, Idle, Idle, Allocating(0, 1, 1), 3)
    case 11 => Solo(lim, BUSY, one, Idle, Idle, Scanning(0), 3)
    case 12 => Solo(lim, BUSY, one, Idle, Idle, Scanning(1), 4)
    case 13 => Solo(lim, BUSY, one, Idle, Idle, Collecting(0), 4)
    case 14 => Solo(lim, BUSY, one, Idle, Idle, Collecting(0), 5)
    case 15 => Solo(lim, BUSY, one, Loading(0, DOWN, 0), Idle, Collecting(0), 5)
    case 16 => Solo(lim, BUSY, one, Loaded(0, DOWN, 0, BUSY), Idle, Collecting(0), 5)
    case 17 => Solo(lim, SPENT, one, Counting(0, false, Return), Idle, Collecting(0), 5)
    case 18 => Solo(lim, SPENT, one, Counted(0, false, Return, one), Idle, Collecting(0), 5)
    case 19 => Solo(lim, SPENT, zero, Idle, Idle, Collecting(0), 5)
    case 20 => Solo(lim, SPENT, zero, Loading(0, FILL(lim), 0), Idle, Collecting(0), 5)
    case 21 => Solo(lim, SPENT, zero, Loaded(0, FILL(lim), 0, SPENT), Idle, Collecting(0), 5)
    case 22 => Solo(lim, FULL(lim), zero, Idle, Idle, Collecting(0), 5)
    case 23 => Solo(lim, FULL(lim), zero, Loading(0, HOLD, 0), Idle, Collecting(0), 5)
    case 24 => Solo(lim, FULL(lim), zero, Loaded(0, HOLD, 0, FULL(lim)), Idle, Collecting(0), 5)
    case 25 => Solo(lim, STOPPED(lim), zero, Parking(0, 1), Idle, Collecting(0), 5)
    case 26 => Solo(lim, STOPPED(lim), zero, parked, Idle, Collecting(0), 6)
    case 27 => Solo(lim, STOPPED(lim), zero, parked, Loading(0, RESUME(lim), 0), Collecting(0), 6)
    case 28 => Solo(lim, STOPPED(lim), zero, parked, Loaded(0, RESUME(lim), 0, STOPPED(lim)), Collecting(0), 6)
    case 29 => Solo(lim, AGAIN(lim), zero, parked, Counting(0, true, Return), Collecting(0), 6)
    case 30 => Solo(lim, AGAIN(lim), zero, parked, Counted(0, true, Return, zero), Collecting(0), 6)
    case 31 => Solo(lim, AGAIN(lim), one, parked, Idle, Collecting(0), 6)
    case 32 => Solo(lim, AGAIN(lim), one, parked, Idle, ResumeLoading(0, done), 5)
    case 33 => Solo(lim, AGAIN(lim), one, parked, Idle, ResumeLoaded(0, done, AGAIN(lim)), 5)
    case 34 => Solo(lim, CLEARED(lim), one, parked, Idle, Down(0, done), 5)
    case 35 => Solo(lim, CLEARED(lim), one, parked, Idle, DownLoaded(0, done, one), 5)
    case 36 => Solo(lim, CLEARED(lim), zero, parked, Idle, Collecting(1), 5)
    case _ => Solo(lim, CLEARED(lim), zero, parked, Idle, Events, 5)
  }

  predicate LimitsOk(lim: Limits) {
    0 <= lim.resume < lim.suspend < COUNT_LIMIT - 1
  }

  predicate ForgetOk(lim: Limits, k: nat) {
    Shape(ForgetState(lim, k)) && Next(ForgetState(lim, k), ForgetStep(lim, k)) == ForgetState(lim, k + 1)
  }

  lemma ForgetFill(lim: Limits)
    requires LimitsOk(lim)
    ensures AddActivity(lim, FILL(lim), 0, SPENT) == Update(FULL(lim), false, 0, false, false)
  {
  }

  lemma ForgetHold(lim: Limits)
    requires LimitsOk(lim)
    ensures AddActivity(lim, HOLD, 0, FULL(lim)) == Update(STOPPED(lim), false, 0, true, false)
  {
    WrapBack(lim.suspend, 1);
  }

  lemma ForgetResume(lim: Limits)
    requires LimitsOk(lim)
    ensures AddActivity(lim, RESUME(lim), 0, STOPPED(lim)) == Update(AGAIN(lim), false, 0, false, true)
  {
  }

  lemma ForgetFrom0(lim: Limits, k: nat)
    requires LimitsOk(lim) && 0 <= k < 2
    ensures ForgetOk(lim, k)
  {
  }

  lemma ForgetFrom2(lim: Limits, k: nat)
    requires LimitsOk(lim) && 2 <= k < 4
    ensures ForgetOk(lim, k)
  {
  }

  lemma ForgetFrom4(lim: Limits, k: nat)
    requires LimitsOk(lim) && 4 <= k < 6
    ensures ForgetOk(lim, k)
  {
    var empty: seq<seq<nat>> := [[], []];
    assert empty[0] + [0] == [0];
    assert empty[0 := [0]] == [[0], []];
  }

  lemma ForgetFrom6(lim: Limits, k: nat)
    requires LimitsOk(lim) && 6 <= k < 8
    ensures ForgetOk(lim, k)
  {
  }

  lemma ForgetFrom8(lim: Limits, k: nat)
    requires LimitsOk(lim) && 8 <= k < 10
    ensures ForgetOk(lim, k)
  {
  }

  lemma ForgetFrom10(lim: Limits, k: nat)
    requires LimitsOk(lim) && 10 <= k < 12
    ensures ForgetOk(lim, k)
  {
  }

  lemma ForgetFrom12(lim: Limits, k: nat)
    requires LimitsOk(lim) && 12 <= k < 14
    ensures ForgetOk(lim, k)
  {
  }

  lemma ForgetFrom14(lim: Limits, k: nat)
    requires LimitsOk(lim) && 14 <= k < 16
    ensures ForgetOk(lim, k)
  {
  }

  lemma ForgetFrom16(lim: Limits, k: nat)
    requires LimitsOk(lim) && 16 <= k < 18
    ensures ForgetOk(lim, k)
  {
  }

  lemma ForgetFrom18(lim: Limits, k: nat)
    requires LimitsOk(lim) && 18 <= k < 20
    ensures ForgetOk(lim, k)
  {
  }

  lemma ForgetFrom20(lim: Limits, k: nat)
    requires LimitsOk(lim) && 20 <= k < 22
    ensures ForgetOk(lim, k)
  {
    hide AddActivity;
    ForgetFill(lim);
  }

  lemma ForgetFrom22(lim: Limits, k: nat)
    requires LimitsOk(lim) && 22 <= k < 24
    ensures ForgetOk(lim, k)
  {
  }

  lemma ForgetFrom24(lim: Limits, k: nat)
    requires LimitsOk(lim) && 24 <= k < 26
    ensures ForgetOk(lim, k)
  {
    hide AddActivity;
    ForgetHold(lim);
  }

  lemma ForgetFrom26(lim: Limits, k: nat)
    requires LimitsOk(lim) && 26 <= k < 28
    ensures ForgetOk(lim, k)
  {
  }

  lemma ForgetFrom28(lim: Limits, k: nat)
    requires LimitsOk(lim) && 28 <= k < 30
    ensures ForgetOk(lim, k)
  {
    hide AddActivity;
    ForgetResume(lim);
  }

  lemma ForgetFrom30(lim: Limits, k: nat)
    requires LimitsOk(lim) && 30 <= k < 32
    ensures ForgetOk(lim, k)
  {
  }

  lemma ForgetFrom32(lim: Limits, k: nat)
    requires LimitsOk(lim) && 32 <= k < 34
    ensures ForgetOk(lim, k)
  {
  }

  lemma ForgetFrom34(lim: Limits, k: nat)
    requires LimitsOk(lim) && 34 <= k < 36
    ensures ForgetOk(lim, k)
  {
  }

  lemma ForgetFrom36(lim: Limits, k: nat)
    requires LimitsOk(lim) && 36 <= k < 37
    ensures ForgetOk(lim, k)
  {
  }

  lemma ForgetStepOk(lim: Limits, k: nat)
    requires LimitsOk(lim) && k < 37
    ensures ForgetOk(lim, k)
  {
    hide *;
    if k < 2 {
      ForgetFrom0(lim, k);
    } else if k < 4 {
      ForgetFrom2(lim, k);
    } else if k < 6 {
      ForgetFrom4(lim, k);
    } else if k < 8 {
      ForgetFrom6(lim, k);
    } else if k < 10 {
      ForgetFrom8(lim, k);
    } else if k < 12 {
      ForgetFrom10(lim, k);
    } else if k < 14 {
      ForgetFrom12(lim, k);
    } else if k < 16 {
      ForgetFrom14(lim, k);
    } else if k < 18 {
      ForgetFrom16(lim, k);
    } else if k < 20 {
      ForgetFrom18(lim, k);
    } else if k < 22 {
      ForgetFrom20(lim, k);
    } else if k < 24 {
      ForgetFrom22(lim, k);
    } else if k < 26 {
      ForgetFrom24(lim, k);
    } else if k < 28 {
      ForgetFrom26(lim, k);
    } else if k < 30 {
      ForgetFrom28(lim, k);
    } else if k < 32 {
      ForgetFrom30(lim, k);
    } else if k < 34 {
      ForgetFrom32(lim, k);
    } else if k < 36 {
      ForgetFrom34(lim, k);
    } else {
      ForgetFrom36(lim, k);
    }
  }

  lemma ForgetEnds(lim: Limits)
    requires LimitsOk(lim)
    ensures ForgetState(lim, 0) == Init(lim, 1, 1)
    ensures Forgotten(ForgetState(lim, 37), 0)
    ensures var s := ForgetState(lim, 37);
      (Shape(s) && s.word == LoopWord(0, false) && s.loop == Events && s.nodes == [NodeWord(0, lim.resume, Active)]
       && s.threads == [Parked(0, 1), Idle])
  {
  }

  lemma ForgetRun(lim: Limits, k: nat)
    requires ForgetOk(lim, k)
    ensures Shape(ForgetState(lim, k))
    ensures Next(ForgetState(lim, k), ForgetStep(lim, k)) == ForgetState(lim, k + 1)
  {
  }

  /** A resume that comes before the loop has taken the answer of the suspended goroutine is cleared unseen: with the
    * count down at the resume limit the goroutine stays parked, and the loop may sleep. */
  lemma ResumeForgotten(lim: Limits) returns (run: seq<State>, acts: seq<Action>)
    requires 0 <= lim.resume < lim.suspend < COUNT_LIMIT - 1
    ensures Run(run, acts) && run[0] == Init(lim, 1, 1) && |run| == 38
    ensures run[37].nodes == [NodeWord(0, lim.resume, Active)] && run[37].threads == [Parked(0, 1), Idle]
    ensures run[37].word == LoopWord(0, false) && run[37].loop == Events && Forgotten(run[37], 0)
  {
    hide ForgetState, ForgetStep, ForgetOk, Shape, Next, Init, Needs, Forgotten;
    ForgetEnds(lim);
    run := seq(38, k requires 0 <= k => ForgetState(lim, k));
    acts := seq(37, k requires 0 <= k => ForgetStep(lim, k));
    forall k | 0 <= k < 37 ensures Shape(run[k]) && run[k + 1] == Next(run[k], acts[k]) {
      ForgetStepOk(lim, k);
      ForgetRun(lim, k);
    }
  }
}

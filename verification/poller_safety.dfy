/** What every interleaving of the poller protocol keeps. */
module PollerSafety {
  import opened Basics
  import opened PollerProtocol

  // ---- Node words ----

  predicate WordOk(lim: Limits, w: NodeWord) {
    && 0 <= w.active < COUNT_LIMIT
    && 0 <= w.suspend <= lim.suspend
    && (w.mode == Inactive ==> w.active == 0 && w.suspend == 0)
  }

  predicate Words(s: State) {
    && 0 <= s.lim.suspend < COUNT_LIMIT
    && (forall n :: 0 <= n < |s.nodes| ==> WordOk(s.lim, s.nodes[n]))
    && (s.loop.ResumeLoaded? ==> s.loop.state.mode == Resumed)
    && (s.loop.FreeLoaded? ==> s.loop.state.mode != Suspended && s.loop.state.active == s.loop.state.suspend == 0)
  }

  lemma WrapBack(a: int, d: int)
    requires 0 <= a < COUNT_LIMIT
    ensures Wrap32(Wrap32(a + d) - d) == a
  {
    var q := (a + d + COUNT_LIMIT) / (2 * COUNT_LIMIT);
    assert Wrap32(a + d) == a + d - q * (2 * COUNT_LIMIT);
    assert (a + COUNT_LIMIT - q * (2 * COUNT_LIMIT)) % (2 * COUNT_LIMIT) == (a + COUNT_LIMIT) % (2 * COUNT_LIMIT);
  }

  lemma AddActivityOk(lim: Limits, call: Call, da: int, w: NodeWord)
    requires WordOk(lim, w) && 0 <= lim.suspend < COUNT_LIMIT
    requires AddActivity(lim, call, da, w).Update?
    ensures var o := AddActivity(lim, call, da, w);
      && WordOk(lim, o.word)
      && (o.alloc ==> w.mode == Inactive && o.word.mode == Active)
      && (w.mode == Inactive && o.word.mode != Inactive && !(call.Suspend? && call.change > 0) ==> o.alloc)
      && (w.mode != Inactive ==> o.word.mode != Inactive)
  {
    if call.Suspend? {
      WrapBack(w.suspend, call.change);
    }
  }

  lemma WordsTrySwap(s: State, t: nat)
    requires Shape(s) && Words(s) && t < |s.threads| && s.threads[t].Loaded?
    ensures Words(TrySwap(s, t))
  {
    var w := s.threads[t];
    if s.nodes[w.node] == w.seen && AddActivity(s.lim, w.call, w.da, w.seen).Update? {
      AddActivityOk(s.lim, w.call, w.da, w.seen);
    }
    hide Shape, AddActivity, Needs;
  }

  /** `doPollers` up to the signals touches no word, no worker and no event. */
  lemma ScanFrame(s: State, pick: Pick)
    requires Shape(s) && (s.loop.Pollers? || s.loop.Allocating? || s.loop.Scanning? || s.loop.Collecting?)
    ensures var s' := LoopScan(s, pick);
      && s'.nodes == s.nodes && s'.word == s.word && s'.threads == s.threads && s'.events == s.events
      && s'.clamps == s.clamps && s'.lim == s.lim && s'.working == s.working
      && (s'.loop.Events? || s'.loop.Pollers? || s'.loop.Allocating? || s'.loop.Scanning? || s'.loop.Collecting?
          || s'.loop.ResumeLoading?)
  {
    hide Shape, Needs;
  }

  lemma WordsClearResume(s: State)
    requires Shape(s) && Words(s) && s.loop.ResumeLoaded?
    ensures Words(ClearResume(s))
  {
  }

  lemma WordsMarkFree(s: State)
    requires Shape(s) && Words(s) && s.loop.FreeLoaded?
    ensures Words(MarkFree(s))
  {
  }

  lemma WordsCollect(s: State)
    requires Shape(s) && Words(s)
    ensures Words(LoopCollect(s))
  {
    if s.loop.ResumeLoaded? { WordsClearResume(s); }
    if s.loop.FreeLoaded? { WordsMarkFree(s); }
    hide Shape, Needs, ClearResume, MarkFree, ChangeActive;
  }

  lemma WordsLoop(s: State, pick: Pick)
    requires Shape(s) && Words(s)
    ensures Words(Loop1(s, pick))
  {
    hide Shape, LoopScan, LoopCollect;
    WordsCollect(s);
    if s.loop.Pollers? || s.loop.Allocating? || s.loop.Scanning? || s.loop.Collecting? {
      ScanFrame(s, pick);
    }
  }

  lemma WordsKept(s: State, a: Action)
    requires Shape(s) && Words(s)
    ensures Words(Next(s, a))
  {
    hide Shape, Needs, TrySwap, Loop1, ChangeActive;
    match a {
      case Work(t) => if t < |s.threads| && s.threads[t].Loaded? { WordsTrySwap(s, t); }
      case Loop(pick) => WordsLoop(s, pick);
      case _ =>
    }
  }

  lemma ShapeTrySwap(s: State, t: nat)
    requires Shape(s) && t < |s.threads| && s.threads[t].Loaded?
    ensures Shape(TrySwap(s, t))
  {
    hide AddActivity, Needs;
  }

  lemma ShapeTryCount(s: State, t: nat)
    requires Shape(s) && t < |s.threads| && s.threads[t].Counted?
    ensures Shape(TryCount(s, t))
  {
    hide ChangeActive;
  }

  lemma ShapeEnqueue(s: State, t: nat)
    requires Shape(s) && t < |s.threads| && s.threads[t].Queueing?
    ensures Shape(Enqueue(s, t, s.threads[t].node))
  {
  }

  lemma ShapeAwait(s: State, t: nat)
    requires Shape(s) && t < |s.threads| && (s.threads[t].Idle? || s.threads[t].Parked?)
    ensures Shape(AwaitLoop(s, t))
  {
  }

  lemma ShapeAnswer(s: State, t: nat, n: nat, done: bool, w: Worker, working: bool)
    requires Shape(s) && t < |s.threads| && n < |s.nodes| && (!w.Idle? ==> w.node == n)
    ensures Shape(Answer(s, t, n, done, w, working))
  {
  }

  lemma ShapeWork(s: State, t: nat)
    requires Shape(s) && t < |s.threads|
    ensures Shape(Work1(s, t))
  {
    hide TrySwap, TryCount, Enqueue, AwaitLoop, Answer;
    match s.threads[t] {
      case Idle => ShapeAwait(s, t);
      case Parked(_, _) => ShapeAwait(s, t);
      case Parking(n, change) => ShapeAnswer(s, t, n, false, Parked(n, change), s.working[n]);
      case Loaded(_, _, _, _) => ShapeTrySwap(s, t);
      case Counted(_, _, _, _) => ShapeTryCount(s, t);
      case Queueing(_) => ShapeEnqueue(s, t);
      case _ =>
    }
  }

  lemma ShapeAlloc(s: State, pick: nat)
    requires Shape(s) && s.loop.Allocating? && s.loop.k < s.loop.len
    ensures Shape(Alloc(s, s.loop.vec, s.loop.len, s.loop.k, pick))
  {
  }

  lemma ShapeTake(s: State)
    requires Shape(s)
    ensures Shape(TakePending(s))
  {
  }

  lemma ShapePoll(s: State, i: nat)
    requires Shape(s) && SlotUsed(s, i)
    ensures s.loop == Scanning(i) ==> Shape(StartPoll(s, i, s.pool[i]))
    ensures s.loop == Collecting(i) ==> Shape(AwaitPoll(s, i, s.pool[i]))
  {
    hide Needs;
  }

  lemma ShapeScan(s: State, pick: Pick)
    requires Shape(s)
    ensures Shape(LoopScan(s, pick))
  {
    hide Needs, TakePending, Alloc, StartPoll, AwaitPoll;
    match s.loop {
      case Scanning(i) => if i < |s.pool| && s.pool[i] >= 0 { ShapePoll(s, i); }
      case Collecting(i) => if i < |s.pool| && s.pool[i] >= 0 { ShapePoll(s, i); }
      case Pollers => ShapeTake(s);
      case Allocating(vec, len, k) => if k < len { ShapeAlloc(s, pick.slot); }
      case _ =>
    }
  }

  lemma ShapeClearResume(s: State)
    requires Shape(s) && s.loop.ResumeLoaded?
    ensures Shape(ClearResume(s))
  {
    hide Needs, ChangeActive;
  }

  lemma ShapeCountDown(s: State)
    requires Shape(s) && s.loop.DownLoaded?
    ensures Shape(CountDown(s))
  {
    hide Needs, ChangeActive;
  }

  lemma ShapeMarkFree(s: State)
    requires Shape(s) && s.loop.FreeLoaded?
    ensures Shape(MarkFree(s))
  {
    hide Needs, ChangeActive;
  }

  lemma ShapeRelease(s: State)
    requires Shape(s) && s.loop.Releasing?
    ensures Shape(Release(s, s.loop.slot))
  {
  }

  lemma ShapeCollect(s: State)
    requires Shape(s)
    ensures Shape(LoopCollect(s))
  {
    hide ClearResume, CountDown, MarkFree, Release;
    if s.loop.ResumeLoaded? { ShapeClearResume(s); }
    if s.loop.DownLoaded? { ShapeCountDown(s); }
    if s.loop.FreeLoaded? { ShapeMarkFree(s); }
    if s.loop.Releasing? { ShapeRelease(s); }
  }

  /** Sleeping and waking leave the nodes, their requests and their pollers alone. */
  lemma EventsFrame(s: State, pick: Pick)
    requires LoopInPool(s)
    ensures var s' := LoopEvents(s, pick);
      LoopInPool(s') && s' == s.(word := s'.word, events := s'.events, loop := s'.loop)
  {
  }

  lemma ShapeEvents(s: State, pick: Pick)
    requires Shape(s)
    ensures Shape(LoopEvents(s, pick))
  {
    hide LoopEvents, LoopInPool;
    EventsFrame(s, pick);
  }

  lemma ShapeKept(s: State, a: Action)
    requires Shape(s)
    ensures Shape(Next(s, a))
  {
    hide Work1, LoopEvents, LoopScan, LoopCollect, Answer;
    match a {
      case Begin(_, _, _) =>
      case Done(n) => if n < |s.nodes| { ShapeAnswer(s, n, n, true, Idle, false); }
      case Work(t) => if t < |s.threads| { ShapeWork(s, t); }
      case Loop(pick) => ShapeEvents(s, pick); ShapeScan(s, pick); ShapeCollect(s);
      case Signal =>
    }
  }

  // ---- No lost wakeup ----

  ghost predicate SomeoneWakes(s: State) {
    s.events > 0 || exists t :: 0 <= t < |s.threads| && s.threads[t].Waking?
  }

  ghost predicate Waits(s: State) {
    && (s.word.wait ==> s.word.nActive == 0 && (s.loop.Sleeping? || s.loop.Clearing? || s.loop.ClearLoaded?))
    && (s.loop.WaitLoaded? ==> s.loop.seen.nActive == 0 && !s.loop.seen.wait)
    && (s.loop.Sleeping? ==> s.word.wait || SomeoneWakes(s))
  }

  lemma SwapFrame(s: State, t: nat)
    requires Shape(s) && t < |s.threads| && s.threads[t].Loaded?
    ensures var s' := TrySwap(s, t);
      (|s'.threads| == |s.threads| && s'.threads == s.threads[t := s'.threads[t]]
       && s'.loop == s.loop && s'.events == s.events)
  {
    hide Shape, AddActivity, Needs, Finish;
  }

  lemma CountFrame(s: State, t: nat)
    requires Shape(s) && t < |s.threads| && s.threads[t].Counted?
    ensures var s' := TryCount(s, t);
      (|s'.threads| == |s.threads| && s'.threads == s.threads[t := s'.threads[t]]
       && s'.loop == s.loop && s'.events == s.events)
  {
    hide Shape, ChangeActive, Finish;
  }

  /** A worker's step leaves the other workers alone, and only adds events. */
  lemma WorkFrame(s: State, t: nat)
    requires Shape(s) && t < |s.threads|
    ensures var s' := Work1(s, t);
      && |s'.threads| == |s.threads| && s'.loop == s.loop && s'.events >= s.events
      && (forall u :: 0 <= u < |s.threads| && u != t ==> s'.threads[u] == s.threads[u])
      && (s.threads[t].Waking? ==> s'.events > 0)
  {
    hide Shape, TrySwap, TryCount, Finish;
    if s.threads[t].Loaded? { SwapFrame(s, t); }
    if s.threads[t].Counted? { CountFrame(s, t); }
  }

  lemma WakesWork(s: State, t: nat)
    requires Shape(s) && t < |s.threads|
    requires SomeoneWakes(s)
    ensures SomeoneWakes(Work1(s, t))
  {
    hide Shape, Work1;
    WorkFrame(s, t);
    var s' := Work1(s, t);
    if s'.events == 0 {
      var u :| 0 <= u < |s.threads| && s.threads[u].Waking?;
      assert s'.threads[u].Waking?;
    }
  }

  lemma WaitsTryCount(s: State, t: nat)
    requires Shape(s) && Waits(s) && t < |s.threads| && s.threads[t].Counted?
    ensures var s' := TryCount(s, t);
      && (s'.word.wait ==> s.word.wait && s'.word.nActive == 0)
      && (s.word.wait && !s'.word.wait ==> SomeoneWakes(s'))
      && s'.loop == s.loop
  {
    hide Shape;
    var s' := TryCount(s, t);
    if s'.word != s.word && s.word.wait {
      assert s'.threads[t].Waking?;
    }
  }

  lemma WaitsWork(s: State, t: nat)
    requires Shape(s) && Waits(s) && t < |s.threads|
    ensures Waits(Work1(s, t))
  {
    if SomeoneWakes(s) { WakesWork(s, t); }
    if s.threads[t].Counted? { WaitsTryCount(s, t); }
    hide Shape, AddActivity, Needs, TryCount, SomeoneWakes;
  }

  lemma WaitsEvents(s: State, pick: Pick)
    requires Shape(s) && Waits(s)
    ensures Waits(LoopEvents(s, pick))
  {
    hide Shape;
  }

  lemma WaitsLoop(s: State, pick: Pick)
    requires Shape(s) && Waits(s)
    ensures Waits(Loop1(s, pick))
  {
    hide Shape, LoopScan, LoopEvents, SomeoneWakes, Needs;
    WaitsEvents(s, pick);
    if s.loop.Pollers? || s.loop.Allocating? || s.loop.Scanning? || s.loop.Collecting? {
      ScanFrame(s, pick);
    }
  }

  /** An idle thread's step keeps every thread that is about to wake the loop. */
  lemma WaitsIdle(s: State, s': State, t: nat)
    requires Waits(s) && s'.word == s.word && s'.loop == s.loop && s'.events == s.events
    requires s'.threads == s.threads || (t < |s.threads| && s.threads[t].Idle? && |s'.threads| == |s.threads|
      && s'.threads == s.threads[t := s'.threads[t]])
    ensures Waits(s')
  {
    if s.loop.Sleeping? && SomeoneWakes(s) && s.events == 0 {
      var u :| 0 <= u < |s.threads| && s.threads[u].Waking?;
      assert s'.threads[u].Waking?;
    }
  }

  lemma WaitsKept(s: State, a: Action)
    requires Shape(s) && Waits(s)
    ensures Waits(Next(s, a))
  {
    var s' := Next(s, a);
    match a {
      case Begin(t, n, call) => WaitsIdle(s, s', t);
      case Done(n) => WaitsIdle(s, s', n);
      case Work(t) => if t < |s.threads| { WaitsWork(s, t); } hide Work1;
      case Loop(pick) => WaitsLoop(s, pick); hide Loop1;
      case Signal =>
    }
  }

  // ---- Polling ----

  /** The loop has signalled the node and waits for its answer, now or later in this round. */
  ghost predicate Due(s: State, n: nat)
    requires Shape(s) && n < |s.nodes|
  {
    s.isPolling[n] && s.pollerIndex[n] >= 0 && DueAt(s.loop, s.pollerIndex[n])
  }

  predicate DueAt(l: LoopAt, slot: int) {
    match l
    case Scanning(j) => slot < j
    case Collecting(j) => slot >= j
    case ResumeLoading(j, _) => slot > j
    case ResumeLoaded(j, _, _) => slot > j
    case Down(j, _) => slot > j
    case DownLoaded(j, _, _) => slot > j
    case FreeLoading(j) => slot > j
    case FreeLoaded(j, _) => slot > j
    case Releasing(j) => slot > j
    case _ => false
  }

  /** The node's goroutine works on a poll, and does not wait in the middle of it. */
  predicate Busy(s: State, n: nat)
    requires Shape(s) && n < |s.nodes|
  {
    s.working[n] && !s.threads[n].Parked?
  }

  function One(b: bool): nat { if b then 1 else 0 }

  /** A poll that is due is with the channel to the goroutine, with the goroutine, or with the channel back. */
  ghost predicate Tokens(s: State)
    requires Shape(s)
  {
    forall n :: 0 <= n < |s.nodes| ==>
      One(s.signals[n]) + One(s.answers[n].Some?) + One(Busy(s, n)) == One(Due(s, n))
  }

  /** A thread inside a call that adds to its node's suspend count, parked or to be parked included. */
  predicate Adding(w: Worker) {
    || ((w.Loading? || w.Loaded?) && w.call.Suspend? && w.call.change > 0)
    || Parks(w)
  }

  predicate Parks(w: Worker) {
    ((w.Counting? || w.Counted? || w.Waking?) && w.rest.Park?) || w.Parking? || w.Parked?
  }

  predicate ParkChange(w: Worker)
    requires Parks(w)
  {
    (if w.Parking? || w.Parked? then w.change else w.rest.change) > 0
  }

  /** Only a node's own goroutine adds to its suspend count, and only while it works. */
  ghost predicate Goroutines(s: State)
    requires Shape(s)
  {
    && (forall n :: 0 <= n < |s.nodes| && !s.threads[n].Idle? ==> s.working[n])
    && (forall t :: 0 <= t < |s.threads| && Adding(s.threads[t]) ==>
          t == s.threads[t].node && (Parks(s.threads[t]) ==> ParkChange(s.threads[t])))
    && (forall n :: 0 <= n < |s.nodes| && s.answers[n] == Some(true) ==> !s.working[n])
    && (forall n :: 0 <= n < |s.nodes| && s.answers[n] == Some(false) ==> s.threads[n].Parked?)
  }

  /** A suspended node's goroutine is parked or about to be, and no signal is on its way to it. */
  ghost predicate Suspensions(s: State)
    requires Shape(s)
  {
    forall n :: 0 <= n < |s.nodes| && s.nodes[n].mode == Suspended ==> Parks(s.threads[n]) && !s.signals[n]
  }

  /** The node that the loop looks at is parked or at rest, as its answer said; one that may be freed is neither
    * suspended nor resumed. */
  ghost predicate Collects(s: State)
    requires Shape(s)
  {
    match s.loop
    case ResumeLoading(i, done) => Answered(s, s.pool[i], done)
    case ResumeLoaded(i, done, _) => Answered(s, s.pool[i], done)
    case Down(i, done) => Answered(s, s.pool[i], done) && (done ==> s.nodes[s.pool[i]].mode != Resumed)
    case DownLoaded(i, done, _) => Answered(s, s.pool[i], done) && (done ==> s.nodes[s.pool[i]].mode != Resumed)
    case FreeLoading(i) => Answered(s, s.pool[i], true) && s.nodes[s.pool[i]].mode != Resumed
    case FreeLoaded(i, seen) =>
      Answered(s, s.pool[i], true) && s.nodes[s.pool[i]].mode != Resumed && seen.mode != Resumed
    case Releasing(i) => Answered(s, s.pool[i], true)
    case _ => true
  }

  predicate Answered(s: State, n: nat, done: bool)
    requires Shape(s) && n < |s.nodes|
  {
    if done then !s.working[n] else s.threads[n].Parked?
  }

  ghost predicate Polls(s: State)
    requires Shape(s)
  {
    Tokens(s) && Goroutines(s) && Suspensions(s) && Collects(s)
  }

  // ---- The count of active pollers ----

  function Sum<T>(f: T -> int, x: seq<T>): int {
    if |x| == 0 then 0 else f(x[0]) + Sum(f, x[1..])
  }

  lemma {:induction false} SumSet<T>(f: T -> int, x: seq<T>, i: nat, v: T)
    requires i < |x|
    ensures Sum(f, x[i := v]) == Sum(f, x) - f(x[i]) + f(v)
  {
    if i == 0 {
      assert x[i := v][1..] == x[1..];
    } else {
      assert x[i := v][1..] == x[1..][i - 1 := v];
      SumSet(f, x[1..], i - 1, v);
    }
  }

  function NeedBit(w: NodeWord): int {
    if Needs(w) then 1 else 0
  }

  /** Change of the poller count that a worker still owes. */
  function Owed(w: Worker): int {
    if w.Counting? || w.Counted? then (if w.up then 1 else -1) else 0
  }

  function LoopOwed(l: LoopAt): int {
    if l.Down? || l.DownLoaded? then -1 else 0
  }

  /** nActive plus the changes still owed is the number of nodes to poll plus the recorded excess. */
  ghost predicate Counts(s: State) {
    s.word.nActive + Sum(Owed, s.threads) + LoopOwed(s.loop) == Sum(NeedBit, s.nodes) + s.clamps
  }

  lemma CountsThread(s: State, t: nat, w: Worker)
    requires Counts(s) && t < |s.threads| && Owed(w) == Owed(s.threads[t])
    ensures Sum(Owed, s.threads[t := w]) == Sum(Owed, s.threads)
  {
    SumSet(Owed, s.threads, t, w);
  }

  lemma CountsCommit(s: State, t: nat, n: nat, call: Call, o: Outcome)
    requires Counts(s) && t < |s.threads| && n < |s.nodes| == |s.owner| && o.Update? && Owed(s.threads[t]) == 0
    ensures Counts(Commit(s, t, n, call, o))
  {
    hide Sum, Needs, RestOf;
    var s' := Commit(s, t, n, call, o);
    SumSet(Owed, s.threads, t, s'.threads[t]);
    SumSet(NeedBit, s.nodes, n, o.word);
  }

  lemma CountsTrySwap(s: State, t: nat)
    requires Shape(s) && Words(s) && Counts(s) && t < |s.threads| && s.threads[t].Loaded?
    ensures Counts(TrySwap(s, t))
  {
    hide Words, AddActivity, Sum, Needs, Commit;
    var n, o := s.threads[t].node, AddActivity(s.lim, s.threads[t].call, s.threads[t].da, s.threads[t].seen);
    if o.Update? && s.nodes[n] == s.threads[t].seen {
      CountsCommit(s, t, n, s.threads[t].call, o);
    } else {
      CountsThread(s, t, TrySwap(s, t).threads[t]);
    }
  }

  lemma CountsTryCount(s: State, t: nat)
    requires Shape(s) && Counts(s) && t < |s.threads| && s.threads[t].Counted?
    ensures Counts(TryCount(s, t))
  {
    hide Shape, Sum;
    var s' := TryCount(s, t);
    SumSet(Owed, s.threads, t, s'.threads[t]);
  }

  lemma CountsWork(s: State, t: nat)
    requires Shape(s) && Words(s) && Counts(s) && t < |s.threads|
    ensures Counts(Work1(s, t))
  {
    hide Shape, Words, TrySwap, TryCount, Sum, Needs, Counts;
    match s.threads[t] {
      case Loaded(_, _, _, _) => CountsTrySwap(s, t);
      case Counted(_, _, _, _) => CountsTryCount(s, t);
      case _ => CountsRest(s, t);
    }
  }

  /** Steps of a thread that touch neither a node's word nor the count. */
  lemma RestFrame(s: State, t: nat)
    requires Shape(s) && t < |s.threads| && !s.threads[t].Loaded? && !s.threads[t].Counted?
    ensures var s' := Work1(s, t);
      (s'.nodes == s.nodes && s'.loop == s.loop && s'.word == s.word && s'.clamps == s.clamps
       && |s'.threads| == |s.threads| && s'.threads == s.threads[t := s'.threads[t]]
       && Owed(s'.threads[t]) == Owed(s.threads[t]))
  {
    hide Shape, TrySwap, TryCount, AwaitLoop, Answer, Enqueue;
    var w := s.threads[t];
    if w.Idle? || w.Parked? { AwaitFrame(s, t); }
    if w.Parking? { AnswerFrame(s, t); }
    if w.Queueing? { EnqueueFrame(s, t); }
  }

  lemma AwaitFrame(s: State, t: nat)
    requires Shape(s) && t < |s.threads| && (s.threads[t].Idle? || s.threads[t].Parked?)
    ensures var s' := AwaitLoop(s, t);
      (s' == s.(threads := s'.threads, signals := s'.signals, working := s'.working)
       && |s'.threads| == |s.threads| && s'.threads == s.threads[t := s'.threads[t]] && Owed(s'.threads[t]) == 0)
  {
    hide Shape;
  }

  lemma AnswerFrame(s: State, t: nat)
    requires Shape(s) && t < |s.threads| && s.threads[t].Parking?
    ensures var w := s.threads[t];
      var s' := Answer(s, t, w.node, false, Parked(w.node, w.change), s.working[w.node]);
      (s' == s.(threads := s'.threads, answers := s'.answers, working := s'.working)
       && |s'.threads| == |s.threads| && s'.threads == s.threads[t := s'.threads[t]] && Owed(s'.threads[t]) == 0)
  {
    hide Shape;
  }

  lemma EnqueueFrame(s: State, t: nat)
    requires Shape(s) && t < |s.threads| && s.threads[t].Queueing?
    ensures var s' := Enqueue(s, t, s.threads[t].node);
      (s' == s.(threads := s'.threads, isPending := s'.isPending, owner := s'.owner, activePending := s'.activePending)
       && |s'.threads| == |s.threads| && s'.threads == s.threads[t := s'.threads[t]] && Owed(s'.threads[t]) == 0)
  {
    hide Shape;
  }

  lemma CountsRest(s: State, t: nat)
    requires Shape(s) && Counts(s) && t < |s.threads|
    requires !s.threads[t].Loaded? && !s.threads[t].Counted?
    ensures Counts(Work1(s, t))
  {
    hide Shape, Sum, Work1;
    RestFrame(s, t);
    CountsThread(s, t, Work1(s, t).threads[t]);
  }

  lemma CountsClearResume(s: State)
    requires Shape(s) && Words(s) && Counts(s) && s.loop.ResumeLoaded?
    ensures Counts(ClearResume(s))
  {
    var n, s' := s.pool[s.loop.slot], ClearResume(s);
    assert WordOk(s.lim, s.nodes[n]);
    assert s'.nodes == s.nodes[n := s'.nodes[n]];
    SumSet(NeedBit, s.nodes, n, s'.nodes[n]);
    hide Shape, Words, Sum;
  }

  lemma CountsMarkFree(s: State)
    requires Shape(s) && Words(s) && Polls(s) && Counts(s) && s.loop.FreeLoaded?
    ensures Counts(MarkFree(s))
  {
    var n, s' := s.pool[s.loop.slot], MarkFree(s);
    assert s'.nodes == s.nodes[n := s'.nodes[n]];
    SumSet(NeedBit, s.nodes, n, s'.nodes[n]);
    hide Shape, Sum;
  }

  lemma CountsCollect(s: State)
    requires Shape(s) && Words(s) && Polls(s) && Counts(s)
    ensures Counts(LoopCollect(s))
  {
    hide Shape, Words, Polls, Sum, ClearResume, MarkFree;
    if s.loop.ResumeLoaded? { CountsClearResume(s); }
    if s.loop.FreeLoaded? { CountsMarkFree(s); }
  }

  lemma CountsLoop(s: State, pick: Pick)
    requires Shape(s) && Words(s) && Polls(s) && Counts(s)
    ensures Counts(Loop1(s, pick))
  {
    hide Shape, Words, Polls, Sum, LoopScan, LoopCollect;
    CountsCollect(s);
    if s.loop.Pollers? || s.loop.Allocating? || s.loop.Scanning? || s.loop.Collecting? {
      ScanFrame(s, pick);
    }
  }

  lemma CountsKept(s: State, a: Action)
    requires Shape(s) && Words(s) && Polls(s) && Counts(s)
    ensures Counts(Next(s, a))
  {
    match a {
      case Begin(t, n, call) =>
        if t < |s.threads| { SumSet(Owed, s.threads, t, Next(s, a).threads[t]); }
        hide Shape, Words, Polls, Sum;
      case Done(n) =>
        if n < |s.threads| { SumSet(Owed, s.threads, n, Next(s, a).threads[n]); }
        hide Shape, Words, Polls, Sum;
      case Work(t) =>
        if t < |s.threads| { CountsWork(s, t); }
        hide Shape, Words, Polls, Work1, Sum;
      case Loop(pick) =>
        CountsLoop(s, pick);
        hide Shape, Words, Polls, Loop1, Sum;
      case Signal =>
    }
  }

  // ---- Who gets a poller ----

  predicate Requesting(w: Worker) {
    ((w.Counting? || w.Counted? || w.Waking?) && w.rest.Queue?) || w.Queueing?
  }

  /** Every request still with a worker is recorded there, and nowhere else. */
  ghost predicate HeldOk(s: State)
    requires Shape(s)
  {
    && (forall t :: 0 <= t < |s.threads| && Requesting(s.threads[t]) ==> s.owner[s.threads[t].node] == Held(t))
    && (forall n :: 0 <= n < |s.nodes| && s.owner[n].Held? ==>
          var t := s.owner[n].thread; t < |s.threads| && Requesting(s.threads[t]) && s.threads[t].node == n)
  }

  /** The vector being filled holds each queued node once, and `isPending` says which those are. */
  ghost predicate QueueOk(s: State)
    requires Shape(s)
  {
    var q := s.activePending[s.sequence % 2];
    && (forall p :: 0 <= p < |q| ==> s.owner[q[p]] == Queued(p))
    && (forall n :: 0 <= n < |s.nodes| && s.owner[n].Queued? ==> s.owner[n].pos < |q| && q[s.owner[n].pos] == n)
    && (forall n :: 0 <= n < |s.nodes| ==> (s.isPending[n] <==> s.owner[n].Queued?))
  }

  /** The vector being handed out is the other one, and nobody appends to it meanwhile. */
  ghost predicate BatchOk(s: State)
    requires Shape(s)
  {
    && (s.loop.Allocating? ==>
          var q := s.activePending[s.loop.vec];
          && s.loop.vec == 1 - s.sequence % 2
          && s.loop.len == |q|
          && (forall p :: s.loop.k <= p < |q| ==> s.owner[q[p]] == Taken(p)))
    && (forall n :: 0 <= n < |s.nodes| && s.owner[n].Taken? ==>
          && s.loop.Allocating?
          && s.loop.k <= s.owner[n].pos < s.loop.len
          && s.activePending[s.loop.vec][s.owner[n].pos] == n)
  }

  /** Pool slots and `activePollerIndex` are inverse to each other. */
  ghost predicate PoolOk(s: State)
    requires Shape(s)
  {
    && (forall i :: 0 <= i < |s.pool| && s.pool[i] >= 0 ==>
          && s.pollerIndex[s.pool[i]] == i
          && (s.owner[s.pool[i]] == Pooled(i) || s.loop == Releasing(i)))
    && (forall n :: 0 <= n < |s.nodes| && s.pollerIndex[n] >= 0 ==> s.pool[s.pollerIndex[n]] == n)
    && (forall n :: 0 <= n < |s.nodes| && s.owner[n].Pooled? ==>
          s.owner[n].slot < |s.pool| && s.pool[s.owner[n].slot] == n)
    && (s.loop.Releasing? ==> !s.owner[s.pool[s.loop.slot]].Pooled?)
  }

  /** A node has a poller, or one request for it, exactly while it is not inactive. */
  ghost predicate ModesOk(s: State)
    requires Shape(s)
  {
    !s.fault && forall n :: 0 <= n < |s.nodes| ==> (s.nodes[n].mode != Inactive <==> s.owner[n] != Nowhere)
  }

  ghost predicate Owners(s: State)
    requires Shape(s)
  {
    HeldOk(s) && QueueOk(s) && BatchOk(s) && PoolOk(s) && ModesOk(s)
  }

  /** A node whose goroutine works on a poll has a poller, and is not inactive. */
  lemma PolledActive(s: State, n: nat)
    requires Shape(s) && Polls(s) && Owners(s) && n < |s.nodes| && Busy(s, n)
    ensures Due(s, n) && s.owner[n].Pooled? && s.nodes[n].mode != Inactive
  {
    hide HeldOk, QueueOk, BatchOk, Suspensions, Collects, Goroutines;
  }

  /** A worker that goes on with the same request, or still without one. */
  lemma OwnersMove(s: State, s': State, t: nat)
    requires Shape(s) && Owners(s) && Shape(s') && t < |s.threads|
    requires s' == s.(threads := s'.threads, word := s'.word, events := s'.events, clamps := s'.clamps,
                      crashed := s'.crashed, signals := s'.signals, answers := s'.answers, working := s'.working)
    requires |s'.threads| == |s.threads| && s'.threads == s.threads[t := s'.threads[t]]
    requires Requesting(s'.threads[t]) <==> Requesting(s.threads[t])
    requires Requesting(s.threads[t]) ==> s'.threads[t].node == s.threads[t].node
    ensures Owners(s')
  {
    hide Requesting;
    assert HeldOk(s');
  }

  /** What committing node n's new word does to requests: thread t takes one up if alloc says so. */
  ghost predicate TakesUp(s: State, s': State, t: nat, n: nat, alloc: bool)
    requires Shape(s) && t < |s.threads| && n < |s.nodes|
  {
    && s' == s.(nodes := s'.nodes, threads := s'.threads, owner := s'.owner)
    && |s'.threads| == |s.threads| && s'.threads == s.threads[t := s'.threads[t]]
    && !Requesting(s.threads[t]) && (Requesting(s'.threads[t]) <==> alloc)
    && (alloc ==> s'.threads[t].node == n && s.owner[n] == Nowhere)
    && s'.owner == if alloc then s.owner[n := Held(t)] else s.owner
  }

  lemma TakesUpHeld(s: State, s': State, t: nat, n: nat, alloc: bool)
    requires Shape(s) && Shape(s') && t < |s.threads| && n < |s.nodes| && TakesUp(s, s', t, n, alloc) && HeldOk(s)
    ensures HeldOk(s')
  {
    assert forall k :: 0 <= k < |s.threads| && k != t ==> s'.threads[k] == s.threads[k];
  }

  lemma TakesUpQueue(s: State, s': State, t: nat, n: nat, alloc: bool)
    requires Shape(s) && Shape(s') && t < |s.threads| && n < |s.nodes| && TakesUp(s, s', t, n, alloc) && QueueOk(s)
    ensures QueueOk(s')
  {
    hide Requesting;
  }

  lemma TakesUpBatch(s: State, s': State, t: nat, n: nat, alloc: bool)
    requires Shape(s) && Shape(s') && t < |s.threads| && n < |s.nodes| && TakesUp(s, s', t, n, alloc) && BatchOk(s)
    ensures BatchOk(s')
  {
    hide Requesting;
  }

  lemma TakesUpPool(s: State, s': State, t: nat, n: nat, alloc: bool)
    requires Shape(s) && Shape(s') && t < |s.threads| && n < |s.nodes| && TakesUp(s, s', t, n, alloc) && PoolOk(s)
    ensures PoolOk(s')
  {
    hide Requesting;
  }

  lemma CommitTakesUp(s: State, t: nat, n: nat, call: Call, o: Outcome)
    requires Shape(s) && t < |s.threads| && n < |s.nodes| && o.Update? && ModesOk(s)
    requires !Requesting(s.threads[t]) && (o.alloc ==> s.nodes[n].mode == Inactive)
    ensures TakesUp(s, Commit(s, t, n, call, o), t, n, o.alloc)
  {
    hide Needs;
  }

  lemma CommitModes(s: State, t: nat, n: nat, call: Call, o: Outcome)
    requires Shape(s) && t < |s.threads| && n < |s.nodes| && o.Update? && ModesOk(s)
    requires Shape(Commit(s, t, n, call, o))
    requires o.alloc ==> s.nodes[n].mode == Inactive && o.word.mode == Active
    requires s.nodes[n].mode == Inactive && o.word.mode != Inactive ==> o.alloc
    requires s.nodes[n].mode != Inactive ==> o.word.mode != Inactive
    ensures ModesOk(Commit(s, t, n, call, o))
  {
    hide Needs, RestOf;
  }

  lemma OwnersCommit(s: State, t: nat, n: nat, call: Call, o: Outcome)
    requires Shape(s) && Owners(s) && t < |s.threads| && n < |s.nodes| && o.Update?
    requires Shape(Commit(s, t, n, call, o)) && !Requesting(s.threads[t])
    requires o.alloc ==> s.nodes[n].mode == Inactive && o.word.mode == Active
    requires s.nodes[n].mode == Inactive && o.word.mode != Inactive ==> o.alloc
    requires s.nodes[n].mode != Inactive ==> o.word.mode != Inactive
    ensures Owners(Commit(s, t, n, call, o))
  {
    hide Commit, TakesUp, HeldOk, QueueOk, BatchOk, PoolOk, ModesOk;
    var s' := Commit(s, t, n, call, o);
    CommitTakesUp(s, t, n, call, o);
    TakesUpHeld(s, s', t, n, o.alloc);
    TakesUpQueue(s, s', t, n, o.alloc);
    TakesUpBatch(s, s', t, n, o.alloc);
    TakesUpPool(s, s', t, n, o.alloc);
    CommitModes(s, t, n, call, o);
  }

  lemma OwnersTrySwap(s: State, t: nat)
    requires Shape(s) && Words(s) && Polls(s) && Owners(s) && t < |s.threads| && s.threads[t].Loaded?
    requires Shape(TrySwap(s, t))
    ensures Owners(TrySwap(s, t))
  {
    var w := s.threads[t];
    var o := AddActivity(s.lim, w.call, w.da, w.seen);
    assert WordOk(s.lim, s.nodes[w.node]);
    if o.Update? && s.nodes[w.node] == w.seen {
      AddActivityOk(s.lim, w.call, w.da, w.seen);
      if w.call.Suspend? && w.call.change > 0 { PolledActive(s, w.node); }
    }
    hide AddActivity, Needs, Words, Polls, Owners, Commit;
    if o.Update? && s.nodes[w.node] == w.seen {
      OwnersCommit(s, t, w.node, w.call, o);
    } else {
      OwnersMove(s, TrySwap(s, t), t);
    }
  }

  lemma OwnersTryCount(s: State, t: nat)
    requires Shape(s) && Owners(s) && t < |s.threads| && s.threads[t].Counted?
    requires Shape(TryCount(s, t))
    ensures Owners(TryCount(s, t))
  {
    hide ChangeActive, Owners;
    OwnersMove(s, TryCount(s, t), t);
  }

  lemma EnqueueHeld(s: State, t: nat)
    requires Shape(s) && Owners(s) && t < |s.threads| && s.threads[t].Queueing?
    requires Shape(Enqueue(s, t, s.threads[t].node))
    ensures var s' := Enqueue(s, t, s.threads[t].node); HeldOk(s')
  {
    hide BatchOk, PoolOk, ModesOk;
  }

  lemma EnqueueQueue(s: State, t: nat)
    requires Shape(s) && Owners(s) && t < |s.threads| && s.threads[t].Queueing?
    requires Shape(Enqueue(s, t, s.threads[t].node))
    ensures var s' := Enqueue(s, t, s.threads[t].node); QueueOk(s')
  {
    hide BatchOk, PoolOk, ModesOk;
  }

  lemma EnqueueBatch(s: State, t: nat)
    requires Shape(s) && Owners(s) && t < |s.threads| && s.threads[t].Queueing?
    requires Shape(Enqueue(s, t, s.threads[t].node))
    ensures var s' := Enqueue(s, t, s.threads[t].node); BatchOk(s')
  {
    hide PoolOk, ModesOk;
  }

  lemma EnqueuePool(s: State, t: nat)
    requires Shape(s) && Owners(s) && t < |s.threads| && s.threads[t].Queueing?
    requires Shape(Enqueue(s, t, s.threads[t].node))
    ensures var s' := Enqueue(s, t, s.threads[t].node); PoolOk(s') && ModesOk(s')
  {
    hide QueueOk, BatchOk;
  }

  lemma OwnersEnqueue(s: State, t: nat)
    requires Shape(s) && Owners(s) && t < |s.threads| && s.threads[t].Queueing?
    requires Shape(Enqueue(s, t, s.threads[t].node))
    ensures Owners(Enqueue(s, t, s.threads[t].node))
  {
    EnqueueHeld(s, t);
    EnqueueQueue(s, t);
    EnqueueBatch(s, t);
    EnqueuePool(s, t);
    hide HeldOk, QueueOk, BatchOk, PoolOk, ModesOk;
  }

  lemma OwnersTakeHeld(s: State)
    requires Shape(s) && Owners(s) && s.loop.Pollers?
    requires Shape(TakePending(s))
    ensures var s' := TakePending(s); HeldOk(s')
  {
    hide BatchOk, PoolOk, ModesOk;
  }

  lemma OwnersTakeQueue(s: State)
    requires Shape(s) && Owners(s) && s.loop.Pollers?
    requires Shape(TakePending(s))
    ensures QueueOk(TakePending(s))
  {
    hide HeldOk, BatchOk, PoolOk, ModesOk;
    var s' := TakePending(s);
    assert s'.activePending[s'.sequence % 2] == [];
    assert forall n :: 0 <= n < |s.nodes| && s.owner[n].Queued? ==> n in s.activePending[s.sequence % 2];
  }

  lemma OwnersTakeBatch(s: State)
    requires Shape(s) && Owners(s) && s.loop.Pollers?
    requires Shape(TakePending(s))
    ensures var s' := TakePending(s); BatchOk(s')
  {
    hide HeldOk, PoolOk, ModesOk;
  }

  lemma OwnersTakePool(s: State)
    requires Shape(s) && Owners(s) && s.loop.Pollers?
    requires Shape(TakePending(s))
    ensures var s' := TakePending(s); PoolOk(s') && ModesOk(s')
  {
  }

  lemma OwnersTake(s: State)
    requires Shape(s) && Owners(s) && s.loop.Pollers?
    requires Shape(TakePending(s))
    ensures Owners(TakePending(s))
  {
    OwnersTakeHeld(s);
    OwnersTakeQueue(s);
    OwnersTakeBatch(s);
    OwnersTakePool(s);
    hide HeldOk, QueueOk, BatchOk, PoolOk, ModesOk;
  }

  /** Requests and queue do not notice a node that neither has. */
  lemma HandOver(s: State, s': State, n: nat)
    requires Shape(s) && HeldOk(s) && QueueOk(s) && Shape(s') && n < |s.nodes|
    requires s'.threads == s.threads && s'.isPending == s.isPending && s'.nodes == s.nodes
    requires s'.activePending == s.activePending && s'.sequence == s.sequence
    requires s'.owner == s.owner[n := s'.owner[n]]
    requires !s.owner[n].Held? && !s.owner[n].Queued? && !s'.owner[n].Held? && !s'.owner[n].Queued?
    ensures HeldOk(s') && QueueOk(s')
  {
  }

  lemma OwnersAllocRequests(s: State, pick: nat)
    requires Shape(s) && Owners(s) && s.loop.Allocating? && s.loop.k < s.loop.len
    requires Shape(Alloc(s, s.loop.vec, s.loop.len, s.loop.k, pick))
    ensures var s' := Alloc(s, s.loop.vec, s.loop.len, s.loop.k, pick); HeldOk(s') && QueueOk(s')
  {
    var n, s' := s.activePending[s.loop.vec][s.loop.k], Alloc(s, s.loop.vec, s.loop.len, s.loop.k, pick);
    assert s.owner[n] == Taken(s.loop.k);
    hide PoolOk, ModesOk, HeldOk, QueueOk, Shape;
    HandOver(s, s', n);
  }

  lemma OwnersAllocBatch(s: State, pick: nat)
    requires Shape(s) && Owners(s) && s.loop.Allocating? && s.loop.k < s.loop.len
    requires Shape(Alloc(s, s.loop.vec, s.loop.len, s.loop.k, pick))
    ensures BatchOk(Alloc(s, s.loop.vec, s.loop.len, s.loop.k, pick))
  {
    hide PoolOk, ModesOk, HeldOk, QueueOk;
  }

  /** A node without a poller gets the one of a slot that was free. */
  lemma NewPoller(s: State, s': State, n: nat, slot: nat)
    requires Shape(s) && Shape(s') && PoolOk(s) && n < |s.nodes| == |s'.nodes|
    requires !s.owner[n].Pooled? && s.pollerIndex[n] < 0 && !s.loop.Releasing? && !s'.loop.Releasing?
    requires slot < |s.pool| ==> s.pool[slot] < 0 && s'.pool == s.pool[slot := n]
    requires slot >= |s.pool| ==> slot == |s.pool| && s'.pool == s.pool + [n]
    requires s'.pollerIndex == s.pollerIndex[n := slot] && s'.owner == s.owner[n := Pooled(slot)]
    ensures PoolOk(s')
  {
  }

  lemma OwnersAllocPool(s: State, pick: nat)
    requires Shape(s) && Owners(s) && s.loop.Allocating? && s.loop.k < s.loop.len
    requires Shape(Alloc(s, s.loop.vec, s.loop.len, s.loop.k, pick))
    ensures var s' := Alloc(s, s.loop.vec, s.loop.len, s.loop.k, pick); PoolOk(s')
  {
    hide PoolOk, HeldOk, QueueOk, ModesOk;
    var s' := Alloc(s, s.loop.vec, s.loop.len, s.loop.k, pick);
    var n := s.activePending[s.loop.vec][s.loop.k];
    assert s.owner[n] == Taken(s.loop.k);
    if s.pollerIndex[n] >= 0 || s'.pool == s.pool {
      SamePool(s, s');
    } else {
      NewPoller(s, s', n, if |s'.pool| > |s.pool| then |s.pool| else pick);
    }
  }

  lemma SamePool(s: State, s': State)
    requires Shape(s) && Shape(s') && PoolOk(s) && !s.loop.Releasing? && !s'.loop.Releasing?
    requires s'.pool == s.pool && s'.pollerIndex == s.pollerIndex && s'.owner == s.owner
    ensures PoolOk(s')
  {
  }

  lemma OwnersAllocModes(s: State, pick: nat)
    requires Shape(s) && Owners(s) && s.loop.Allocating? && s.loop.k < s.loop.len
    requires Shape(Alloc(s, s.loop.vec, s.loop.len, s.loop.k, pick))
    ensures var s' := Alloc(s, s.loop.vec, s.loop.len, s.loop.k, pick); ModesOk(s')
  {
    hide HeldOk, QueueOk;
  }

  lemma OwnersAlloc(s: State, pick: nat)
    requires Shape(s) && Owners(s) && s.loop.Allocating? && s.loop.k < s.loop.len
    requires Shape(Alloc(s, s.loop.vec, s.loop.len, s.loop.k, pick))
    ensures Owners(Alloc(s, s.loop.vec, s.loop.len, s.loop.k, pick))
  {
    OwnersAllocRequests(s, pick);
    OwnersAllocBatch(s, pick);
    OwnersAllocPool(s, pick);
    OwnersAllocModes(s, pick);
    hide HeldOk, QueueOk, BatchOk, PoolOk, ModesOk;
  }

  /** The swap of `maybeClearResume` changes a node's word and the loop's place, nothing else. */
  lemma ClearResumeFrame(s: State)
    requires Shape(s) && s.loop.ResumeLoaded?
    ensures var s' := ClearResume(s);
      (s' == s.(nodes := s'.nodes, loop := s'.loop) && |s'.nodes| == |s.nodes|
       && !s'.loop.Allocating? && !s'.loop.Releasing?)
  {
  }

  lemma ClearResumeModes(s: State)
    requires Shape(s) && Owners(s) && s.loop.ResumeLoaded?
    requires Shape(ClearResume(s))
    ensures ModesOk(ClearResume(s))
  {
    hide HeldOk, QueueOk, BatchOk;
  }

  lemma OwnersClearResume(s: State)
    requires Shape(s) && Words(s) && Owners(s) && s.loop.ResumeLoaded?
    requires Shape(ClearResume(s))
    ensures Owners(ClearResume(s))
  {
    ClearResumeFrame(s);
    ClearResumeModes(s);
    hide ClearResume, ModesOk;
  }

  lemma MarkFreeHeld(s: State)
    requires Shape(s) && Words(s) && Owners(s) && s.loop.FreeLoaded?
    requires Shape(MarkFree(s))
    ensures HeldOk(MarkFree(s))
  {
    hide QueueOk, BatchOk, ModesOk;
  }

  lemma OwnersMarkFreeRequests(s: State)
    requires Shape(s) && Words(s) && Owners(s) && s.loop.FreeLoaded?
    requires Shape(MarkFree(s))
    ensures var s' := MarkFree(s); QueueOk(s') && BatchOk(s')
  {
    hide HeldOk, ModesOk;
  }

  lemma MarkFreeModes(s: State)
    requires Shape(s) && Words(s) && Owners(s) && s.loop.FreeLoaded?
    requires Shape(MarkFree(s))
    ensures ModesOk(MarkFree(s))
  {
    hide HeldOk, QueueOk, BatchOk;
  }

  lemma OwnersMarkFreePool(s: State)
    requires Shape(s) && Words(s) && Owners(s) && s.loop.FreeLoaded?
    requires Shape(MarkFree(s))
    ensures PoolOk(MarkFree(s))
  {
    hide HeldOk, QueueOk, BatchOk, ModesOk;
  }

  lemma OwnersMarkFree(s: State)
    requires Shape(s) && Words(s) && Owners(s) && s.loop.FreeLoaded?
    requires Shape(MarkFree(s))
    ensures Owners(MarkFree(s))
  {
    MarkFreeHeld(s);
    OwnersMarkFreeRequests(s);
    OwnersMarkFreePool(s);
    MarkFreeModes(s);
    hide HeldOk, QueueOk, BatchOk, PoolOk, ModesOk;
  }

  lemma OwnersRelease(s: State)
    requires Shape(s) && Owners(s) && s.loop.Releasing?
    requires Shape(Release(s, s.loop.slot))
    ensures Owners(Release(s, s.loop.slot))
  {
  }

  lemma OwnersWork(s: State, t: nat)
    requires Shape(s) && Words(s) && Polls(s) && Owners(s) && t < |s.threads| && Shape(Work1(s, t))
    ensures Owners(Work1(s, t))
  {
    hide Words, Polls, Owners, TrySwap, TryCount, Enqueue;
    match s.threads[t] {
      case Loaded(_, _, _, _) => OwnersTrySwap(s, t);
      case Counted(_, _, _, _) => OwnersTryCount(s, t);
      case Queueing(_) => OwnersEnqueue(s, t);
      case _ => OwnersMove(s, Work1(s, t), t);
    }
  }

  /** A loop step that only moves on, between places that hand out nothing. */
  lemma OwnersStep(s: State, s': State)
    requires Shape(s) && Owners(s) && Shape(s')
    requires s' == s.(loop := s'.loop, isPolling := s'.isPolling, word := s'.word, events := s'.events,
                      clamps := s'.clamps, signals := s'.signals, answers := s'.answers)
    requires !s'.loop.Allocating? && !s'.loop.Releasing? && !s.loop.Releasing?
    requires s.loop.Allocating? ==> s.loop.k == s.loop.len
    ensures Owners(s')
  {
  }

  lemma OwnersScan(s: State, pick: Pick)
    requires Shape(s) && Owners(s) && Shape(LoopScan(s, pick))
    ensures Owners(LoopScan(s, pick))
  {
    hide Owners, TakePending, Alloc, Needs, StartPoll, AwaitPoll;
    match s.loop {
      case Pollers => OwnersTake(s);
      case Allocating(_, len, k) =>
        if k < len { OwnersAlloc(s, pick.slot); } else { OwnersStep(s, LoopScan(s, pick)); }
      case Scanning(_) => OwnersScanning(s, pick);
      case Collecting(_) => OwnersScanning(s, pick);
      case _ =>
    }
  }

  lemma OwnersScanning(s: State, pick: Pick)
    requires Shape(s) && Owners(s) && Shape(LoopScan(s, pick)) && (s.loop.Scanning? || s.loop.Collecting?)
    ensures Owners(LoopScan(s, pick))
  {
    hide Owners, Needs;
    OwnersStep(s, LoopScan(s, pick));
  }

  lemma OwnersCollect(s: State)
    requires Shape(s) && Words(s) && Owners(s) && Shape(LoopCollect(s))
    ensures Owners(LoopCollect(s))
  {
    hide Words, Owners, ClearResume, MarkFree, Release, ChangeActive;
    match s.loop {
      case ResumeLoaded(_, _, _) => OwnersClearResume(s);
      case FreeLoaded(_, _) => OwnersMarkFree(s);
      case Releasing(_) => OwnersRelease(s);
      case ResumeLoading(_, _) => OwnersChecks(s);
      case FreeLoading(_) => OwnersChecks(s);
      case Down(_, _) => OwnersChecks(s);
      case DownLoaded(_, _, _) => OwnersChecks(s);
      case _ =>
    }
  }

  predicate Checking(l: LoopAt) {
    l.ResumeLoading? || l.Down? || l.DownLoaded? || l.FreeLoading?
  }

  lemma OwnersChecks(s: State)
    requires Shape(s) && Owners(s) && Checking(s.loop) && Shape(LoopCollect(s))
    ensures Owners(LoopCollect(s))
  {
    hide Owners, ChangeActive, Needs;
    OwnersStep(s, LoopCollect(s));
  }

  lemma OwnersLoop(s: State, pick: Pick)
    requires Shape(s) && Words(s) && Owners(s) && Shape(Loop1(s, pick))
    ensures Owners(Loop1(s, pick))
  {
    hide Shape, Words, Owners, LoopScan, LoopCollect;
    if s.loop.Pollers? || s.loop.Allocating? || s.loop.Scanning? || s.loop.Collecting? {
      OwnersScan(s, pick);
    } else if s.loop.Events? || s.loop.WaitLoaded? || s.loop.Sleeping? || s.loop.Clearing? || s.loop.ClearLoaded?
       || s.loop.NoWait? {
      OwnersStep(s, Loop1(s, pick));
    } else {
      OwnersCollect(s);
    }
  }

  lemma OwnersKept(s: State, a: Action)
    requires Shape(s) && Words(s) && Polls(s) && Owners(s) && Shape(Next(s, a))
    ensures Owners(Next(s, a))
  {
    hide Shape, Words, Polls, Owners, Work1, Loop1;
    match a {
      case Begin(t, n, call) => if !s.crashed { OwnersBegin(s, t, n, call); }
      case Done(n) => if n < |s.nodes| { OwnersDone(s, n); }
      case Work(t) => if !s.crashed && t < |s.threads| { OwnersWork(s, t); }
      case Loop(pick) => if !s.crashed { OwnersLoop(s, pick); }
      case Signal => OwnersSignal(s, Next(s, a));
    }
  }

  lemma OwnersBegin(s: State, t: nat, n: nat, call: Call)
    requires Shape(s) && Owners(s) && Shape(BeginCall(s, t, n, call))
    ensures Owners(BeginCall(s, t, n, call))
  {
    hide Owners;
    var s' := BeginCall(s, t, n, call);
    if s'.threads != s.threads {
      OwnersMove(s, s', t);
    } else {
      OwnersSignal(s, s');
    }
  }

  lemma OwnersDone(s: State, n: nat)
    requires Shape(s) && Owners(s) && n < |s.nodes| && Shape(Next(s, Done(n)))
    ensures Owners(Next(s, Done(n)))
  {
    hide Owners;
    var s' := Next(s, Done(n));
    assert s'.threads == s.threads;
    OwnersSignal(s, s');
  }

  lemma OwnersSignal(s: State, s': State)
    requires Shape(s) && Owners(s) && Shape(s')
    requires s' == s.(events := s'.events, crashed := s'.crashed, answers := s'.answers, working := s'.working)
    ensures Owners(s')
  {
  }

  // ---- What polling keeps ----

  /** A thread that goes on without waiting for the loop. */
  lemma PollsMove(s: State, s': State, t: nat)
    requires Shape(s) && Shape(s') && Polls(s) && t < |s.threads| == |s'.threads|
    requires s' == s.(threads := s'.threads, word := s'.word, events := s'.events, clamps := s'.clamps,
                      crashed := s'.crashed, isPending := s'.isPending, activePending := s'.activePending,
                      owner := s'.owner)
    requires s'.threads == s.threads[t := s'.threads[t]]
    requires !s.threads[t].Parked? && !s'.threads[t].Parked? && (Parks(s.threads[t]) ==> Parks(s'.threads[t]))
    requires t < |s.nodes| && !s'.threads[t].Idle? ==> s.working[t]
    requires Adding(s'.threads[t]) ==> t == s'.threads[t].node
    requires Parks(s'.threads[t]) ==> ParkChange(s'.threads[t])
    ensures Polls(s')
  {
    hide Adding, Parks, ParkChange, Tokens;
    assert forall u :: 0 <= u < |s.threads| && u != t ==> s'.threads[u] == s.threads[u];
    MoveTokens(s, s', t);
  }

  lemma MoveTokens(s: State, s': State, t: nat)
    requires Shape(s) && Shape(s') && Tokens(s) && t < |s.threads| == |s'.threads|
    requires s' == s.(threads := s'.threads, word := s'.word, events := s'.events, clamps := s'.clamps,
                      crashed := s'.crashed, isPending := s'.isPending, activePending := s'.activePending,
                      owner := s'.owner)
    requires s'.threads == s.threads[t := s'.threads[t]] && !s.threads[t].Parked? && !s'.threads[t].Parked?
    ensures Tokens(s')
  {
    hide LoopInPool;
    assert forall n :: 0 <= n < |s.nodes| && n != t ==> s'.threads[n] == s.threads[n];
    assert forall n :: 0 <= n < |s.nodes| ==> Due(s', n) == Due(s, n) && Busy(s', n) == Busy(s, n);
  }

  lemma PollsSame(s: State, s': State)
    requires Shape(s) && Shape(s') && Polls(s)
    requires s' == s.(events := s'.events, crashed := s'.crashed)
    ensures Polls(s')
  {
    assert forall n :: 0 <= n < |s.nodes| ==> Due(s', n) == Due(s, n) && Busy(s', n) == Busy(s, n);
  }

  lemma AddActivityModes(lim: Limits, call: Call, da: int, w: NodeWord)
    requires AddActivity(lim, call, da, w).Update?
    ensures var o := AddActivity(lim, call, da, w);
      && (o.word.mode == Suspended ==> w.mode == Suspended || o.didSuspend)
      && (o.word.mode == Resumed ==> w.mode == Resumed || w.mode == Suspended)
      && (o.didSuspend ==> call.Suspend? && call.change > 0 && w.mode != Suspended)
      && (o.alloc ==> !o.didSuspend)
  {
    hide Wrap32;
  }

  lemma BusyDue(s: State, n: nat)
    requires Shape(s) && Tokens(s) && n < |s.nodes| && Busy(s, n)
    ensures Due(s, n) && !s.signals[n] && s.answers[n] == None
  {
    assert One(s.signals[n]) + One(s.answers[n].Some?) + One(Busy(s, n)) == One(Due(s, n));
  }

  lemma CommitThread(s: State, t: nat, n: nat, call: Call, o: Outcome)
    requires t < |s.threads| && n < |s.nodes| == |s.owner| && o.Update?
    requires o.didSuspend ==> call.Suspend? && call.change > 0 && !o.alloc
    ensures var s' := Commit(s, t, n, call, o); var w := s'.threads[t];
      (s' == s.(nodes := s.nodes[n := o.word], threads := s.threads[t := w], owner := s'.owner)
       && !w.Parked? && !w.Loading? && !w.Loaded? && (Parks(w) <==> o.didSuspend)
       && (Parks(w) ==> w.node == n && ParkChange(w)))
  {
    hide Needs;
  }

  /** The swap of a node's word. */
  lemma PollsCommit(s: State, t: nat, n: nat, call: Call, o: Outcome)
    requires Shape(s) && Polls(s) && t < |s.threads| && n < |s.nodes| && o.Update?
    requires Shape(Commit(s, t, n, call, o))
    requires s.threads[t].Loaded? && s.threads[t].node == n && s.threads[t].call == call
    requires o.word.mode == Suspended ==> s.nodes[n].mode == Suspended || o.didSuspend
    requires o.word.mode == Resumed ==> s.nodes[n].mode == Resumed || s.nodes[n].mode == Suspended
    requires o.didSuspend ==> call.Suspend? && call.change > 0 && !o.alloc
    ensures Polls(Commit(s, t, n, call, o))
  {
    hide Needs, Tokens, Suspensions, Collects, Commit;
    var s' := Commit(s, t, n, call, o);
    CommitThread(s, t, n, call, o);
    if o.didSuspend {
      ThreadFacts(s, t);
      BusyDue(s, n);
    }
    assert forall m :: 0 <= m < |s.nodes| && m != t ==> s'.threads[m] == s.threads[m];
    assert forall u :: 0 <= u < |s.threads| && u != t ==> s'.threads[u] == s.threads[u];
    assert forall m :: 0 <= m < |s.nodes| ==> Due(s', m) == Due(s, m) && Busy(s', m) == Busy(s, m);
    TokensFrame(s, s');
    CommitSuspensions(s, s', t, n, o.didSuspend);
    CommitCollects(s, s', t, n);
  }

  lemma TokensFrame(s: State, s': State)
    requires Shape(s) && Shape(s') && Tokens(s) && |s'.nodes| == |s.nodes|
    requires s'.signals == s.signals && s'.answers == s.answers
    requires forall n :: 0 <= n < |s.nodes| ==> Due(s', n) == Due(s, n) && Busy(s', n) == Busy(s, n)
    ensures Tokens(s')
  {
    hide Due, Busy;
  }

  lemma CommitSuspensions(s: State, s': State, t: nat, n: nat, park: bool)
    requires Shape(s) && Shape(s') && Tokens(s) && Goroutines(s) && Suspensions(s)
    requires |s'.nodes| == |s.nodes| && |s'.threads| == |s.threads| && s'.signals == s.signals
    requires t < |s.threads| && n < |s.nodes| && s'.nodes == s.nodes[n := s'.nodes[n]]
    requires s'.threads == s.threads[t := s'.threads[t]] && s.threads[t].Loaded? && s.threads[t].node == n
    requires s'.nodes[n].mode == Suspended ==> s.nodes[n].mode == Suspended || park
    requires park ==> t == n && Busy(s, n) && Due(s, n) && Parks(s'.threads[t])
    ensures Suspensions(s')
  {
    hide Due;
    forall m | 0 <= m < |s.nodes| && s'.nodes[m].mode == Suspended ensures Parks(s'.threads[m]) && !s'.signals[m] {
      if m == n && park {
        assert One(s.signals[n]) + One(s.answers[n].Some?) + One(Busy(s, n)) == One(Due(s, n));
      } else {
        assert s.nodes[m].mode == Suspended;
        assert m != t;
      }
    }
  }

  lemma CommitCollects(s: State, s': State, t: nat, n: nat)
    requires Shape(s) && Shape(s') && Goroutines(s) && Suspensions(s) && Collects(s)
    requires s' == s.(nodes := s'.nodes, threads := s'.threads, owner := s'.owner)
    requires |s'.nodes| == |s.nodes| && |s'.threads| == |s.threads|
    requires t < |s.threads| && n < |s.nodes| && s'.nodes == s.nodes[n := s'.nodes[n]]
    requires s'.threads == s.threads[t := s'.threads[t]] && s.threads[t].Loaded?
    requires s'.nodes[n].mode == Resumed ==> s.nodes[n].mode == Resumed || s.nodes[n].mode == Suspended
    ensures Collects(s')
  {
    assert forall m :: 0 <= m < |s.nodes| && !s.working[m] ==> s.threads[m].Idle? && s.nodes[m].mode != Suspended;
  }

  lemma PollsTrySwap(s: State, t: nat)
    requires Shape(s) && Polls(s) && t < |s.threads| && s.threads[t].Loaded? && Shape(TrySwap(s, t))
    ensures Polls(TrySwap(s, t))
  {
    var w := s.threads[t];
    var o := AddActivity(s.lim, w.call, w.da, w.seen);
    assert Adding(w) ==> t == w.node;
    assert t < |s.nodes| ==> s.working[t];
    hide AddActivity, Needs, Polls, Commit;
    if o.Panic? {
      PollsSame(s, TrySwap(s, t));
    } else if s.nodes[w.node] == w.seen {
      AddActivityModes(s.lim, w.call, w.da, w.seen);
      PollsCommit(s, t, w.node, w.call, o);
    } else {
      PollsMove(s, TrySwap(s, t), t);
    }
  }

  /** A signal that has arrived is for a poll that the loop is not looking at. */
  lemma SignalDue(s: State, n: nat)
    requires Shape(s) && Tokens(s) && PoolOk(s) && n < |s.nodes| && s.signals[n]
    ensures Due(s, n) && s.answers[n] == None && !Busy(s, n)
    ensures (s.loop.ResumeLoading? || s.loop.ResumeLoaded? || s.loop.Down? || s.loop.DownLoaded? || s.loop.FreeLoading?
      || s.loop.FreeLoaded? || s.loop.Releasing?) ==> s.pool[s.loop.slot] != n
  {
    assert One(s.signals[n]) + One(s.answers[n].Some?) + One(Busy(s, n)) == One(Due(s, n));
  }

  /** What a goroutine does when the loop's signal arrives. */
  lemma PollsStart(s: State, s': State, n: nat, w: Worker)
    requires Shape(s) && Shape(s') && Polls(s) && PoolOk(s) && n < |s.nodes| && s.signals[n]
    requires s' == s.(signals := s.signals[n := false], working := s.working[n := true],
                      threads := s.threads[n := w])
    requires s.threads[n] == w == Idle || (s.threads[n].Parked? && s.threads[n].change > 0 && s.working[n]
      && w == Loading(n, Suspend(s.threads[n].change), 0))
    ensures Polls(s')
  {
    SignalDue(s, n);
    hide PoolOk;
    assert forall m :: 0 <= m < |s.nodes| ==> Due(s', m) == Due(s, m);
    assert forall m :: 0 <= m < |s.nodes| && m != n ==> Busy(s', m) == Busy(s, m) && s'.threads[m] == s.threads[m];
    assert forall u :: 0 <= u < |s.threads| && u != n ==> s'.threads[u] == s.threads[u];
    assert Busy(s', n);
    StartCollects(s, s', n);
  }

  lemma StartCollects(s: State, s': State, n: nat)
    requires Shape(s) && Shape(s') && Collects(s) && n < |s.nodes|
    requires s' == s.(signals := s'.signals, working := s'.working, threads := s'.threads)
    requires |s'.threads| == |s.threads| && s'.threads == s.threads[n := s'.threads[n]]
    requires s'.working == s.working[n := s'.working[n]]
    requires (s.loop.ResumeLoading? || s.loop.ResumeLoaded? || s.loop.Down? || s.loop.DownLoaded? || s.loop.FreeLoading?
      || s.loop.FreeLoaded? || s.loop.Releasing?) ==> s.pool[s.loop.slot] != n
    ensures Collects(s')
  {
  }

  /** The goroutine answers the loop: its poll is over, or it parks. */
  lemma PollsAnswer(s: State, n: nat, done: bool, w: Worker)
    requires Shape(s) && Polls(s) && n < |s.nodes| && s.working[n] && !s.threads[n].Parked?
    requires Shape(Answer(s, n, n, done, w, !done))
    requires if done then s.threads[n] == w == Idle
      else s.threads[n].Parking? && w == Parked(n, s.threads[n].change) && s.threads[n].node == n
    ensures s.answers[n] == None && Polls(Answer(s, n, n, done, w, !done))
  {
    var s' := Answer(s, n, n, done, w, !done);
    assert One(s.signals[n]) + One(s.answers[n].Some?) + One(Busy(s, n)) == One(Due(s, n));
    assert forall m :: 0 <= m < |s.nodes| ==> Due(s', m) == Due(s, m);
    hide Due;
    assert forall m :: 0 <= m < |s.nodes| && m != n ==> Busy(s', m) == Busy(s, m) && s'.threads[m] == s.threads[m];
    assert forall u :: 0 <= u < |s.threads| && u != n ==> s'.threads[u] == s.threads[u];
    assert !Busy(s', n);
    assert Suspensions(s');
    AnswerCollects(s, s', n);
  }

  lemma AnswerCollects(s: State, s': State, n: nat)
    requires Shape(s) && Shape(s') && Collects(s) && n < |s.nodes|
    requires s' == s.(answers := s'.answers, working := s'.working, threads := s'.threads)
    requires |s'.threads| == |s.threads| && s'.threads == s.threads[n := s'.threads[n]]
    requires s'.working == s.working[n := s'.working[n]] && s.working[n] && !s.threads[n].Parked?
    ensures Collects(s')
  {
  }

  lemma PollsAwait(s: State, t: nat)
    requires Shape(s) && Polls(s) && PoolOk(s) && t < |s.threads| && (s.threads[t].Idle? || s.threads[t].Parked?)
    requires Shape(AwaitLoop(s, t))
    ensures Polls(AwaitLoop(s, t))
  {
    ThreadFacts(s, t);
    hide PoolOk, Polls;
    var s' := AwaitLoop(s, t);
    if s' != s {
      if s.threads[t].Idle? {
        assert s.threads[t := Idle] == s.threads;
        PollsStart(s, s', t, Idle);
      } else {
        assert s.working[t := true] == s.working;
        PollsStart(s, s', t, Loading(t, Suspend(s.threads[t].change), 0));
      }
    }
  }

  lemma PollsPark(s: State, t: nat)
    requires Shape(s) && Polls(s) && t < |s.threads| && s.threads[t].Parking?
    requires Shape(Work1(s, t))
    ensures Polls(Work1(s, t))
  {
    ThreadFacts(s, t);
    hide Polls, Answer;
    assert s.working[t := true] == s.working;
    PollsAnswer(s, t, false, Parked(t, s.threads[t].change));
  }

  lemma PollsRest(s: State, t: nat)
    requires Shape(s) && Polls(s) && t < |s.threads| && Shape(Work1(s, t))
    requires s.threads[t].Loading? || s.threads[t].Counting? || s.threads[t].Waking?
    ensures Polls(Work1(s, t))
  {
    ThreadFacts(s, t);
    hide Polls;
    PollsMove(s, Work1(s, t), t);
  }

  lemma ThreadFacts(s: State, t: nat)
    requires Shape(s) && Goroutines(s) && t < |s.threads|
    ensures t < |s.nodes| && !s.threads[t].Idle? ==> s.working[t]
    ensures Adding(s.threads[t]) ==> t == s.threads[t].node < |s.nodes|
    ensures Parks(s.threads[t]) ==> Adding(s.threads[t]) && ParkChange(s.threads[t])
  {
  }

  lemma PollsWork(s: State, t: nat)
    requires Shape(s) && Polls(s) && Owners(s) && t < |s.threads| && Shape(Work1(s, t))
    ensures Polls(Work1(s, t))
  {
    hide TrySwap, TryCount, Enqueue, AwaitLoop, Answer, Polls, Owners, Finish;
    match s.threads[t] {
      case Idle => OwnersPool(s); PollsAwait(s, t);
      case Parked(_, _) => OwnersPool(s); PollsAwait(s, t);
      case Parking(_, _) => PollsPark(s, t);
      case Loaded(_, _, _, _) => PollsTrySwap(s, t);
      case Counted(_, _, _, _) => PollsTryCount(s, t);
      case Queueing(_) => PollsEnqueue(s, t);
      case _ => PollsRest(s, t);
    }
  }

  lemma OwnersPool(s: State)
    requires Shape(s) && Owners(s)
    ensures PoolOk(s)
  {
  }

  lemma PollsTryCount(s: State, t: nat)
    requires Shape(s) && Polls(s) && t < |s.threads| && s.threads[t].Counted? && Shape(TryCount(s, t))
    ensures Polls(TryCount(s, t))
  {
    hide TryCount, Polls;
    PollsFacts(s, t);
    CountMove(s, t);
    PollsMove(s, TryCount(s, t), t);
  }

  lemma PollsFacts(s: State, t: nat)
    requires Shape(s) && Polls(s) && t < |s.threads|
    ensures t < |s.nodes| && !s.threads[t].Idle? ==> s.working[t]
    ensures Adding(s.threads[t]) ==> t == s.threads[t].node < |s.nodes|
    ensures Parks(s.threads[t]) ==> Adding(s.threads[t]) && ParkChange(s.threads[t])
  {
    hide Shape;
    ThreadFacts(s, t);
  }

  /** What a swap of the loop word changes, and that it leads on to the same rest. */
  lemma CountMove(s: State, t: nat)
    requires Shape(s) && t < |s.threads| && s.threads[t].Counted?
    ensures var w, s' := s.threads[t], TryCount(s, t); var w' := s'.threads[t];
      && s' == s.(threads := s'.threads, word := s'.word, clamps := s'.clamps, crashed := s'.crashed)
      && |s'.threads| == |s.threads| && s'.threads == s.threads[t := w'] && !w'.Parked?
      && (w'.Idle? || w'.node == w.node)
      && (Parks(w') <==> Parks(w)) && (Parks(w) ==> (ParkChange(w') <==> ParkChange(w)))
      && (Adding(w') ==> Parks(w'))
  {
    hide Shape, ChangeActive;
  }

  lemma PollsEnqueue(s: State, t: nat)
    requires Shape(s) && Polls(s) && t < |s.threads| && s.threads[t].Queueing?
    requires Shape(Enqueue(s, t, s.threads[t].node))
    ensures Polls(Enqueue(s, t, s.threads[t].node))
  {
    hide Polls;
    PollsMove(s, Enqueue(s, t, s.threads[t].node), t);
  }

  lemma PollsBegin(s: State, t: nat, n: nat, call: Call)
    requires Shape(s) && Polls(s) && Shape(BeginCall(s, t, n, call))
    ensures Polls(BeginCall(s, t, n, call))
  {
    hide Polls;
    var s' := BeginCall(s, t, n, call);
    if s'.threads != s.threads {
      PollsMove(s, s', t);
    } else {
      PollsSame(s, s');
    }
  }

  lemma PollsDone(s: State, n: nat)
    requires Shape(s) && Polls(s) && Shape(Next(s, Done(n)))
    ensures Polls(Next(s, Done(n)))
  {
    hide Polls;
    if !s.crashed && n < |s.nodes| && s.working[n] && s.threads[n].Idle? {
      PollsAnswer(s, n, true, Idle);
    } else {
      PollsSame(s, Next(s, Done(n)));
    }
  }

  // ---- The loop's side ----

  /** A loop step that leaves goroutines and channels alone and does not change which answers are due. */
  lemma PollsLoopMove(s: State, s': State)
    requires Shape(s) && Shape(s') && Polls(s) && |s'.nodes| == |s.nodes|
    requires s'.threads == s.threads && s'.working == s.working && s'.signals == s.signals && s'.answers == s.answers
    requires forall n :: 0 <= n < |s.nodes| ==> Due(s', n) == Due(s, n)
    requires forall n :: 0 <= n < |s.nodes| && s'.nodes[n].mode == Suspended ==> s.nodes[n].mode == Suspended
    requires Collects(s')
    ensures Polls(s')
  {
    hide Due, Collects;
    assert forall n :: 0 <= n < |s.nodes| ==> Busy(s', n) == Busy(s, n);
  }

  lemma PollsEvents(s: State, pick: Pick)
    requires Shape(s) && Polls(s) && Shape(LoopEvents(s, pick))
    requires s.loop.Events? || s.loop.WaitLoaded? || s.loop.Sleeping? || s.loop.Clearing? || s.loop.ClearLoaded?
      || s.loop.NoWait?
    ensures Polls(LoopEvents(s, pick))
  {
    PollsLoopMove(s, LoopEvents(s, pick));
  }

  lemma PollsAlloc(s: State, pick: nat)
    requires Shape(s) && Polls(s) && s.loop.Allocating? && s.loop.k < s.loop.len
    requires Shape(Alloc(s, s.loop.vec, s.loop.len, s.loop.k, pick))
    ensures Polls(Alloc(s, s.loop.vec, s.loop.len, s.loop.k, pick))
  {
    PollsLoopMove(s, Alloc(s, s.loop.vec, s.loop.len, s.loop.k, pick));
  }

  /** The loop signals a node: nothing was on its way, so the channel has room. */
  lemma PollsStartPoll(s: State, i: nat)
    requires Shape(s) && Polls(s) && PoolOk(s) && s.loop == Scanning(i) && SlotUsed(s, i)
    requires Shape(StartPoll(s, i, s.pool[i]))
    ensures !s.signals[s.pool[i]] && Polls(StartPoll(s, i, s.pool[i]))
  {
    var n, s' := s.pool[i], StartPoll(s, i, s.pool[i]);
    NotDue(s, n);
    StartTokens(s, i);
    assert Needs(s.nodes[n]) ==> s.nodes[n].mode != Suspended;
    hide Needs, PoolOk, Tokens, Parks, Adding;
  }

  lemma NotDue(s: State, n: nat)
    requires Shape(s) && Tokens(s) && n < |s.nodes|
    ensures !Due(s, n) ==> !s.signals[n] && s.answers[n] == None && !Busy(s, n)
    ensures s.answers[n].Some? ==> !s.signals[n] && !Busy(s, n)
  {
    assert One(s.signals[n]) + One(s.answers[n].Some?) + One(Busy(s, n)) == One(Due(s, n));
  }

  lemma StartTokens(s: State, i: nat)
    requires Shape(s) && Tokens(s) && PoolOk(s) && s.loop == Scanning(i) && SlotUsed(s, i)
    requires Shape(StartPoll(s, i, s.pool[i])) && !s.signals[s.pool[i]]
    ensures Tokens(StartPoll(s, i, s.pool[i]))
  {
    hide Needs;
    var n, s' := s.pool[i], StartPoll(s, i, s.pool[i]);
    NotDue(s, n);
    forall m | 0 <= m < |s.nodes|
      ensures One(s'.signals[m]) + One(s'.answers[m].Some?) + One(Busy(s', m)) == One(Due(s', m))
    {
      assert One(s.signals[m]) + One(s.answers[m].Some?) + One(Busy(s, m)) == One(Due(s, m));
    }
  }

  lemma PollsAwaitPoll(s: State, i: nat)
    requires Shape(s) && Polls(s) && PoolOk(s) && s.loop == Collecting(i) && SlotUsed(s, i) && s.isPolling[s.pool[i]]
    requires Shape(AwaitPoll(s, i, s.pool[i]))
    ensures Polls(AwaitPoll(s, i, s.pool[i]))
  {
    var n, s' := s.pool[i], AwaitPoll(s, i, s.pool[i]);
    if s.answers[n].Some? {
      assert One(s.signals[n]) + One(s.answers[n].Some?) + One(Busy(s, n)) == One(Due(s, n));
      assert forall m :: 0 <= m < |s.nodes| ==> Busy(s', m) == Busy(s, m);
      assert forall m :: 0 <= m < |s.nodes| && m != n ==> Due(s', m) == Due(s, m);
      assert !Due(s', n);
    }
  }

  lemma PollsScan(s: State, pick: Pick)
    requires Shape(s) && Polls(s) && Owners(s) && Shape(LoopScan(s, pick))
    ensures Polls(LoopScan(s, pick))
  {
    hide Polls, HeldOk, QueueOk, BatchOk, ModesOk, StartPoll, AwaitPoll, Alloc, TakePending;
    match s.loop {
      case Scanning(i) =>
        if i < |s.pool| && s.pool[i] >= 0 { PollsStartPoll(s, i); } else { PollsPass(s, pick); }
      case Collecting(i) =>
        if i < |s.pool| && s.pool[i] >= 0 && s.isPolling[s.pool[i]] {
          PollsAwaitPoll(s, i);
        } else {
          PollsPass(s, pick);
        }
      case Allocating(_, len, k) => if k < len { PollsAlloc(s, pick.slot); } else { PollsPass(s, pick); }
      case Pollers => PollsPass(s, pick);
      case _ =>
    }
  }

  /** The loop passes over a slot, or goes on to its next round of slots. */
  lemma PollsPass(s: State, pick: Pick)
    requires Shape(s) && Polls(s) && PoolOk(s) && Shape(LoopScan(s, pick))
    requires match s.loop
      case Allocating(_, len, k) => k >= len
      case Scanning(i) => i < |s.pool| ==> s.pool[i] < 0
      case Collecting(i) => i < |s.pool| && s.pool[i] >= 0 ==> !s.isPolling[s.pool[i]]
      case _ => s.loop.Pollers?
    ensures Polls(LoopScan(s, pick))
  {
    hide Polls, Needs;
    PollsLoopMove(s, LoopScan(s, pick));
  }

  lemma PollsClearResume(s: State)
    requires Shape(s) && Words(s) && Polls(s) && s.loop.ResumeLoaded? && Shape(ClearResume(s))
    ensures Polls(ClearResume(s))
  {
    PollsLoopMove(s, ClearResume(s));
  }

  lemma PollsMarkFree(s: State)
    requires Shape(s) && Polls(s) && s.loop.FreeLoaded? && Shape(MarkFree(s))
    ensures Polls(MarkFree(s))
  {
    hide Needs;
    PollsLoopMove(s, MarkFree(s));
  }

  lemma PollsRelease(s: State)
    requires Shape(s) && Polls(s) && PoolOk(s) && s.loop.Releasing? && Shape(Release(s, s.loop.slot))
    ensures Polls(Release(s, s.loop.slot))
  {
    PollsLoopMove(s, Release(s, s.loop.slot));
  }

  /** A goroutine at rest is not suspended, so nothing can resume its node. */
  lemma RestNotSuspended(s: State)
    requires Shape(s) && Goroutines(s) && Suspensions(s)
    ensures forall n :: 0 <= n < |s.nodes| && !s.working[n] ==> s.nodes[n].mode != Suspended
  {
  }

  lemma ChecksFrame(s: State)
    requires Shape(s) && Checking(s.loop)
    ensures var s' := LoopCollect(s); s' == s.(loop := s'.loop, word := s'.word, clamps := s'.clamps)
    ensures forall slot: int {:trigger DueAt(s.loop, slot)} ::
      DueAt(LoopCollect(s).loop, slot) == DueAt(s.loop, slot)
  {
    hide Shape, ChangeActive;
  }

  lemma ChecksCollects(s: State)
    requires Shape(s) && Collects(s) && Checking(s.loop) && Shape(LoopCollect(s))
    ensures Collects(LoopCollect(s))
  {
    hide ChangeActive;
  }

  lemma PollsChecks(s: State)
    requires Shape(s) && Polls(s) && Shape(LoopCollect(s)) && Checking(s.loop)
    ensures Polls(LoopCollect(s))
  {
    ChecksFrame(s);
    ChecksCollects(s);
    hide LoopCollect, DueAt, Tokens, Suspensions, Goroutines, Collects, Checking;
    PollsLoopMove(s, LoopCollect(s));
  }

  lemma PollsCollect(s: State)
    requires Shape(s) && Words(s) && Polls(s) && Owners(s) && Shape(LoopCollect(s))
    ensures Polls(LoopCollect(s))
  {
    hide Words, Polls, Owners, ClearResume, CountDown, MarkFree, Release, AfterResume;
    match s.loop {
      case ResumeLoaded(_, _, _) => PollsClearResume(s);
      case FreeLoaded(_, _) => PollsMarkFree(s);
      case Releasing(_) => OwnersPool(s); PollsRelease(s);
      case ResumeLoading(_, _) => PollsChecks(s);
      case Down(_, _) => PollsChecks(s);
      case DownLoaded(_, _, _) => PollsChecks(s);
      case FreeLoading(_) => PollsChecks(s);
      case _ =>
    }
  }

  lemma PollsLoop(s: State, pick: Pick)
    requires Shape(s) && Words(s) && Polls(s) && Owners(s) && Shape(Loop1(s, pick))
    ensures Polls(Loop1(s, pick))
  {
    hide Shape, Words, Owners, Polls, LoopEvents, LoopScan, LoopCollect;
    if s.loop.Pollers? || s.loop.Allocating? || s.loop.Scanning? || s.loop.Collecting? {
      PollsScan(s, pick);
    } else if s.loop.Events? || s.loop.WaitLoaded? || s.loop.Sleeping? || s.loop.Clearing? || s.loop.ClearLoaded?
       || s.loop.NoWait? {
      PollsEvents(s, pick);
    } else {
      PollsCollect(s);
    }
  }

  lemma PollsKept(s: State, a: Action)
    requires Shape(s) && Words(s) && Polls(s) && Owners(s) && Shape(Next(s, a))
    ensures Polls(Next(s, a))
  {
    hide Shape, Words, Owners, Polls, Work1, Loop1;
    match a {
      case Begin(t, n, call) => if !s.crashed { PollsBegin(s, t, n, call); }
      case Done(n) => PollsDone(s, n);
      case Work(t) => if !s.crashed && t < |s.threads| { PollsWork(s, t); }
      case Loop(pick) => if !s.crashed { PollsLoop(s, pick); }
      case Signal => PollsSame(s, Next(s, a));
    }
  }

  // ---- Who is polled has a poller ----

  ghost predicate Served(s: State)
    requires Shape(s)
  {
    forall n :: 0 <= n < |s.nodes| && s.working[n] ==> s.owner[n].Pooled?
  }

  lemma ServedTrySwap(s: State, t: nat)
    requires Shape(s) && Owners(s) && Served(s) && t < |s.threads| && s.threads[t].Loaded?
    requires Shape(TrySwap(s, t))
    ensures Served(TrySwap(s, t))
  {
    hide HeldOk, QueueOk, BatchOk, PoolOk, Needs, Wrap32, LoopInPool, RestOf, Finish;
    var n := s.threads[t].node;
    assert s.nodes[n].mode == Inactive ==> s.owner[n] == Nowhere;
  }

  lemma ServedEnqueue(s: State, t: nat)
    requires Shape(s) && HeldOk(s) && Served(s) && t < |s.threads| && s.threads[t].Queueing?
    requires Shape(Enqueue(s, t, s.threads[t].node))
    ensures Served(Enqueue(s, t, s.threads[t].node))
  {
    hide LoopInPool;
  }

  lemma ServedAwait(s: State, t: nat)
    requires Shape(s) && Tokens(s) && PoolOk(s) && Served(s) && t < |s.threads|
    requires (s.threads[t].Idle? || s.threads[t].Parked?) && Shape(AwaitLoop(s, t))
    ensures Served(AwaitLoop(s, t))
  {
    if s.threads[t].Idle? && t < |s.nodes| && s.signals[t] {
      assert One(s.signals[t]) + One(s.answers[t].Some?) + One(Busy(s, t)) == One(Due(s, t));
      assert s.pool[s.pollerIndex[t]] == t;
    }
  }

  lemma ServedWork(s: State, t: nat)
    requires Shape(s) && Polls(s) && Owners(s) && Served(s) && t < |s.threads| && Shape(Work1(s, t))
    ensures Served(Work1(s, t))
  {
    hide TrySwap, Enqueue, AwaitLoop, Tokens, Goroutines, Suspensions, Collects, HeldOk, QueueOk, BatchOk, PoolOk,
         ModesOk, ChangeActive, Finish, LoopInPool;
    match s.threads[t] {
      case Loaded(_, _, _, _) => ServedTrySwap(s, t);
      case Queueing(_) => ServedEnqueue(s, t);
      case Idle => ServedAwait(s, t);
      case Parked(_, _) => ServedAwait(s, t);
      case _ =>
    }
  }

  lemma ServedScan(s: State, pick: Pick)
    requires Shape(s) && Served(s) && Shape(LoopScan(s, pick))
    ensures Served(LoopScan(s, pick))
  {
    hide Needs, LoopInPool;
  }

  lemma ServedMarkFree(s: State)
    requires Shape(s) && Collects(s) && Served(s) && s.loop.FreeLoaded? && Shape(MarkFree(s))
    ensures Served(MarkFree(s))
  {
  }

  lemma ServedCollect(s: State)
    requires Shape(s) && Collects(s) && Served(s) && Shape(LoopCollect(s))
    ensures Served(LoopCollect(s))
  {
    hide MarkFree, Collects, LoopInPool, ChangeActive, Needs;
    if s.loop.FreeLoaded? { ServedMarkFree(s); }
  }

  lemma ServedKept(s: State, a: Action)
    requires Shape(s) && Polls(s) && Owners(s) && Served(s) && Shape(Next(s, a))
    ensures Served(Next(s, a))
  {
    hide Tokens, Goroutines, Suspensions, Collects, Owners, Work1, LoopScan, LoopCollect, LoopEvents, LoopInPool;
    match a {
      case Work(t) => if !s.crashed && t < |s.threads| { ServedWork(s, t); }
      case Loop(pick) =>
        if !s.crashed {
          if s.loop.Pollers? || s.loop.Allocating? || s.loop.Scanning? || s.loop.Collecting? {
            ServedScan(s, pick);
          } else if LoopEvents(s, pick) == Loop1(s, pick) {
            ServedEvents(s, pick);
          } else {
            ServedCollect(s);
          }
        }
      case _ =>
    }
  }

  lemma ServedEvents(s: State, pick: Pick)
    requires Shape(s) && Served(s) && Shape(LoopEvents(s, pick))
    ensures Served(LoopEvents(s, pick))
  {
    hide LoopEvents, LoopInPool;
    EventsFrame(s, pick);
  }

  // ---- Runs ----

  ghost predicate Inv(s: State) {
    Shape(s) && Words(s) && Waits(s) && Counts(s) && Owners(s) && Polls(s) && Served(s)
  }

  lemma InvKept(s: State, a: Action)
    requires Inv(s)
    ensures Inv(Next(s, a))
  {
    ShapeKept(s, a);
    WordsKept(s, a);
    WaitsKept(s, a);
    CountsKept(s, a);
    OwnersKept(s, a);
    PollsKept(s, a);
    ServedKept(s, a);
    hide Shape, Words, Waits, Counts, Owners, Polls, Served, Next;
  }

  /** The start of a run: every node inactive, every goroutine waiting, every other thread idle, the loop about to
    * look for events. */
  function Init(lim: Limits, nodes: nat, workers: nat): State {
    State(lim, seq(nodes, _ => NodeWord(0, 0, Inactive)), seq(nodes, _ => false), seq(nodes, _ => false),
          seq(nodes, _ => -1), LoopWord(0, false), [[], []], 0, [], seq(nodes + workers, _ => Idle), Events, 0,
          false, false, seq(nodes, _ => false), seq(nodes, _ => None), seq(nodes, _ => false),
          seq(nodes, _ => Nowhere), 0)
  }

  lemma {:induction false} SumZero<T>(f: T -> int, x: seq<T>)
    requires forall i :: 0 <= i < |x| ==> f(x[i]) == 0
    ensures Sum(f, x) == 0
  {
    if |x| > 0 { SumZero(f, x[1..]); }
  }

  lemma InitInv(lim: Limits, nodes: nat, workers: nat)
    requires 0 <= lim.suspend < COUNT_LIMIT
    ensures Inv(Init(lim, nodes, workers))
  {
    hide Owners, Polls;
    var s := Init(lim, nodes, workers);
    SumZero(Owed, s.threads);
    SumZero(NeedBit, s.nodes);
    InitShape(lim, nodes, workers);
    InitOwners(lim, nodes, workers);
    InitPolls(lim, nodes, workers);
  }

  lemma InitShape(lim: Limits, nodes: nat, workers: nat)
    ensures Shape(Init(lim, nodes, workers))
  {
  }

  lemma InitOwners(lim: Limits, nodes: nat, workers: nat)
    requires Shape(Init(lim, nodes, workers))
    ensures Owners(Init(lim, nodes, workers))
  {
  }

  lemma InitPolls(lim: Limits, nodes: nat, workers: nat)
    requires Shape(Init(lim, nodes, workers))
    ensures Polls(Init(lim, nodes, workers))
  {
  }

  ghost predicate Run(run: seq<State>, acts: seq<Action>) {
    && |run| == |acts| + 1
    && (forall i :: 0 <= i < |run| ==> Shape(run[i]))
    && (forall i :: 0 <= i < |acts| ==> run[i + 1] == Next(run[i], acts[i]))
  }

  /** Everything above holds in every state of every run, whatever the interleaving. */
  lemma {:induction false} RunInv(lim: Limits, nodes: nat, workers: nat, run: seq<State>, acts: seq<Action>, k: nat)
    requires 0 <= lim.suspend < COUNT_LIMIT
    requires Run(run, acts) && run[0] == Init(lim, nodes, workers) && k < |run|
    ensures Inv(run[k])
  {
    hide Inv, Shape, Next, Init;
    if k == 0 {
      InitInv(lim, nodes, workers);
    } else {
      RunInv(lim, nodes, workers, run, acts, k - 1);
      InvKept(run[k - 1], acts[k - 1]);
    }
  }
}

/** The poller protocol of `goes/elib/loop/poller.go` and `goes/elib/loop/event.go` as atomic steps.
  *
  * Any number of threads change node words and the loop word by load, compute and compare and swap; one loop
  * thread sleeps, wakes, hands out pollers, polls and takes them back. Every load, swap, locked section and
  * channel operation is one step, and a run interleaves the steps in any order.
  */
module PollerProtocol {
  import opened Basics

  datatype Mode = Inactive | Active | Suspended | Resumed

  datatype NodeWord = NodeWord(active: int, suspend: int, mode: Mode)

  datatype LoopWord = LoopWord(nActive: nat, wait: bool)

  datatype Limits = Limits(suspend: int, resume: int)

  /** The three ways into `addActivity`. */
  datatype Call =
    | Data(change: int)
    | Activate(on: bool)
    | Suspend(change: int)

  const COUNT_LIMIT := 0x8000_0000

  /** Two's complement wrap-around of a 32-bit sum. */
  function Wrap32(x: int): int {
    (x + COUNT_LIMIT) % (2 * COUNT_LIMIT) - COUNT_LIMIT
  }

  predicate Needs(w: NodeWord) {
    (w.active > 0 || w.mode == Resumed) && w.mode != Suspended
  }

  /** What one turn of the `addActivity` loop computes from the word it loaded. `da` survives a retry. */
  datatype Outcome =
    | Panic
    | Update(word: NodeWord, alloc: bool, da: int, didSuspend: bool, didResume: bool)

  function AddActivity(lim: Limits, call: Call, da0: int, w: NodeWord): Outcome {
    var da := match call
      case Data(i) => i
      case Activate(on) => if (w.active > 0) != on then (if on then 1 else -1) else da0
      case Suspend(_) => 0;
    var ds := if call.Suspend? then call.change else 0;
    var active := Wrap32(w.active + da);
    var suspend := Wrap32(w.suspend + ds);
    if active < 0 || suspend < 0 then Panic
    else
      var limit := if w.mode == Suspended then lim.resume else lim.suspend;
      var over := call.Suspend? && suspend > lim.suspend;
      var isActive := active > 0 || (call.Suspend? && suspend <= limit);
      var didSuspend := over && w.mode != Suspended && ds > 0;
      var kept := if over then Wrap32(suspend - ds) else suspend;
      var didResume := call.Suspend? && w.mode == Suspended && kept <= limit;
      var alloc := isActive && w.active <= 0 && w.mode == Inactive && !(didSuspend && !didResume);
      var mode := if alloc then Active
                  else if didSuspend then Suspended
                  else if didResume then Resumed
                  else w.mode;
      Update(NodeWord(active, kept, mode), alloc, da, didSuspend, didResume)
  }

  /** What one turn of the `changeActive` loop computes; none stands for its panic. */
  function ChangeActive(w: LoopWord, up: bool, nodes: nat): Option<LoopWord> {
    if up then
      if w.nActive + 1 > nodes then None else Some(LoopWord(w.nActive + 1, false))
    else
      var n := if w.nActive > 0 then w.nActive - 1 else 0;
      Some(LoopWord(n, w.wait && n == 0))
  }

  /** What a thread does once the active count has been changed: nothing, queue the node for a poller, or park until
    * the loop signals the node and then make its suspend call again. */
  datatype Rest = Return | Queue | Park(change: int)

  /** Where a thread stands inside `addActivity` or `AddSuspendActivity`. */
  datatype Worker =
    | Idle
    | Loading(node: nat, call: Call, da: int)
    | Loaded(node: nat, call: Call, da: int, seen: NodeWord)
    | Counting(node: nat, up: bool, rest: Rest)
    | Counted(node: nat, up: bool, rest: Rest, was: LoopWord)
    | Waking(node: nat, rest: Rest)
    | Queueing(node: nat)
    | Parking(node: nat, change: int)
    | Parked(node: nat, change: int)

  /** Where the loop thread stands between `doEvents` and `doPollers`. */
  datatype LoopAt =
    | Events
    | WaitLoaded(seen: LoopWord)
    | Sleeping
    | Clearing
    | ClearLoaded(seen: LoopWord)
    | NoWait
    | Pollers
    | Allocating(vec: nat, len: nat, k: nat)
    | Scanning(slot: nat)
    | Collecting(slot: nat)
    | ResumeLoading(slot: nat, done: bool)
    | ResumeLoaded(slot: nat, done: bool, state: NodeWord)
    | Down(slot: nat, done: bool)
    | DownLoaded(slot: nat, done: bool, seen: LoopWord)
    | FreeLoading(slot: nat)
    | FreeLoaded(slot: nat, state: NodeWord)
    | Releasing(slot: nat)

  /** Who holds a node's request for a poller, or the poller itself. */
  datatype Place = Nowhere | Held(thread: nat) | Queued(pos: nat) | Taken(pos: nat) | Pooled(slot: nat)

  /** Thread n, for a node n, is the node's own goroutine: it starts when the loop signals the node and works until it
    * answers the loop; the other threads come and go as they like. `signals` and `answers` are the channels between
    * loop and goroutine, one place deep. `owner` and `clamps` are history that no step reads. */
  datatype State = State(
    lim: Limits,
    nodes: seq<NodeWord>,
    isPending: seq<bool>,
    isPolling: seq<bool>,
    pollerIndex: seq<int>,
    word: LoopWord,
    activePending: seq<seq<nat>>,
    sequence: nat,
    pool: seq<int>,
    threads: seq<Worker>,
    loop: LoopAt,
    events: nat,
    crashed: bool,
    fault: bool,
    signals: seq<bool>,
    answers: seq<Option<bool>>,
    working: seq<bool>,
    owner: seq<Place>,
    clamps: nat)

  /** Nondeterministic choices of one loop step. */
  datatype Pick = Pick(tryWait: bool, receive: bool, slot: nat)

  datatype Action =
    | Begin(t: nat, node: nat, call: Call)
    | Work(t: nat)
    | Done(node: nat)
    | Loop(pick: Pick)
    | Signal

  // ---- Worker steps ----

  function Finish(node: nat, rest: Rest): Worker {
    match rest
    case Return => Idle
    case Queue => Queueing(node)
    case Park(change) => Parking(node, change)
  }

  function RestOf(call: Call, o: Outcome): Rest
    requires o.Update?
  {
    if o.alloc then Queue else if o.didSuspend && call.Suspend? then Park(call.change) else Return
  }

  /** The successful swap of a node word. */
  function Commit(s: State, t: nat, n: nat, call: Call, o: Outcome): State
    requires t < |s.threads| && n < |s.nodes| == |s.owner| && o.Update?
  {
    var was, now := Needs(s.nodes[n]), Needs(o.word);
    var rest := RestOf(call, o);
    s.(nodes := s.nodes[n := o.word],
       threads := s.threads[t := if was != now then Counting(n, now, rest) else Finish(n, rest)],
       owner := if o.alloc then s.owner[n := Held(t)] else s.owner)
  }

  /** The locked section that queues a node for a poller. */
  function Enqueue(s: State, t: nat, n: nat): State
    requires t < |s.threads| && n < |s.isPending| == |s.owner| && |s.activePending| == 2
  {
    var i := s.sequence % 2;
    if s.isPending[n] then s.(threads := s.threads[t := Idle])
    else s.(threads := s.threads[t := Idle],
            isPending := s.isPending[n := true],
            owner := s.owner[n := Queued(|s.activePending[i]|)],
            activePending := s.activePending[i := s.activePending[i] + [n]])
  }

  /** Compare and swap of a node word; a failed swap goes back to loading. */
  function TrySwap(s: State, t: nat): State
    requires Shape(s) && t < |s.threads| && s.threads[t].Loaded?
  {
    var w := s.threads[t];
    var o := AddActivity(s.lim, w.call, w.da, w.seen);
    if o.Panic? then s.(crashed := true)
    else if s.nodes[w.node] != w.seen then s.(threads := s.threads[t := Loading(w.node, w.call, o.da)])
    else Commit(s, t, w.node, w.call, o)
  }

  /** Compare and swap of the loop word by a worker. */
  function TryCount(s: State, t: nat): State
    requires Shape(s) && t < |s.threads| && s.threads[t].Counted?
  {
    var w := s.threads[t];
    var r := ChangeActive(w.was, w.up, |s.nodes|);
    if r.None? then s.(crashed := true)
    else if s.word != w.was then s.(threads := s.threads[t := Counting(w.node, w.up, w.rest)])
    else s.(word := r.value,
            clamps := if !w.up && w.was.nActive == 0 then s.clamps + 1 else s.clamps,
            threads := s.threads[t := if w.was.wait then Waking(w.node, w.rest) else Finish(w.node, w.rest)])
  }

  /** A goroutine waiting for the loop: at the start of a poll, or in the middle of a suspend call. */
  function AwaitLoop(s: State, t: nat): State
    requires Shape(s) && t < |s.threads| && (s.threads[t].Idle? || s.threads[t].Parked?)
  {
    match s.threads[t]
    case Idle =>
      if t < |s.nodes| && !s.working[t] && s.signals[t]
      then s.(signals := s.signals[t := false], working := s.working[t := true]) else s
    case Parked(n, change) =>
      if s.signals[n]
      then s.(signals := s.signals[n := false], threads := s.threads[t := Loading(n, Suspend(change), 0)]) else s
  }

  /** `signalLoop`, false for a poll that is not over; a full channel blocks. */
  function Answer(s: State, t: nat, n: nat, done: bool, w: Worker, working: bool): State
    requires Shape(s) && t < |s.threads| && n < |s.nodes|
  {
    if s.answers[n] != None then s
    else s.(answers := s.answers[n := Some(done)], threads := s.threads[t := w], working := s.working[n := working])
  }

  function Work1(s: State, t: nat): State
    requires Shape(s) && t < |s.threads|
  {
    match s.threads[t]
    case Idle => AwaitLoop(s, t)
    case Loading(n, call, da) => s.(threads := s.threads[t := Loaded(n, call, da, s.nodes[n])])
    case Loaded(_, _, _, _) => TrySwap(s, t)
    case Counting(n, up, rest) => s.(threads := s.threads[t := Counted(n, up, rest, s.word)])
    case Counted(_, _, _, _) => TryCount(s, t)
    case Waking(n, rest) => s.(events := s.events + 1, threads := s.threads[t := Finish(n, rest)])
    case Queueing(n) => Enqueue(s, t, n)
    case Parking(n, change) => Answer(s, t, n, false, Parked(n, change), s.working[n])
    case Parked(_, _) => AwaitLoop(s, t)
  }

  /** A call begins. Any thread but an idle goroutine may make one; counts of outstanding packets are added by the
    * node's own goroutine only. A suspend call first looks its poller up, which panics if the node has none. */
  function BeginCall(s: State, t: nat, n: nat, call: Call): State
    requires Shape(s)
  {
    if t >= |s.threads| || !s.threads[t].Idle? || n >= |s.nodes| || (t < |s.nodes| && !s.working[t])
       || (call.Suspend? && call.change > 0 && t != n) then s
    else if call.Suspend? && s.pollerIndex[n] < 0 then s.(crashed := true)
    else s.(threads := s.threads[t := Loading(n, call, 0)])
  }

  // ---- Loop steps ----

  /** `getAllocPending`: empty the vector consumed last time, take the other one, switch over. */
  function TakePending(s: State): State
    requires |s.activePending| == 2
  {
    var i0 := s.sequence % 2;
    var taken := s.activePending[i0];
    s.(activePending := s.activePending[1 - i0 := []],
       isPending := seq(|s.isPending|, n requires 0 <= n < |s.isPending| => s.isPending[n] && n !in taken),
       sequence := s.sequence + 1,
       owner := seq(|s.owner|, n requires 0 <= n < |s.owner| =>
                  if s.owner[n].Queued? then Taken(s.owner[n].pos) else s.owner[n]),
       loop := Allocating(i0, |taken|, 0))
  }

  /** `allocActivePoller` for the node at position k: any free slot, or a new one when none is free. */
  function Alloc(s: State, vec: nat, len: nat, k: nat, pick: nat): State
    requires Shape(s) && s.loop == Allocating(vec, len, k)
    requires k < len
  {
    var n := s.activePending[vec][k];
    if s.pollerIndex[n] >= 0 then s.(fault := true)
    else if pick < |s.pool| && s.pool[pick] < 0 then
      s.(pool := s.pool[pick := n], pollerIndex := s.pollerIndex[n := pick],
         owner := s.owner[n := Pooled(pick)], loop := Allocating(vec, len, k + 1))
    else if -1 !in s.pool then
      s.(pool := s.pool + [n], pollerIndex := s.pollerIndex[n := |s.pool|],
         owner := s.owner[n := Pooled(|s.pool|)], loop := Allocating(vec, len, k + 1))
    else s
  }

  /** `freeActivePoller` of the node in the slot, by way of the node's own index. */
  function Release(s: State, i: nat): State
    requires Shape(s) && s.loop == Releasing(i)
  {
    var n := s.pool[i];
    var at := s.pollerIndex[n];
    if at < 0 then s.(fault := true)
    else s.(pool := s.pool[at := -1], pollerIndex := s.pollerIndex[n := -1], loop := Collecting(i + 1))
  }

  function AfterResume(i: nat, done: bool): LoopAt {
    if done then FreeLoading(i) else Collecting(i + 1)
  }

  /** `doEvents`: try to sleep, sleep, wake and clear the wait bit. */
  function LoopEvents(s: State, pick: Pick): State {
    match s.loop
    case Events =>
      if !pick.tryWait then s.(loop := NoWait)
      else if s.word.nActive == 0 then s.(loop := WaitLoaded(s.word))
      else s.(loop := if s.word.wait then Sleeping else NoWait)
    case WaitLoaded(seen) =>
      if s.word == seen then s.(word := LoopWord(seen.nActive, true), loop := Sleeping)
      else s.(loop := if seen.wait then Sleeping else NoWait)
    case Sleeping =>
      if !pick.receive then s.(loop := Clearing)
      else if s.events > 0 then s.(events := s.events - 1, loop := Clearing)
      else s
    case Clearing => s.(loop := if s.word.wait then ClearLoaded(s.word) else Pollers)
    case ClearLoaded(seen) =>
      if s.word == seen then s.(word := LoopWord(seen.nActive, false), loop := Pollers)
      else s.(loop := Clearing)
    case NoWait => s.(events := if s.events > 0 then s.events - 1 else 0, loop := Pollers)
    case _ => s
  }

  /** `signalNode`, if the node needs polling; a full channel blocks. */
  function StartPoll(s: State, i: nat, n: nat): State
    requires Shape(s) && n < |s.nodes|
  {
    var poll := Needs(s.nodes[n]);
    if poll && s.signals[n] then s
    else s.(isPolling := s.isPolling[n := poll], signals := if poll then s.signals[n := true] else s.signals,
            loop := Scanning(i + 1))
  }

  /** `waitNode`. */
  function AwaitPoll(s: State, i: nat, n: nat): State
    requires Shape(s) && n < |s.nodes|
  {
    match s.answers[n]
    case None => s
    case Some(done) => s.(answers := s.answers[n := None], loop := ResumeLoading(i, done))
  }

  /** `doPollers` up to the answer of each node that was polled. */
  function LoopScan(s: State, pick: Pick): State
    requires Shape(s)
  {
    match s.loop
    case Pollers => TakePending(s)
    case Allocating(vec, len, k) =>
      if k < len then Alloc(s, vec, len, k, pick.slot) else s.(loop := Scanning(0))
    case Scanning(i) =>
      if i == |s.pool| then s.(loop := Collecting(0))
      else if s.pool[i] < 0 then s.(loop := Scanning(i + 1))
      else StartPoll(s, i, s.pool[i])
    case Collecting(i) =>
      if i == |s.pool| then s.(loop := Events)
      else if s.pool[i] >= 0 && s.isPolling[s.pool[i]] then AwaitPoll(s, i, s.pool[i])
      else s.(loop := Collecting(i + 1))
    case _ => s
  }

  /** The swap of `maybeClearResume`. */
  function ClearResume(s: State): State
    requires Shape(s) && s.loop.ResumeLoaded?
  {
    var ResumeLoaded(i, done, seen) := s.loop;
    if s.nodes[s.pool[i]] != seen then s.(loop := ResumeLoading(i, done))
    else s.(nodes := s.nodes[s.pool[i] := seen.(mode := Active)],
            loop := if seen.active == 0 then Down(i, done) else AfterResume(i, done))
  }

  /** The swap by which the loop itself counts a poller down. */
  function CountDown(s: State): State
    requires Shape(s) && s.loop.DownLoaded?
  {
    var DownLoaded(i, done, seen) := s.loop;
    if s.word != seen then s.(loop := Down(i, done))
    else s.(word := ChangeActive(seen, false, |s.nodes|).value,
            clamps := if seen.nActive == 0 then s.clamps + 1 else s.clamps,
            loop := AfterResume(i, done))
  }

  /** The swap of `maybeFreeActive`. */
  function MarkFree(s: State): State
    requires Shape(s) && s.loop.FreeLoaded?
  {
    var FreeLoaded(i, seen) := s.loop;
    var n := s.pool[i];
    if s.nodes[n] != seen then s.(loop := FreeLoading(i))
    else s.(nodes := s.nodes[n := NodeWord(0, 0, Inactive)],
            owner := s.owner[n := Nowhere],
            loop := Releasing(i))
  }

  /** `maybeClearResume` and `maybeFreeActive` for one polled node. */
  function LoopCollect(s: State): State
    requires Shape(s)
  {
    match s.loop
    case ResumeLoading(i, done) =>
      var w := s.nodes[s.pool[i]];
      s.(loop := if w.mode != Resumed then AfterResume(i, done) else ResumeLoaded(i, done, w))
    case ResumeLoaded(_, _, _) => ClearResume(s)
    case Down(i, done) => s.(loop := DownLoaded(i, done, s.word))
    case DownLoaded(_, _, _) => CountDown(s)
    case FreeLoading(i) =>
      var w := s.nodes[s.pool[i]];
      s.(loop := if w.mode == Suspended || w.active != 0 || w.suspend != 0 then Collecting(i + 1)
                 else FreeLoaded(i, w))
    case FreeLoaded(_, _) => MarkFree(s)
    case Releasing(i) => Release(s, i)
    case _ => s
  }

  function Loop1(s: State, pick: Pick): State
    requires Shape(s)
  {
    match s.loop
    case Events | WaitLoaded(_) | Sleeping | Clearing | ClearLoaded(_) | NoWait => LoopEvents(s, pick)
    case Pollers | Allocating(_, _, _) | Scanning(_) | Collecting(_) => LoopScan(s, pick)
    case _ => LoopCollect(s)
  }

  /** One step of a run; a step that is not enabled, and every step after a panic, changes nothing. */
  function Next(s: State, a: Action): State
    requires Shape(s)
  {
    if s.crashed then s else
    match a
    case Begin(t, n, call) => BeginCall(s, t, n, call)
    case Done(n) =>
      if n < |s.nodes| && s.working[n] && s.threads[n].Idle? then Answer(s, n, n, true, Idle, false) else s
    case Work(t) => if t < |s.threads| then Work1(s, t) else s
    case Loop(pick) => Loop1(s, pick)
    case Signal => s.(events := s.events + 1)
  }

  // ---- Invariants ----

  predicate SlotUsed(s: State, i: nat) {
    i < |s.pool| && 0 <= s.pool[i]
  }

  predicate LoopInPool(s: State) {
    match s.loop
    case Scanning(i) => i <= |s.pool|
    case Collecting(i) => i <= |s.pool|
    case ResumeLoading(i, _) => SlotUsed(s, i)
    case ResumeLoaded(i, _, _) => SlotUsed(s, i)
    case Down(i, _) => SlotUsed(s, i)
    case DownLoaded(i, _, _) => SlotUsed(s, i)
    case FreeLoading(i) => SlotUsed(s, i)
    case FreeLoaded(i, _) => SlotUsed(s, i)
    case Releasing(i) => SlotUsed(s, i)
    case Allocating(vec, len, k) => vec < |s.activePending| && k <= len <= |s.activePending[vec]|
    case _ => true
  }

  /** Every index that a step follows is in range. */
  predicate Shape(s: State) {
    && |s.isPending| == |s.isPolling| == |s.pollerIndex| == |s.owner| == |s.nodes|
    && |s.signals| == |s.answers| == |s.working| == |s.nodes| <= |s.threads|
    && |s.activePending| == 2
    && (forall t :: 0 <= t < |s.threads| && !s.threads[t].Idle? ==> s.threads[t].node < |s.nodes|)
    && (forall i, p :: 0 <= i < 2 && 0 <= p < |s.activePending[i]| ==> s.activePending[i][p] < |s.nodes|)
    && (forall i :: 0 <= i < |s.pool| ==> -1 <= s.pool[i] < |s.nodes|)
    && (forall n :: 0 <= n < |s.nodes| ==> -1 <= s.pollerIndex[n] < |s.pool|)
    && LoopInPool(s)
  }
}

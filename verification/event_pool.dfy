/** Timed events (goes/elib/event/event.go): a pool of events ordered by a Fibonacci heap. */
module EventPool {
  import opened Basics
  import opened FibLinks
  import opened FibDegree
  import opened FibHeaps

  const TWO63: int := 0x8000_0000_0000_0000
  const TWO64: int := 0x1_0000_0000_0000_0000

  /** cpu.Time: an unsigned 64-bit clock. */
  type Time = t: int | 0 <= t < TWO64

  datatype Event<A> = Event(actor: A, time: Time)

  /** int(a - b) on 64-bit machine words. */
  function TimeCompare(a: Time, b: Time): int {
    var d := (a - b) % TWO64;
    if d < TWO63 then d else d - TWO64
  }

  function CompareAt<A>(events: seq<Event<A>>, i: nat, j: nat): int {
    if i < |events| && j < |events| then TimeCompare(events[i].time, events[j].time) else 0
  }

  /** The wrapped difference has the sign of the true one exactly when the times are close:
      2^63 apart or more and an earlier event can pass for a later one. */
  lemma TimeCompareExact(a: Time, b: Time)
    ensures (TimeCompare(a, b) < 0 <==> a < b) <==> (a <= b || a - b < TWO63) && (b <= a || b - a <= TWO63)
  {
    if a >= b {
      assert (a - b) % TWO64 == a - b;
    } else {
      assert (a - b) % TWO64 == a - b + TWO64;
    }
  }

  lemma TimeCompareClose(a: Time, b: Time)
    requires -TWO63 < a - b < TWO63
    ensures TimeCompare(a, b) == a - b
  {
    if a >= b {
      assert (a - b) % TWO64 == a - b;
    } else {
      assert (a - b) % TWO64 == a - b + TWO64;
    }
  }

  ghost predicate Close<A>(events: seq<Event<A>>, s: set<nat>) {
    forall i, j :: i in s && j in s && i < |events| && j < |events| ==> events[i].time - events[j].time < TWO63
  }

  /** How the pool orders its slots. */
  function Order<A>(events: seq<Event<A>>): Compare {
    (i: nat, j: nat) => CompareAt(events, i, j)
  }

  lemma ClosePreorder<A>(events: seq<Event<A>>, s: set<nat>)
    requires Close(events, s) && forall i :: i in s ==> i < |events|
    ensures forall i, j :: i in s && j in s ==> Order(events)(i, j) == events[i].time - events[j].time
    ensures TotalPreorder(Order(events), s)
  {
    forall i, j | i in s && j in s ensures Order(events)(i, j) == events[i].time - events[j].time {
      TimeCompareClose(events[i].time, events[j].time);
    }
  }

  function UpTo(n: nat): (s: set<nat>)
    ensures forall i :: i in s <==> 0 <= i < n
  {
    if n == 0 then {} else UpTo(n - 1) + {n - 1}
  }

  /** elib.Pool with its slots: indices handed out, taken back and handed out again. */
  class Pool<A(==)> {
    var events: seq<Event<A>>
    var freeIndices: seq<nat>
    var freeBitmap: set<nat>
    const fibheap: FibHeap

    ghost predicate Slots()
      reads this
    {
      && |events| <= ROOT
      && (forall i :: i in freeIndices ==> i < |events|)
      && (forall i :: i in freeBitmap <==> i in freeIndices)
      && Distinct(freeIndices)
    }

    /** Slots that hold a pending event. */
    ghost function Used(): set<nat>
      reads this
    {
      UpTo(|events|) - freeBitmap
    }

    /** The pending events, by index. */
    ghost function Pending(): map<nat, Event<A>>
      reads this
    {
      map i | i in Used() :: events[i]
    }

    ghost predicate Valid()
      reads this, fibheap
    {
      && Slots() && fibheap.Valid() && fibheap.Indices() == Used()
      && Close(events, Used())
      && fibheap.Agrees(Order(events))
    }

    constructor ()
      ensures Valid() && Pending() == map[] && fresh(fibheap)
    {
      events, freeIndices, freeBitmap := [], [], {};
      fibheap := new FibHeap();
    }

    /** Takes the index freed last, or makes a new slot. */
    method GetIndex(e: Event<A>) returns (i: nat)
      requires Slots() && |events| < ROOT
      modifies this
      ensures Slots() && i !in old(Used()) && Used() == old(Used()) + {i} && i < ROOT
      ensures Pending() == old(Pending())[i := e]
    {
      i := |events|;
      var l := |freeIndices|;
      if l != 0 {
        i := freeIndices[l-1];
        ghost var was := freeIndices;
        assert was[l-1] in was;
        assert freeIndices == freeIndices[..l-1] + [i];
        freeIndices := freeIndices[..l-1];
        assert forall j :: j in freeIndices ==> j in was;
        freeBitmap := freeBitmap - {i};
      } else {
        events := events + [e];
      }
      events := events[i := e];
    }

    method PutIndex(i: nat)
      requires Slots() && i in Used()
      modifies `freeIndices, `freeBitmap
      ensures Slots() && Used() == old(Used()) - {i}
    {
      if i !in freeBitmap {
        freeIndices := freeIndices + [i];
        freeBitmap := freeBitmap + {i};
      }
    }

    method Add(e: Event<A>) returns (ei: nat)
      requires Valid() && |events| < ROOT
      requires forall i :: i in Pending() ==> -TWO63 < Pending()[i].time - e.time < TWO63
      modifies this, fibheap
      ensures Valid() && ei !in old(Pending()) && Pending() == old(Pending())[ei := e]
    {
      hide FibHeap.Valid, OrderedBut, Least;
      ghost var was, used := events, Used();
      ei := GetIndex(e);
      assert forall i :: i in used ==>
        (i in Pending() && events[i] == Pending()[i] && i in old(Pending()) && Pending()[i] == was[i]);
      OrderFrame(fibheap, was, events, ei);
      fibheap.Add(ei);
      assert ei in Pending() && events[ei] == Pending()[ei] == e;
      forall i, j | i in Used() && j in Used() ensures events[i].time - events[j].time < TWO63 {
        assert i != ei ==> i in used && i in old(Pending()) && old(Pending())[i] == was[i];
        assert j != ei ==> j in used && j in old(Pending()) && old(Pending())[j] == was[j];
      }
    }

    method Del(ei: nat)
      requires Valid() && ei in Pending()
      modifies this, fibheap
      ensures Valid() && Pending() == old(Pending()) - {ei} && events == old(events)
    {
      hide FibHeap.Valid, OrderedBut, Least;
      fibheap.Weaken(ei);
      fibheap.Del(ei);
      PutIndex(ei);
    }

    /** Earliest pending event. */
    method First() returns (ei: nat, valid: bool)
      requires Valid() && |Pending()| < Fib(34)
      modifies fibheap
      ensures Valid() && Pending() == old(Pending()) && events == old(events)
      ensures valid <==> Pending() != map[]
      ensures valid ==> ei in Pending() && ei < |events| && events[ei] == Pending()[ei]
      ensures valid ==> forall j :: j in Pending() ==> Pending()[ei].time <= Pending()[j].time
    {
      hide FibHeap.Valid, OrderedBut, TotalPreorder, Close, Slots, FibDegree.Fib;
      ClosePreorder(events, Used());
      assert Pending().Keys == Used();
      var panics;
      ei, valid, panics := fibheap.Min(Order(events));
      assert |Used()| == |Pending()| < Fib(MaxNSub + 2);
      if valid {
        forall j | j in Pending() ensures Pending()[ei].time <= Pending()[j].time {
          assert Order(events)(ei, j) <= 0;
        }
      } else {
        assert Pending().Keys == {};
      }
    }

    method NextTime() returns (t: Time, valid: bool)
      requires Valid() && |Pending()| < Fib(34)
      modifies fibheap
      ensures Valid() && Pending() == old(Pending())
      ensures valid <==> Pending() != map[]
      ensures valid ==> exists i :: i in Pending() && Pending()[i].time == t
      ensures valid ==> forall j :: j in Pending() ==> t <= Pending()[j].time
    {
      var ei;
      ei, valid := First();
      t := 0;
      if valid {
        t := events[ei].time;
      }
    }

    /** Moves the events due by `t` to the end of `iv`, earliest first. `order` names the slots
        they came from. */
    method AdvanceAdd(t: Time, iv: seq<Event<A>>) returns (out: seq<Event<A>>, ghost order: seq<nat>)
      requires Valid() && |Pending()| < Fib(34)
      modifies this, fibheap
      ensures Valid() && Advanced(old(Pending()), Pending(), iv, out, order)
      ensures forall i :: i in old(Pending()) ==> (i in order <==> old(Pending())[i].time <= t)
    {
      hide Valid, FibDegree.Fib, Pending, Advanced;
      out, order := iv, [];
      AdvancedStart(Pending(), iv);
      while true
        invariant Valid() && |Pending()| < Fib(34)
        invariant Advanced(old(Pending()), Pending(), iv, out, order)
        invariant forall i :: i in order ==> i in old(Pending()) && old(Pending())[i].time <= t
        decreases Pending().Keys
      {
        ghost var p := Pending();
        var ei, e := TakeDue(t);
        if e == None {
          AdvancedEnd(old(Pending()), Pending(), iv, out, order);
          break;
        }
        AdvancedStep(old(Pending()), p, iv, out, order, ei);
        out := out + [e.value];
        order := order + [ei];
        assert Pending().Keys == p.Keys - {ei};
      }
    }

    /** One round of the loop of advance: removes the earliest event if it is due by `t`. */
    method TakeDue(t: Time) returns (ghost ei: nat, e: Option<Event<A>>)
      requires Valid() && |Pending()| < Fib(34)
      modifies this, fibheap
      ensures Valid() && |Pending()| <= |old(Pending())|
      ensures e == None ==> Pending() == old(Pending()) && forall j :: j in Pending() ==> Pending()[j].time > t
      ensures e != None ==> ei in old(Pending()) && e.value == old(Pending())[ei] && e.value.time <= t
      ensures e != None ==> Pending() == old(Pending()) - {ei}
      ensures e != None ==> Earliest(old(Pending()), ei)
    {
      hide Valid, FibDegree.Fib;
      var i, valid := First();
      ei := i;
      if !valid {
        return i, None;
      }
      if events[i].time > t {
        return i, None;
      }
      e := Some(events[i]);
      FewerKeys(Pending(), ei);
      Del(i);
    }
  }

  ghost predicate Earliest<A>(p: map<nat, Event<A>>, i: nat) {
    i in p && forall j :: j in p ==> p[i].time <= p[j].time
  }

  /** `out` is `iv` and then, in time order, the events of `p` that are no longer in `q`; `order`
      says which slots they filled. */
  ghost predicate Advanced<A>(p: map<nat, Event<A>>, q: map<nat, Event<A>>, iv: seq<Event<A>>, out: seq<Event<A>>,
                              order: seq<nat>) {
    && Distinct(order) && (forall i :: i in order ==> i in p)
    && q == p - SetOf(order)
    && |out| == |iv| + |order| && out[..|iv|] == iv
    && (forall k :: 0 <= k < |order| ==> out[|iv| + k] == p[order[k]])
    && (forall k, j :: |iv| <= k < |out| && j in q ==> out[k].time <= q[j].time)
    && (forall k, m :: |iv| <= k < m < |out| ==> out[k].time <= out[m].time)
  }

  lemma AdvancedStart<A>(p: map<nat, Event<A>>, iv: seq<Event<A>>)
    ensures Advanced(p, p, iv, iv, [])
  {
  }

  lemma AdvancedStep<A>(p: map<nat, Event<A>>, q: map<nat, Event<A>>, iv: seq<Event<A>>, out: seq<Event<A>>,
                        order: seq<nat>, x: nat)
    requires Advanced(p, q, iv, out, order) && Earliest(q, x)
    ensures x in p && p[x] == q[x] && x in q
    ensures |out| == |iv| + |order|
    ensures Advanced(p, q - {x}, iv, out + [q[x]], order + [x])
  {
    assert SetOf(order + [x]) == SetOf(order) + {x};
    assert q - {x} == p - SetOf(order + [x]);
  }

  lemma AdvancedEnd<A>(p: map<nat, Event<A>>, q: map<nat, Event<A>>, iv: seq<Event<A>>, out: seq<Event<A>>,
                       order: seq<nat>)
    requires Advanced(p, q, iv, out, order)
    ensures forall i :: i in p && i !in order ==> i in q && q[i] == p[i]
  {
  }

  lemma FewerKeys<T>(m: map<nat, T>, k: nat)
    ensures |m - {k}| <= |m|
  {
    var n := m - {k};
    assert n.Keys == m.Keys - {k};
    assert |n| == |n.Keys| && |m| == |m.Keys|;
  }

  /** Filling slot `x`, which the heap does not hold, changes no order the heap relies on. */
  lemma OrderFrame<A>(h: FibHeap, was: seq<Event<A>>, now: seq<Event<A>>, x: nat)
    requires h.Agrees(Order(was)) && x !in h.Indices() && h.Valid()
    requires forall i :: i in h.Indices() ==> i < |was| && i < |now| && was[i] == now[i]
    ensures h.AgreesBut(Order(now), x)
  {
    h.SupIn();
  }
}

/** Packing packets into transmit vectors: `ifOutput` and `slowPath` of `goes/vnet/interface_node.go`.
  *
  * A packet is a chain of buffers; the input vector holds one ref a packet, to its first buffer. A transmit
  * vector holds every buffer of whole packets, at most 256. Single-buffer packets are copied four at a time;
  * a chained packet, or a vector about to run over, takes the slow path.
  */
module IfOutput {
  import opened Basics

  const MAX_VECTOR := 256

  /** A buffer reference and, if its flag says so, the next one of the chain. */
  datatype Header = Header(id: nat, len: nat, next: Option<Header>)

  datatype Ref = Ref(header: Header, opaqueArea: nat)

  /** All refs of a packet: later buffers keep the first ref's opaque area. */
  function Chain(h: Header, area: nat): (c: seq<Ref>)
    ensures |c| > 0
  {
    [Ref(h, area)] + if h.next.Some? then Chain(h.next.value, area) else []
  }

  function Packet(r: Ref): (c: seq<Ref>)
    ensures |c| > 0
  {
    Chain(r.header, r.opaqueArea)
  }

  function ChainBytes(h: Header): nat {
    h.len + if h.next.Some? then ChainBytes(h.next.value) else 0
  }

  /** The buffers of a list of packets, in order, and their bytes. */
  function Flat(rs: seq<Ref>): seq<Ref> {
    if |rs| == 0 then [] else Flat(rs[..|rs| - 1]) + Packet(rs[|rs| - 1])
  }

  function Bytes(rs: seq<Ref>): nat {
    if |rs| == 0 then 0 else Bytes(rs[..|rs| - 1]) + ChainBytes(rs[|rs| - 1].header)
  }

  lemma FlatStep(rs: seq<Ref>, a: nat, k: nat)
    requires a <= k < |rs|
    ensures Flat(rs[a..k + 1]) == Flat(rs[a..k]) + Packet(rs[k])
    ensures Bytes(rs[..k + 1]) == Bytes(rs[..k]) + ChainBytes(rs[k].header)
  {
    assert rs[a..k + 1][..k - a] == rs[a..k];
    assert rs[..k + 1][..k] == rs[..k];
  }

  lemma {:induction false} FlatBoth(a: seq<Ref>, b: seq<Ref>)
    ensures Flat(a + b) == Flat(a) + Flat(b)
  {
    if |b| == 0 {
      assert a + b == a;
    } else {
      assert (a + b)[..|a + b| - 1] == a + b[..|b| - 1];
      FlatBoth(a, b[..|b| - 1]);
    }
  }

  /** A vector given to the output thread. */
  datatype Vec = Vec(refs: seq<Ref>, nPackets: nat)

  /** A vector is sent when it is full, or when the next packet does not fit any more, or at the end of the input. */
  predicate Tight(v: Vec, rs: seq<Ref>, cut: nat) {
    cut < |rs| ==> |v.refs| == MAX_VECTOR || |v.refs| + |Packet(rs[cut])| > MAX_VECTOR
  }

  /** The vectors sent so far hold the packets up to each cut, whole, at most 256 buffers a vector, and no vector goes
    * out early. */
  ghost predicate Packed(sent: seq<Vec>, rs: seq<Ref>, cuts: seq<nat>) {
    && |cuts| == |sent| + 1 && cuts[0] == 0
    && (forall i :: 0 <= i < |cuts| ==> cuts[i] <= |rs|)
    && (forall i :: 0 <= i < |sent| ==> cuts[i] < cuts[i + 1])
    && (forall i :: 0 <= i < |sent| ==>
          && sent[i].refs == Flat(rs[cuts[i]..cuts[i + 1]])
          && sent[i].nPackets == cuts[i + 1] - cuts[i]
          && 0 < |sent[i].refs| <= MAX_VECTOR
          && Tight(sent[i], rs, cuts[i + 1]))
  }

  /** The state that `ifOutput` and `slowPath` pass back and forth. */
  datatype Out = Out(rv: seq<Ref>, iv: nat, nBytes: nat, nPackets: nat)

  /** The current vector's first iv places hold the packets from the last cut to position k. */
  ghost predicate Filling(o: Out, rs: seq<Ref>, first: nat, k: nat) {
    && first <= k <= |rs| && o.iv <= |o.rv|
    && o.rv[..o.iv] == Flat(rs[first..k]) && o.nPackets == k - first
  }

  /** `ValidateLen` and `Validate`: make room, with anything in it. */
  method Extend(rv: seq<Ref>, n: nat, any: Ref) returns (r: seq<Ref>)
    ensures |r| >= n && |r| >= |rv| && r[..|rv|] == rv
  {
    r := rv;
    if n > |rv| { r := rv + seq(n - |rv|, _ => any); }
  }

  method WriteAt(rv: seq<Ref>, iv: nat, s: Ref) returns (r: seq<Ref>)
    requires iv <= |rv|
    ensures |r| > iv && r[..iv + 1] == rv[..iv] + [s]
  {
    r := Extend(rv, iv + 1, s);
    assert r[..iv] == r[..|rv|][..iv];
    r := r[iv := s];
  }

  lemma ChainStep(s: Ref, r: Ref, done: seq<Ref>)
    requires done + Chain(s.header, s.opaqueArea) == Packet(r)
    ensures ChainBytes(s.header) == s.header.len + if s.header.next.Some? then ChainBytes(s.header.next.value) else 0
    ensures if s.header.next.Some? then done + [s] + Chain(s.header.next.value, s.opaqueArea) == Packet(r)
            else done + [s] == Packet(r)
  {
    assert s == Ref(s.header, s.opaqueArea);
    if s.header.next.Some? {
      assert Chain(s.header, s.opaqueArea) == [s] + Chain(s.header.next.value, s.opaqueArea);
    } else {
      assert Chain(s.header, s.opaqueArea) == [s];
    }
  }

  predicate TooLarge(r: Ref) {
    |Packet(r)| > MAX_VECTOR
  }

  /** All that was taken before a packet too large has been sent, but for what the current vector holds. */
  ghost predicate Stopped(rs: seq<Ref>, cuts: seq<nat>)
    requires |cuts| > 0
  {
    exists k :: cuts[|cuts| - 1] <= k < |rs| && TooLarge(rs[k]) && |Flat(rs[cuts[|cuts| - 1]..k])| <= MAX_VECTOR
  }

  lemma StopsAt(o: Out, rs: seq<Ref>, cuts: seq<nat>, k: nat)
    requires |cuts| > 0 && k < |rs| && Filling(o, rs, cuts[|cuts| - 1], k) && o.iv <= MAX_VECTOR && TooLarge(rs[k])
    ensures Stopped(rs, cuts)
  {
  }

  /** The loop of `slowPath`: every buffer of one packet. The first one's bytes are already counted. */
  method CopyChain(rv0: seq<Ref>, iv0: nat, r: Ref, nBytes0: nat) returns (rv: seq<Ref>, iv: nat, nBytes: nat)
    requires iv0 <= |rv0| && nBytes0 >= r.header.len
    ensures iv <= |rv| && rv[..iv] == rv0[..iv0] + Packet(r)
    ensures nBytes == nBytes0 - r.header.len + ChainBytes(r.header)
  {
    hide Chain, ChainBytes;
    rv, iv, nBytes := rv0, iv0, nBytes0;
    var s := r;
    ghost var done: seq<Ref> := [];
    while true
      invariant iv0 <= iv <= |rv| && rv[..iv] == rv0[..iv0] + done
      invariant done + Chain(s.header, s.opaqueArea) == Packet(r) && s.opaqueArea == r.opaqueArea
      invariant nBytes - s.header.len + ChainBytes(s.header) == nBytes0 - r.header.len + ChainBytes(r.header)
      decreases s.header
    {
      rv := WriteAt(rv, iv, s);
      iv := iv + 1;
      ChainStep(s, r, done);
      assert rv0[..iv0] + done + [s] == rv0[..iv0] + (done + [s]);
      done := done + [s];
      if s.header.next.None? { break; }
      s := s.(header := s.header.next.value);
      nBytes := nBytes + s.header.len;
    }
  }

  /** `slowPath`: copy a whole packet, and send the vector once it is full or would run over. A packet that does not
    * fit a vector of its own panics. */
  method SlowPath(sent: seq<Vec>, o: Out, rs: seq<Ref>, k: nat, ghost cuts: seq<nat>)
    returns (sent': seq<Vec>, o': Out, panics: bool, ghost cuts': seq<nat>)
    requires k < |rs| && |cuts| > 0 && Packed(sent, rs, cuts) && Filling(o, rs, cuts[|cuts| - 1], k)
    requires o.iv <= MAX_VECTOR && o.nBytes >= rs[k].header.len
    ensures panics <==> TooLarge(rs[k])
    ensures |cuts'| > 0 && Packed(sent', rs, cuts') && (panics ==> Stopped(rs, cuts'))
    ensures o.iv + |Packet(rs[k])| < MAX_VECTOR ==> sent' == sent && cuts' == cuts
    ensures !panics ==> Filling(o', rs, cuts'[|cuts'| - 1], k + 1) && o'.iv <= MAX_VECTOR
    ensures !panics ==> o'.nBytes == o.nBytes - rs[k].header.len + ChainBytes(rs[k].header)
  {
    hide Packed, Chain, ChainBytes, Flat, Packet, Stopped;
    panics, o' := false, o;
    var rv, iv, nBytes := CopyChain(o.rv, o.iv, rs[k], o.nBytes);
    var nPackets := o.nPackets + 1;
    ghost var first := cuts[|cuts| - 1];
    FlatStep(rs, first, k);
    LastCut(rs, k);
    assert rv[..iv] == Flat(rs[first..k + 1]);
    sent', cuts' := sent, cuts;
    if iv >= MAX_VECTOR {
      var save: seq<Ref> := [];
      if iv > MAX_VECTOR {
        var nSave := iv - o.iv;
        if nSave > MAX_VECTOR {
          StopsAt(o, rs, cuts, k);
          return sent, o, true, cuts;
        }
        save := rv[iv - nSave..iv];
        rv := rv[..o.iv];
        nPackets := nPackets - 1;
        SendOk(sent, rs, cuts, Vec(rv, nPackets), k);
        cuts' := cuts + [k];
      } else {
        rv := rv[..iv];
        SendOk(sent, rs, cuts, Vec(rv, nPackets), k + 1);
        cuts' := cuts + [k + 1];
      }
      sent' := sent + [Vec(rv, nPackets)];
      rv := save;
      iv := |save|;
      nPackets := if iv > 0 then 1 else 0;
    }
    o' := Out(rv, iv, nBytes, nPackets);
  }

  lemma SendOk(sent: seq<Vec>, rs: seq<Ref>, cuts: seq<nat>, v: Vec, k: nat)
    requires Packed(sent, rs, cuts) && cuts[|cuts| - 1] <= k <= |rs|
    requires v.refs == Flat(rs[cuts[|cuts| - 1]..k]) && v.nPackets == k - cuts[|cuts| - 1] && 0 < |v.refs| <= MAX_VECTOR
    requires Tight(v, rs, k)
    ensures Packed(sent + [v], rs, cuts + [k])
  {
    hide Flat;
    var sent', cuts' := sent + [v], cuts + [k];
    assert forall i :: 0 <= i < |sent| ==> sent'[i] == sent[i];
    assert forall i :: 0 <= i < |cuts| ==> cuts'[i] == cuts[i];
    SomePackets(rs, cuts[|cuts| - 1], k);
  }

  lemma SomePackets(rs: seq<Ref>, a: nat, k: nat)
    requires a <= k <= |rs|
    ensures a == k ==> Flat(rs[a..k]) == []
  {
  }

  lemma LastCut(rs: seq<Ref>, k: nat)
    requires k < |rs|
    ensures Flat(rs[k..k + 1]) == Packet(rs[k]) && Flat(rs[k + 1..k + 1]) == [] && Flat(rs[k..k]) == []
  {
    assert rs[k..k + 1] == [rs[k]] && [rs[k]][..0] == [];
  }

  predicate Single(r: Ref) {
    r.header.next.None?
  }

  lemma SingleFits(r: Ref)
    requires Single(r)
    ensures !TooLarge(r)
  {
    assert |Packet(r)| == 1;
  }

  lemma SingleStep(o: Out, rs: seq<Ref>, first: nat, k: nat, rv: seq<Ref>)
    requires Filling(o, rs, first, k) && k < |rs| && Single(rs[k])
    requires o.iv < |rv| && rv[..o.iv] == o.rv[..o.iv] && rv[o.iv] == rs[k]
    ensures Filling(Out(rv, o.iv + 1, o.nBytes, o.nPackets + 1), rs, first, k + 1)
    ensures Bytes(rs[..k + 1]) == Bytes(rs[..k]) + rs[k].header.len
  {
    FlatStep(rs, first, k);
    assert Packet(rs[k]) == [rs[k]];
    assert rv[..o.iv + 1] == rv[..o.iv] + [rs[k]];
  }

  /** One packet, written where it goes if it is a single buffer that fits, and by the slow path if not. */
  method Step1(sent: seq<Vec>, o: Out, rs: seq<Ref>, k: nat, nLeft: nat, ghost cuts: seq<nat>)
    returns (sent': seq<Vec>, o': Out, panics: bool, ghost cuts': seq<nat>)
    requires k < |rs| && nLeft == |rs| - k && |o.rv| >= o.iv + nLeft && o.nBytes == Bytes(rs[..k])
    requires |cuts| > 0 && Packed(sent, rs, cuts) && Filling(o, rs, cuts[|cuts| - 1], k)
    requires o.iv <= MAX_VECTOR
    ensures panics <==> TooLarge(rs[k])
    ensures |cuts'| > 0 && Packed(sent', rs, cuts') && (panics ==> Stopped(rs, cuts'))
    ensures !panics ==> Filling(o', rs, cuts'[|cuts'| - 1], k + 1) && o'.iv <= MAX_VECTOR
    ensures !panics ==> |o'.rv| >= o'.iv + nLeft - 1 && o'.nBytes == Bytes(rs[..k + 1])
  {
    hide Packed, Flat, Bytes, Packet, TooLarge, Stopped;
    sent', cuts', panics := sent, cuts, false;
    var rv := o.rv[o.iv := rs[k]];
    var nBytes := o.nBytes + rs[k].header.len;
    if !Single(rs[k]) || o.iv + 1 > MAX_VECTOR {
      FlatStep(rs, 0, k);
      sent', o', panics, cuts' := SlowPath(sent, Out(rv, o.iv, nBytes, o.nPackets), rs, k, cuts);
      if panics { return; }
      var more := Extend(o'.rv, o'.iv + nLeft - 1, rs[k]);
      o' := o'.(rv := more);
    } else {
      SingleFits(rs[k]);
      SingleStep(o, rs, cuts[|cuts| - 1], k, rv);
      o' := Out(rv, o.iv + 1, nBytes, o.nPackets + 1);
    }
  }

  /** Four packets at once: kept if all are single buffers and still fit, else undone and taken one by one. */
  method Step4(sent: seq<Vec>, o: Out, rs: seq<Ref>, k: nat, nLeft: nat, ghost cuts: seq<nat>)
    returns (sent': seq<Vec>, o': Out, panics: bool, ghost cuts': seq<nat>)
    requires k + 4 <= |rs| && nLeft == |rs| - k && |o.rv| >= o.iv + nLeft && o.nBytes == Bytes(rs[..k])
    requires |cuts| > 0 && Packed(sent, rs, cuts) && Filling(o, rs, cuts[|cuts| - 1], k)
    requires o.iv <= MAX_VECTOR
    ensures panics <==> TooLarge(rs[k]) || TooLarge(rs[k + 1]) || TooLarge(rs[k + 2]) || TooLarge(rs[k + 3])
    ensures |cuts'| > 0 && Packed(sent', rs, cuts') && (panics ==> Stopped(rs, cuts'))
    ensures !panics ==> Filling(o', rs, cuts'[|cuts'| - 1], k + 4) && o'.iv <= MAX_VECTOR
    ensures !panics ==> |o'.rv| >= o'.iv + nLeft - 4 && o'.nBytes == Bytes(rs[..k + 4])
  {
    hide Packed, Flat, Bytes, Packet, TooLarge, Stopped;
    sent', cuts', panics := sent, cuts, false;
    var iv := o.iv;
    var rv := o.rv[iv := rs[k]][iv + 1 := rs[k + 1]][iv + 2 := rs[k + 2]][iv + 3 := rs[k + 3]];
    var nBytes := o.nBytes + (rs[k].header.len + rs[k + 1].header.len + rs[k + 2].header.len + rs[k + 3].header.len);
    FlatStep(rs, 0, k);
    FlatStep(rs, 0, k + 1);
    FlatStep(rs, 0, k + 2);
    FlatStep(rs, 0, k + 3);
    if !Single(rs[k]) || !Single(rs[k + 1]) || !Single(rs[k + 2]) || !Single(rs[k + 3]) || iv + 4 > MAX_VECTOR {
      o' := Out(rv, iv, nBytes, o.nPackets);
      assert rv[..iv] == o.rv[..iv];
      sent', o', panics, cuts' := SlowPath(sent', o', rs, k, cuts');
      if panics { return; }
      sent', o', panics, cuts' := SlowPath(sent', o', rs, k + 1, cuts');
      if panics { return; }
      sent', o', panics, cuts' := SlowPath(sent', o', rs, k + 2, cuts');
      if panics { return; }
      sent', o', panics, cuts' := SlowPath(sent', o', rs, k + 3, cuts');
      if panics { return; }
      var more := Extend(o'.rv, o'.iv + nLeft - 4, rs[k]);
      o' := o'.(rv := more);
    } else {
      SingleFits(rs[k]);
      SingleFits(rs[k + 1]);
      SingleFits(rs[k + 2]);
      SingleFits(rs[k + 3]);
      o' := FourSingles(o, rs, k, rv, nBytes, cuts[|cuts| - 1]);
    }
  }

  method FourSingles(o: Out, rs: seq<Ref>, k: nat, rv: seq<Ref>, nBytes: nat, ghost first: nat) returns (o': Out)
    requires Filling(o, rs, first, k) && k + 4 <= |rs| && o.iv + 4 <= |rv| && o.nBytes == Bytes(rs[..k])
    requires Single(rs[k]) && Single(rs[k + 1]) && Single(rs[k + 2]) && Single(rs[k + 3])
    requires rv[..o.iv] == o.rv[..o.iv]
    requires rv[o.iv] == rs[k] && rv[o.iv + 1] == rs[k + 1] && rv[o.iv + 2] == rs[k + 2] && rv[o.iv + 3] == rs[k + 3]
    requires nBytes == o.nBytes +
      (rs[k].header.len + rs[k + 1].header.len + rs[k + 2].header.len + rs[k + 3].header.len)
    ensures o' == Out(rv, o.iv + 4, nBytes, o.nPackets + 4)
    ensures Filling(o', rs, first, k + 4) && nBytes == Bytes(rs[..k + 4])
  {
    hide Filling, Bytes;
    SingleStep(o, rs, first, k, rv);
    SingleStep(Out(rv, o.iv + 1, o.nBytes, o.nPackets + 1), rs, first, k + 1, rv);
    SingleStep(Out(rv, o.iv + 2, o.nBytes, o.nPackets + 2), rs, first, k + 2, rv);
    SingleStep(Out(rv, o.iv + 3, o.nBytes, o.nPackets + 3), rs, first, k + 3, rv);
    FillingAny(Out(rv, o.iv + 4, o.nBytes, o.nPackets + 4), nBytes, rs, first, k + 4);
    o' := Out(rv, o.iv + 4, nBytes, o.nPackets + 4);
  }

  lemma FillingAny(o: Out, nBytes: nat, rs: seq<Ref>, first: nat, k: nat)
    requires Filling(o, rs, first, k)
    ensures Filling(o.(nBytes := nBytes), rs, first, k)
  {
  }

  /** `ifOutput`, while the interface is up: the vectors sent are the input's packets, whole and in order. An empty
    * input underflows the first length, and a packet that no vector holds is refused. */
  method IfOutput(rs: seq<Ref>) returns (sent: seq<Vec>, nBytes: nat, panics: bool, ghost cuts: seq<nat>)
    ensures panics <==> |rs| == 0 || exists i :: 0 <= i < |rs| && TooLarge(rs[i])
    ensures Packed(sent, rs, cuts) && (panics && |rs| > 0 ==> Stopped(rs, cuts))
    ensures !panics ==> cuts[|cuts| - 1] == |rs| && nBytes == Bytes(rs)
  {
    hide Packed, Flat, Bytes, Packet, Filling, TooLarge, Stopped;
    sent, nBytes, panics, cuts := [], 0, |rs| == 0, [0];
    Start(rs, Out([], 0, 0, 0));
    if panics { return; }
    var n := |rs|;
    var rv := Extend([], n, rs[0]);
    var o := Out(rv, 0, 0, 0);
    Start(rs, o);
    var is_ := 0;
    while n - is_ >= 4
      invariant 0 <= is_ <= n && |cuts| > 0 && Packed(sent, rs, cuts) && Filling(o, rs, cuts[|cuts| - 1], is_)
      invariant o.iv <= MAX_VECTOR && |o.rv| >= o.iv + (n - is_) && o.nBytes == Bytes(rs[..is_])
      invariant forall i :: 0 <= i < is_ ==> !TooLarge(rs[i])
    {
      sent, o, panics, cuts := Step4(sent, o, rs, is_, n - is_, cuts);
      if panics { return; }
      is_ := is_ + 4;
    }
    while n - is_ > 0
      invariant 0 <= is_ <= n && |cuts| > 0 && Packed(sent, rs, cuts) && Filling(o, rs, cuts[|cuts| - 1], is_)
      invariant o.iv <= MAX_VECTOR && |o.rv| >= o.iv + (n - is_) && o.nBytes == Bytes(rs[..is_])
      invariant forall i :: 0 <= i < is_ ==> !TooLarge(rs[i])
    {
      sent, o, panics, cuts := Step1(sent, o, rs, is_, n - is_, cuts);
      if panics { return; }
      is_ := is_ + 1;
    }
    assert rs[..n] == rs;
    nBytes, panics := o.nBytes, false;
    Rest(o, rs, cuts[|cuts| - 1]);
    if o.iv > 0 {
      SendOk(sent, rs, cuts, Vec(o.rv[..o.iv], o.nPackets), n);
      sent := sent + [Vec(o.rv[..o.iv], o.nPackets)];
      cuts := cuts + [n];
    }
  }

  lemma Start(rs: seq<Ref>, o: Out)
    requires o.iv == 0 && o.nPackets == 0
    ensures Packed([], rs, [0]) && Filling(o, rs, 0, 0) && Bytes(rs[..0]) == 0
  {
  }

  lemma Rest(o: Out, rs: seq<Ref>, first: nat)
    requires Filling(o, rs, first, |rs|)
    ensures first <= |rs| && o.iv <= |o.rv| && o.rv[..o.iv] == Flat(rs[first..|rs|]) && o.nPackets == |rs| - first
    ensures o.iv == 0 ==> first == |rs|
  {
    if first < |rs| { FlatStep(rs, first, |rs| - 1); }
  }

  function Joined(sent: seq<Vec>): seq<Ref> {
    if |sent| == 0 then [] else Joined(sent[..|sent| - 1]) + sent[|sent| - 1].refs
  }

  function Packets(sent: seq<Vec>): nat {
    if |sent| == 0 then 0 else Packets(sent[..|sent| - 1]) + sent[|sent| - 1].nPackets
  }

  /** The vectors, one after the other, are the flattened input, and their packet counts add up. */
  lemma {:induction false} PackedAll(sent: seq<Vec>, rs: seq<Ref>, cuts: seq<nat>)
    requires Packed(sent, rs, cuts)
    ensures Joined(sent) == Flat(rs[..cuts[|cuts| - 1]]) && Packets(sent) == cuts[|cuts| - 1]
  {
    if |sent| > 0 {
      var a, b := cuts[|cuts| - 2], cuts[|cuts| - 1];
      PackedAll(sent[..|sent| - 1], rs, cuts[..|cuts| - 1]);
      assert rs[..b] == rs[..a] + rs[a..b];
      FlatBoth(rs[..a], rs[a..b]);
    }
  }

  lemma {:induction false} FlatLonger(rs: seq<Ref>, a: nat, b: nat, c: nat)
    requires a <= b < c <= |rs|
    ensures |Flat(rs[a..c])| >= |Flat(rs[a..b])| + |Packet(rs[b])|
    decreases c
  {
    FlatStep(rs, a, c - 1);
    if c - 1 > b { FlatLonger(rs, a, b, c - 1); }
  }

  /** A vector from the same packet on cannot be sent at two places. */
  lemma SameCut(rs: seq<Ref>, a: nat, b: nat, c: nat)
    requires a < b <= |rs| && a < c <= |rs|
    requires |Flat(rs[a..b])| <= MAX_VECTOR && |Flat(rs[a..c])| <= MAX_VECTOR
    requires Tight(Vec(Flat(rs[a..b]), b - a), rs, b) && Tight(Vec(Flat(rs[a..c]), c - a), rs, c)
    ensures b == c
  {
    if b < c { FlatLonger(rs, a, b, c); }
    if c < b { FlatLonger(rs, a, c, b); }
  }

  /** The input fixes the vectors: there is one way to pack it. */
  lemma {:induction false} OnePacking(rs: seq<Ref>, sent: seq<Vec>, cuts: seq<nat>, sent': seq<Vec>, cuts': seq<nat>,
                                      n: nat)
    requires Packed(sent, rs, cuts) && Packed(sent', rs, cuts') && n <= |sent| && n <= |sent'|
    ensures sent[..n] == sent'[..n] && cuts[..n + 1] == cuts'[..n + 1]
  {
    if n > 0 {
      hide Flat, Packet, Tight;
      OnePacking(rs, sent, cuts, sent', cuts', n - 1);
      assert cuts[n - 1] == cuts[..n][n - 1] == cuts'[..n][n - 1] == cuts'[n - 1];
      var a, v, v' := cuts[n - 1], sent[n - 1], sent'[n - 1];
      assert v == Vec(Flat(rs[a..cuts[n]]), cuts[n] - a) && v' == Vec(Flat(rs[a..cuts'[n]]), cuts'[n] - a);
      SameCut(rs, a, cuts[n], cuts'[n]);
      assert sent[..n] == sent[..n - 1] + [v] && sent'[..n] == sent'[..n - 1] + [v'];
      assert cuts[..n + 1] == cuts[..n] + [cuts[n]] && cuts'[..n + 1] == cuts'[..n] + [cuts'[n]];
    }
  }

  lemma NoMore(sent: seq<Vec>, rs: seq<Ref>, cuts: seq<nat>, n: nat)
    requires Packed(sent, rs, cuts) && n <= |sent|
    ensures cuts[n] == |rs| ==> n == |sent|
  {
    assert n < |sent| ==> cuts[n] < cuts[n + 1] <= |rs|;
  }

  /** Two packings of the whole input are the same. */
  lemma SamePacking(rs: seq<Ref>, sent: seq<Vec>, cuts: seq<nat>, sent': seq<Vec>, cuts': seq<nat>)
    requires Packed(sent, rs, cuts) && Packed(sent', rs, cuts')
    requires cuts[|cuts| - 1] == cuts'[|cuts'| - 1] == |rs|
    ensures sent == sent'
  {
    var n := if |sent| <= |sent'| then |sent| else |sent'|;
    OnePacking(rs, sent, cuts, sent', cuts', n);
    assert cuts[n] == cuts[..n + 1][n] == cuts'[..n + 1][n] == cuts'[n];
    assert cuts[n] == |rs|;
    NoMore(sent, rs, cuts, n);
    NoMore(sent', rs, cuts', n);
    assert sent == sent[..n] && sent' == sent'[..n];
  }
}

/** `Input`, `Serve` and `conn.Read` of `goes/elib/srpc/srpc.go`: frames taken from the shared stream go to the
  * side that their sender is not, and readers with buffers of any size get each side's bytes in order.
  */
module SrpcConns {
  import opened SrpcFrames

  /** The side that reads a frame: side 0 is the server, side 1 the client. */
  function Reader(f: Frame): nat {
    if f.isClient then 0 else 1
  }

  /** The bytes that the frames carry to one side. */
  function Carried(fs: seq<Frame>, side: nat): Bytes {
    if |fs| == 0 then []
    else
      var last := fs[|fs| - 1];
      Carried(fs[..|fs| - 1], side) + if Reader(last) == side then last.content else []
  }

  lemma CarriedStep(fs: seq<Frame>, f: Frame, side: nat)
    ensures Carried(fs + [f], side) == Carried(fs, side) + if Reader(f) == side then f.content else []
  {
    assert (fs + [f])[..|fs|] == fs;
  }

  lemma {:induction false} CarriedBoth(a: seq<Frame>, b: seq<Frame>, side: nat)
    ensures Carried(a + b, side) == Carried(a, side) + Carried(b, side)
  {
    if |b| == 0 {
      assert a + b == a;
    } else {
      assert (a + b)[..|a + b| - 1] == a + b[..|b| - 1];
      CarriedBoth(a, b[..|b| - 1], side);
    }
  }

  function Contents(fs: seq<Frame>): seq<Bytes> {
    seq(|fs|, i requires 0 <= i < |fs| => fs[i].content)
  }

  /** What a client sends reaches the server alone, side 0, and what a server sends the client alone, side 1. */
  lemma {:induction false} OneSided(fs: seq<Frame>, isClient: bool)
    requires forall f :: f in fs ==> f.isClient == isClient
    ensures isClient ==> Carried(fs, 0) == Joined(Contents(fs)) && Carried(fs, 1) == []
    ensures !isClient ==> Carried(fs, 1) == Joined(Contents(fs)) && Carried(fs, 0) == []
  {
    if |fs| > 0 {
      var rest, last := fs[..|fs| - 1], fs[|fs| - 1];
      OneSided(rest, isClient);
      JoinedStep(Contents(rest), last.content);
      assert Contents(fs) == Contents(rest) + [last.content];
      assert last in fs;
    }
  }

  function Joined(bufs: seq<Bytes>): Bytes {
    if |bufs| == 0 then [] else bufs[0] + Joined(bufs[1..])
  }

  lemma {:induction false} JoinedStep(bufs: seq<Bytes>, b: Bytes)
    ensures Joined(bufs + [b]) == Joined(bufs) + b
  {
    if |bufs| == 0 {
      assert bufs + [b] == [b] && Joined([b][1..]) == [];
    } else {
      assert (bufs + [b])[1..] == bufs[1..] + [b];
      JoinedStep(bufs[1..], b);
    }
  }

  class Conn {
    /** Buffers sent to each side and not yet read, and what a short read left over. */
    var rx: seq<seq<Bytes>>
    var overflow: seq<Bytes>

    ghost predicate Valid()
      reads this
    {
      |rx| == |overflow| == 2 && forall s, i :: 0 <= s < 2 && 0 <= i < |rx[s]| ==> |rx[s][i]| > 0
    }

    /** The bytes that a side has still to read. */
    ghost function Stream(side: nat): Bytes
      requires Valid() && side < 2
      reads this
    {
      overflow[side] + Joined(rx[side])
    }

    constructor ()
      ensures Valid() && forall s :: 0 <= s < 2 ==> Stream(s) == []
    {
      rx, overflow := [[], []], [[], []];
    }

    method Send(side: nat, buf: Bytes)
      requires Valid() && side < 2 && |buf| > 0
      modifies this`rx
      ensures Valid()
      ensures forall s :: 0 <= s < 2 ==> Stream(s) == old(Stream(s)) + if s == side then buf else []
    {
      JoinedStep(rx[side], buf);
      rx := rx[side := rx[side] + [buf]];
      assert forall s :: 0 <= s < 2 ==> old(Stream(s)) + [] == old(Stream(s));
    }

    /** Send the last frame's content, unless it is empty. */
    method Flush(side: nat, buf: Bytes)
      requires Valid() && side < 2
      modifies this`rx
      ensures Valid()
      ensures forall s :: 0 <= s < 2 ==> Stream(s) == old(Stream(s)) + if s == side then buf else []
    {
      if |buf| > 0 {
        Send(side, buf);
      } else {
        assert forall s :: 0 <= s < 2 ==>
          (old(Stream(s)) + buf == old(Stream(s)) && old(Stream(s)) + [] == old(Stream(s)));
      }
    }

    /** `Input`: send the content of every whole frame; a frame's content goes out when the next one is looked at.
      * A header whose frame length wraps round is taken for a frame, and the slice after it panics. */
    method Input(b: Bytes) returns (n: nat, panics: bool)
      requires Valid() && |b| < INT_LIMIT
      modifies this`rx
      ensures Valid() && (panics <==> Wraps(Residue(b)))
      ensures !panics ==> n <= |b| && b[n..] == Residue(b)
      ensures forall s :: 0 <= s < 2 ==> Stream(s) == old(Stream(s)) + Carried(Frames(b), s)
    {
      hide Frames, Residue, FrameGet, Carried, Whole, First, Stream, Valid;
      n, panics := 0, false;
      var nLeft: nat, lastLen: nat, lastSide: nat := |b|, 0, 0;
      ghost var done: seq<Frame> := [];
      assert b[0..] == b;
      NoneCarried();
      while true
        invariant Valid() && n <= |b| && nLeft == |b| - n && lastLen <= n && lastSide < 2
        invariant Frames(b) == done + Frames(b[n..]) && Residue(b) == Residue(b[n..])
        invariant forall s :: 0 <= s < 2 ==>
          Stream(s) + (if s == lastSide then b[n - lastLen..n] else []) == old(Stream(s)) + Carried(done, s)
        decreases |b| - n
      {
        var frame := FrameGet(b[n..]);
        LengthInt(b[n..]);
        var frameLen := AddInt(frame.2, frame.1);
        var frameValid := frame.2 > 0 && nLeft >= frameLen;
        Flush(lastSide, b[n - lastLen..n]);
        assert forall s :: 0 <= s < 2 ==> Stream(s) == old(Stream(s)) + Carried(done, s);
        LookFrame(b, n);
        if !frameValid {
          assert done + [] == done;
          return;
        }
        if n + frameLen < 0 {
          assert done + [] == done;
          panics := true;
          return;
        }
        ghost var f := First(b[n..]);
        CarriedStep(done, f, 0);
        CarriedStep(done, f, 1);
        lastLen := frame.1;
        lastSide := if frame.0 then 0 else 1;
        n := n + frameLen;
        nLeft := nLeft - frameLen;
        assert done + ([f] + Frames(b[n..])) == done + [f] + Frames(b[n..]);
        done := done + [f];
      }
    }

    /** `Serve`, for the reads that the connection happens to return. The residue of one read starts the next. It
      * goes on until the residue starts with a header that wraps, which no peer sends. */
    method Serve(reads_: seq<Bytes>) returns (b: Bytes, panics: bool, served: nat)
      requires Valid()
      requires forall i :: 0 <= i < |reads_| ==> |Residue(Joined(reads_[..i]))| + |reads_[i]| < INT_LIMIT
      modifies this`rx
      ensures Valid() && served <= |reads_| && (!panics ==> served == |reads_| && b == Residue(Joined(reads_)))
      ensures panics <==> Wraps(Residue(Joined(reads_[..served])))
      ensures forall k :: 0 <= k < served ==> !Wraps(Residue(Joined(reads_[..k])))
      ensures forall s :: 0 <= s < 2 ==> Stream(s) == old(Stream(s)) + Carried(Frames(Joined(reads_[..served])), s)
    {
      hide Frames, Residue, Carried, Stream, Wraps;
      b, panics := [], false;
      NoneCarried();
      EmptyFrames([]);
      assert Joined(reads_[..0]) == [];
      for i := 0 to |reads_|
        invariant Valid() && b == Residue(Joined(reads_[..i])) && !panics
        invariant forall k :: 0 <= k <= i ==> !Wraps(Residue(Joined(reads_[..k])))
        invariant forall s :: 0 <= s < 2 ==> Stream(s) == old(Stream(s)) + Carried(Frames(Joined(reads_[..i])), s)
      {
        ghost var was := Joined(reads_[..i]);
        JoinedStep(reads_[..i], reads_[i]);
        assert reads_[..i + 1] == reads_[..i] + [reads_[i]];
        CutAnywhere(was, reads_[i]);
        CarriedBoth(Frames(was), Frames(b + reads_[i]), 0);
        CarriedBoth(Frames(was), Frames(b + reads_[i]), 1);
        b := b + reads_[i];
        var l;
        l, panics := Input(b);
        if panics { return b, true, i + 1; }
        b := b[l..];
      }
      assert reads_[..|reads_|] == reads_;
      served := |reads_|;
    }

    /** The first buffer waiting for a side. */
    ghost function Front(side: nat): Bytes
      requires Valid() && side < 2
      reads this
    {
      if |rx[side]| == 0 then [] else rx[side][0]
    }

    /** `conn.Read` into a buffer of the given size; the source waits while there is nothing to read. */
    method Read(size: nat, side: nat) returns (p: Bytes)
      requires Valid() && side < 2 && Stream(side) != []
      modifies this
      ensures Valid() && old(Stream(side)) == p + Stream(side)
      ensures |p| <= size && (size > 0 ==> |p| > 0)
      ensures var next := if old(overflow[side]) != [] then old(overflow[side]) else old(Front(side));
        |p| == if size < |next| then size else |next|
      ensures Stream(1 - side) == old(Stream(1 - side))
    {
      if |overflow[side]| > 0 {
        var n := if size < |overflow[side]| then size else |overflow[side]|;
        p := overflow[side][..n];
        overflow := overflow[side := overflow[side][n..]];
      } else {
        var buf := rx[side][0];
        rx := rx[side := rx[side][1..]];
        var n := if size < |buf| then size else |buf|;
        p := buf[..n];
        if n < |buf| {
          overflow := overflow[side := overflow[side] + buf[n..]];
        }
      }
    }
  }

  lemma NoneCarried()
    ensures Carried([], 0) == [] && Carried([], 1) == []
  {
  }

  lemma LengthInt(b: Bytes)
    ensures var (c, l, h) := FrameGet(b); l < INT_LIMIT && -INT_LIMIT <= h <= 10 && (h < 0 ==> l == 0)
  {
    if Uvarint(b, 0).Value? { ValueRange(b, 0); }
    RoomWord();
  }

  /** What the frame at position n says, in terms of the buffer from there on. */
  lemma LookFrame(b: Bytes, n: nat)
    requires n <= |b|
    ensures var (c, l, h) := FrameGet(b[n..]);
      && (Wraps(b[n..]) <==> h > 0 && h + l >= INT_LIMIT)
      && if h > 0 && |b| - n >= h + l
      then var f := Frame(c, b[n + h..n + h + l]);
        && Whole(b[n..]) && First(b[n..]) == f && b[n + h + l - l..n + h + l] == f.content
        && Frames(b[n..]) == [f] + Frames(b[n + h + l..]) && Residue(b[n..]) == Residue(b[n + h + l..])
      else Frames(b[n..]) == [] && Residue(b[n..]) == b[n..]
  {
    hide FrameGet;
    var (c, l, h) := FrameGet(b[n..]);
    if h > 0 && |b| - n >= h + l {
      assert b[n..][h..h + l] == b[n + h..n + h + l];
      assert b[n..][h + l..] == b[n + h + l..];
    }
  }

  /** However a stream of frames is cut into reads, each side gets exactly its peer's bytes, in order, up to the
    * last whole frame; what is left is a proper prefix of the next. */
  lemma Delivered(fs: seq<Frame>, received: Bytes, side: nat)
    requires (forall f :: f in fs ==> Fits(f)) && received <= Wire(fs)
    ensures var k := |Frames(received)|;
      && k <= |fs| && Carried(Frames(received), side) == Carried(fs[..k], side)
      && received == Wire(fs[..k]) + Residue(received) && !Wraps(Residue(received))
      && (if k < |fs| then Residue(received) < Encoded(fs[k]) else Residue(received) == [])
  {
    WirePrefix(fs, received);
  }

  /** A whole stream delivers everything. */
  lemma AllDelivered(fs: seq<Frame>, side: nat)
    requires forall f :: f in fs ==> Fits(f)
    ensures Carried(Frames(Wire(fs)), side) == Carried(fs, side) && Residue(Wire(fs)) == []
  {
    hide Fits, Encoded;
    WirePrefix(fs, Wire(fs));
    var k := |Frames(Wire(fs))|;
    if k < |fs| {
      WireSplit(fs, k);
    } else {
      assert fs[..k] == fs;
    }
  }

  lemma {:induction false} WireSplit(fs: seq<Frame>, k: nat)
    requires k <= |fs|
    ensures Wire(fs) == Wire(fs[..k]) + Wire(fs[k..])
  {
    hide Encoded;
    if k > 0 {
      WireSplit(fs[1..], k - 1);
      assert fs[..k][1..] == fs[1..][..k - 1] && fs[1..][k - 1..] == fs[k..];
    } else {
      assert fs[..0] == [] && fs[0..] == fs;
    }
  }
}

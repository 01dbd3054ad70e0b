/** Framing of `goes/elib/srpc/srpc.go`: two byte streams, one from each side, shared on one connection. A frame
  * is a varint header, twice the length plus one for a client's frame, and then its bytes.
  */
module SrpcFrames {
  import opened Basics

  type Bytes = seq<Byte>

  datatype Frame = Frame(isClient: bool, content: Bytes)

  const WORD_LIMIT := 0x1_0000_0000_0000_0000
  const INT_LIMIT := 0x8000_0000_0000_0000

  /** The sum of two lengths in the 64 bits of an `int`. */
  function AddInt(a: int, b: int): int
    requires -INT_LIMIT <= a < INT_LIMIT && -INT_LIMIT <= b < INT_LIMIT
  {
    var s := a + b;
    if s >= INT_LIMIT then s - WORD_LIMIT else if s < -INT_LIMIT then s + WORD_LIMIT else s
  }

  function Low(x: nat): Byte { x % 128 }

  /** `binary.PutUvarint`. */
  function PutUvarint(x: nat): (b: Bytes)
    ensures |b| > 0
  {
    if x < 128 then [x] else [128 + Low(x)] + PutUvarint(x / 128)
  }

  /** `binary.Uvarint`: more bytes needed, or no 64-bit value, or the value and the bytes that it took. */
  datatype Varint = Short | Overflow | Value(value: nat, size: nat)

  function Uvarint(b: Bytes, i: nat): Varint
    requires i <= |b|
    decreases |b| - i
  {
    if i == |b| then Short
    else if b[i] < 128 then
      if i > 9 || (i == 9 && b[i] > 1) then Overflow else Value(b[i], i + 1)
    else
      var r := Uvarint(b, i + 1);
      if r.Value? then Value(b[i] - 128 + 128 * r.value, r.size) else r
  }

  lemma {:induction false} UvarintSize(b: Bytes, i: nat)
    requires i <= |b| && Uvarint(b, i).Value?
    ensures i < Uvarint(b, i).size <= |b|
    decreases |b| - i
  {
    if b[i] >= 128 { UvarintSize(b, i + 1); }
  }

  /** What has been decided does not change as bytes arrive. */
  lemma {:induction false} UvarintMore(a: Bytes, b: Bytes, i: nat)
    requires i <= |a| && !Uvarint(a, i).Short?
    ensures Uvarint(a + b, i) == Uvarint(a, i)
    decreases |a| - i
  {
    if a[i] >= 128 { UvarintMore(a, b, i + 1); }
  }

  /** Seven bits a byte: x < 128^k takes at most k bytes. */
  function Room(k: nat): (r: nat)
    ensures r > 0
  {
    if k == 0 then 1 else 128 * Room(k - 1)
  }

  /** A value that is decoded fits 64 bits. */
  lemma {:induction false} ValueRange(b: Bytes, i: nat)
    requires i <= |b| && Uvarint(b, i).Value?
    ensures i <= 9 && Uvarint(b, i).size <= 10 && Uvarint(b, i).value < 2 * Room(9 - i)
    decreases |b| - i
  {
    if b[i] >= 128 {
      ValueRange(b, i + 1);
      assert Room(9 - i) == 128 * Room(9 - (i + 1));
    } else if i < 9 {
      assert Room(9 - i) == 128 * Room(8 - i);
    }
  }

  lemma RoomWord()
    ensures 2 * Room(9) == WORD_LIMIT
  {
    hide Room;
    RoomNone();
    RoomThree(0);
    RoomThree(3);
    RoomThree(6);
  }

  lemma RoomNone()
    ensures Room(0) == 1
  {
  }

  lemma RoomThree(k: nat)
    ensures Room(k + 3) == 0x20_0000 * Room(k)
  {
    assert Room(k + 3) == 128 * Room(k + 2) && Room(k + 2) == 128 * Room(k + 1) && Room(k + 1) == 128 * Room(k);
  }

  lemma {:induction false} VarintRead(head: Bytes, x: nat, rest: Bytes, i: nat)
    requires |head| == i && i <= 9 && x < 2 * Room(9 - i)
    ensures Uvarint(head + PutUvarint(x) + rest, i) == Value(x, i + |PutUvarint(x)|)
    decreases x
  {
    var b := head + PutUvarint(x) + rest;
    if x < 128 {
      assert b[i] == x;
    } else {
      assert i < 9;
      var c: Byte := 128 + Low(x);
      assert b[i] == c;
      var more := head + [c];
      assert b == more + PutUvarint(x / 128) + rest;
      assert x / 128 < 2 * Room(9 - (i + 1));
      VarintRead(more, x / 128, rest, i + 1);
    }
  }

  lemma {:induction false} VarintCut(head: Bytes, x: nat, k: nat, i: nat)
    requires |head| == i && k < |PutUvarint(x)|
    ensures Uvarint(head + PutUvarint(x)[..k], i).Short?
    decreases x
  {
    var b := head + PutUvarint(x)[..k];
    if k > 0 {
      var c: Byte := 128 + Low(x);
      assert b[i] == c;
      assert b == (head + [c]) + PutUvarint(x / 128)[..k - 1];
      VarintCut(head + [c], x / 128, k - 1, i + 1);
    }
  }

  // ---- Frames ----

  function HeaderValue(isClient: bool, l: nat): nat {
    (if isClient then 1 else 0) + 2 * l
  }

  /** `framePut` and the bytes that `Write` puts after it. */
  function Encoded(f: Frame): Bytes {
    PutUvarint(HeaderValue(f.isClient, |f.content|)) + f.content
  }

  /** `frameGet`: side, content length and header length, which is positive only for a whole header. */
  function FrameGet(b: Bytes): (r: (bool, nat, int))
    ensures 0 < r.2 ==> r.2 <= |b|
  {
    match Uvarint(b, 0)
    case Short => (false, 0, 0)
    case Overflow => (false, 0, -1)
    case Value(v, n) =>
      assert n <= |b| by { UvarintSize(b, 0); }
      (v % 2 == 1, v / 2, n)
  }

  /** On the wire: twice the length, and one more for a client's frame, seven bits a byte, the low ones first. */
  lemma EncodedBytes(f: Frame)
    ensures |f.content| < 64 ==>
      Encoded(f) == [2 * |f.content| + if f.isClient then 1 else 0] + f.content
    ensures 64 <= |f.content| < 0x2000 ==>
      (var v := 2 * |f.content| + if f.isClient then 1 else 0;
       Encoded(f) == [128 + v % 128, v / 128] + f.content)
  {
    var v := HeaderValue(f.isClient, |f.content|);
    if 64 <= |f.content| < 0x2000 {
      assert PutUvarint(v / 128) == [v / 128];
      assert PutUvarint(v) == [128 + Low(v)] + [v / 128];
    }
  }

  predicate Whole(b: Bytes) {
    FrameGet(b).2 > 0 && FrameGet(b).2 + FrameGet(b).1 <= |b|
  }

  function First(b: Bytes): Frame
    requires Whole(b)
  {
    var (c, l, n) := FrameGet(b);
    Frame(c, b[n..n + l])
  }

  function FirstSize(b: Bytes): (r: nat)
    requires Whole(b)
    ensures 0 < r <= |b|
  {
    FrameGet(b).2 + FrameGet(b).1
  }

  /** The whole frames at the front of a buffer. */
  function Frames(b: Bytes): seq<Frame>
    decreases |b|
  {
    if Whole(b) then [First(b)] + Frames(b[FirstSize(b)..]) else []
  }

  /** What is left after them. */
  function Residue(b: Bytes): Bytes
    decreases |b|
  {
    if Whole(b) then Residue(b[FirstSize(b)..]) else b
  }

  /** The header names a frame whose whole length is no `int`: no run of `Write` sends one. */
  predicate Wraps(b: Bytes) {
    FrameGet(b).2 > 0 && FrameGet(b).2 + FrameGet(b).1 >= INT_LIMIT
  }

  const BIG: Bytes := [255, 255, 255, 255, 255, 255, 255, 255, 255, 1]

  lemma BigTail()
    ensures Uvarint(BIG, 5) == Value(0x1fff_ffff, 10)
  {
    assert Uvarint(BIG, 9) == Value(1, 10);
    assert Uvarint(BIG, 8) == Value(255, 10);
    assert Uvarint(BIG, 7) == Value(0x7fff, 10);
  }

  /** There are such headers: the ten bytes of the greatest 64-bit value, which asks for 2^63 - 1 bytes more. */
  lemma BigWraps()
    ensures Wraps(BIG) && !Whole(BIG)
  {
    BigTail();
    assert Uvarint(BIG, 3) == Value(0x7ff_ffff_ffff, 10);
  }

  lemma WholeMore(a: Bytes, b: Bytes)
    requires Whole(a)
    ensures Whole(a + b) && First(a + b) == First(a) && FirstSize(a + b) == FirstSize(a)
  {
    UvarintMore(a, b, 0);
  }

  /** Cutting the stream anywhere, and carrying the residue over, gives the same frames: for any bytes at all. */
  lemma {:induction false} CutAnywhere(a: Bytes, b: Bytes)
    ensures Frames(a + b) == Frames(a) + Frames(Residue(a) + b)
    ensures Residue(a + b) == Residue(Residue(a) + b)
    decreases |a|
  {
    if Whole(a) {
      WholeMore(a, b);
      var n := FirstSize(a);
      assert (a + b)[n..] == a[n..] + b;
      CutAnywhere(a[n..], b);
    }
  }

  function Wire(fs: seq<Frame>): Bytes {
    if |fs| == 0 then [] else Encoded(fs[0]) + Wire(fs[1..])
  }

  /** A frame is a slice of bytes, whose length is an `int`. */
  predicate Fits(f: Frame) {
    |Encoded(f)| < INT_LIMIT
  }

  lemma EncodedFirst(f: Frame, rest: Bytes)
    requires Fits(f)
    ensures var b := Encoded(f) + rest; Whole(b) && First(b) == f && FirstSize(b) == |Encoded(f)|
  {
    hide PutUvarint;
    var b := Encoded(f) + rest;
    HeaderRead(f, rest);
    var n := |PutUvarint(HeaderValue(f.isClient, |f.content|))|;
    assert b[n..|Encoded(f)|] == f.content;
  }

  lemma HeaderRead(f: Frame, rest: Bytes)
    requires Fits(f)
    ensures FrameGet(Encoded(f) + rest)
      == (f.isClient, |f.content|, |PutUvarint(HeaderValue(f.isClient, |f.content|))|)
  {
    hide PutUvarint, Uvarint;
    var v := HeaderValue(f.isClient, |f.content|);
    assert Encoded(f) + rest == [] + PutUvarint(v) + (f.content + rest);
    RoomWord();
    VarintRead([], v, f.content + rest, 0);
    assert Uvarint(Encoded(f) + rest, 0) == Value(v, |PutUvarint(v)|);
    assert v % 2 == (if f.isClient then 1 else 0) && v / 2 == |f.content|;
  }

  /** A proper prefix of a frame is never taken for a whole one. */
  lemma EncodedCut(f: Frame, k: nat)
    requires Fits(f) && k < |Encoded(f)|
    ensures !Whole(Encoded(f)[..k])
  {
    var v := HeaderValue(f.isClient, |f.content|);
    var h := PutUvarint(v);
    if k < |h| {
      assert Encoded(f)[..k] == [] + h[..k];
      VarintCut([], v, k, 0);
    } else {
      EncodedFirst(f, []);
      assert Encoded(f) + [] == Encoded(f);
      var a, b := Encoded(f)[..k], Encoded(f)[k..];
      assert a + b == Encoded(f);
      if Whole(a) { WholeMore(a, b); }
    }
  }

  lemma EncodedNoWrap(f: Frame, k: nat)
    requires Fits(f) && k < |Encoded(f)|
    ensures !Wraps(Encoded(f)[..k])
  {
    var a, b := Encoded(f)[..k], Encoded(f)[k..];
    assert a + b == Encoded(f) == Encoded(f) + [];
    EncodedFirst(f, []);
    if FrameGet(a).2 > 0 { UvarintMore(a, b, 0); }
  }

  /** Any part of a stream of frames splits into the first of those frames and a proper prefix of the next. */
  lemma {:induction false} WirePrefix(fs: seq<Frame>, p: Bytes)
    requires (forall f :: f in fs ==> Fits(f)) && p <= Wire(fs)
    ensures |Frames(p)| <= |fs| && Frames(p) == fs[..|Frames(p)|] && !Wraps(Residue(p))
    ensures p == Wire(fs[..|Frames(p)|]) + Residue(p)
    ensures if |Frames(p)| < |fs| then Residue(p) < Encoded(fs[|Frames(p)|]) else Residue(p) == []
  {
    hide Whole, First, FirstSize, FrameGet, Encoded, Fits, Wraps;
    if |fs| == 0 {
      EmptyFrames(p);
    } else {
      var e := Encoded(fs[0]);
      if |p| < |e| {
        assert p == e[..|p|];
        EncodedCut(fs[0], |p|);
        EncodedNoWrap(fs[0], |p|);
      } else {
        var q := p[|e|..];
        assert p == e + q;
        assert q <= Wire(fs[1..]);
        EncodedFirst(fs[0], q);
        WirePrefix(fs[1..], q);
        FramesStep(p, fs[0], |e|);
        var k := |Frames(p)|;
        assert fs[..k][1..] == fs[1..][..k - 1];
      }
    }
  }

  lemma EmptyFrames(p: Bytes)
    requires p == []
    ensures Frames(p) == [] && Residue(p) == [] && !Wraps(p)
  {
  }

  lemma FramesStep(p: Bytes, f: Frame, n: nat)
    requires Whole(p) && First(p) == f && FirstSize(p) == n
    ensures n <= |p| && Frames(p) == [f] + Frames(p[n..]) && Residue(p) == Residue(p[n..])
  {
  }
}

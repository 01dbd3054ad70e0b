/** Flattened device trees as `goes/internal/fdt/fdt.go` reads and writes them (Devicetree Specification,
  * sections 5.2 to 5.6): 32-bit cells in either byte order, a structure block of tagged items aligned to four
  * bytes, and a strings block that properties name by offset.
  */
module FdtFormat {
  import opened Basics

  type Str = seq<Byte>

  const BEGIN_NODE := 1
  const END_NODE := 2
  const PROP := 3
  const END := 9
  const HEADER_LEN := 40
  const RESERVE_LEN := 16
  const ROOT_NAME: Str := [47]

  datatype Node = Node(name: Str, depth: nat, properties: map<Str, Str>, children: map<Str, Node>)

  // ---- Cells, alignment and strings ----

  function Low(v: nat): Byte { v % 256 }

  function Cell(le: bool, v: nat): (c: Str)
    ensures |c| == 4
  {
    var a, b, c, d := Low(v / 256 / 256 / 256), Low(v / 256 / 256), Low(v / 256), Low(v);
    if le then [d, c, b, a] else [a, b, c, d]
  }

  function Uint32(le: bool, b: Str): nat
    requires |b| == 4
  {
    var a: nat, c: nat, d: nat, e: nat := b[0], b[1], b[2], b[3];
    if le then ((e * 256 + d) * 256 + c) * 256 + a else ((a * 256 + c) * 256 + d) * 256 + e
  }

  /** A cell of either byte order reads back the value, cut to 32 bits. */
  lemma CellRoundTrip(le: bool, v: nat)
    ensures v < 0x1_0000_0000 ==> Uint32(le, Cell(le, v)) == v
  {
    var q1 := v / 256;
    var q2 := q1 / 256;
    var q3 := q2 / 256;
    assert v == q1 * 256 + Low(v) && q1 == q2 * 256 + Low(q1) && q2 == q3 * 256 + Low(q2);
    assert v < 0x1_0000_0000 ==> Low(q3) == q3;
  }

  /** Any four bytes are the cell of the value they read as. */
  lemma CellBack(le: bool, b: Str)
    requires |b| == 4
    ensures Uint32(le, b) < 0x1_0000_0000 && Cell(le, Uint32(le, b)) == b
  {
    var hi: nat, c: nat, d: nat, lo: nat := if le then b[3] else b[0], if le then b[2] else b[1],
      if le then b[1] else b[2], if le then b[0] else b[3];
    var v := Uint32(le, b);
    LowByte((hi * 256 + c) * 256 + d, lo);
    LowByte(hi * 256 + c, d);
    LowByte(hi, c);
    assert Low(v) == lo && Low(v / 256) == d && Low(v / 256 / 256) == c && Low(v / 256 / 256 / 256) == hi;
  }

  lemma LowByte(q: nat, r: nat)
    requires r < 256
    ensures (q * 256 + r) / 256 == q && (q * 256 + r) % 256 == r
  {
  }

  /** Big-endian: the first byte weighs most; little-endian: the last one does. */
  lemma CellWeights(b: Str)
    requires |b| == 4
    ensures var w: seq<nat> := [b[0], b[1], b[2], b[3]];
      && Uint32(false, b) == w[0] * 0x100_0000 + w[1] * 0x1_0000 + w[2] * 0x100 + w[3]
      && Uint32(true, b) == w[3] * 0x100_0000 + w[2] * 0x1_0000 + w[1] * 0x100 + w[0]
  {
  }

  function CellAt(le: bool, buf: Str, cur: nat): nat
    requires cur + 4 <= |buf|
  {
    Uint32(le, buf[cur..cur + 4])
  }

  function Align4(x: nat): (r: nat)
    ensures r % 4 == 0 && x <= r < x + 4
  {
    (x + 3) / 4 * 4
  }

  function Zeros(n: nat): (z: Str)
    ensures |z| == n && forall i :: 0 <= i < n ==> z[i] == 0
  {
    seq(n, _ => 0)
  }

  function Padded(b: Str): (r: Str)
    ensures |r| == Align4(|b|) && |r| % 4 == 0 && |b| <= |r| && r[..|b|] == b
  {
    b + Zeros(Align4(|b|) - |b|)
  }

  /** `bytes.IndexByte` for zero: the first NUL at or after cur, relative to cur, or -1. */
  function IndexNul(buf: Str, cur: nat): (r: int)
    requires cur <= |buf|
    ensures r >= -1 && (r >= 0 ==> cur + r < |buf| && buf[cur + r] == 0)
    ensures forall i :: cur <= i < (if r >= 0 then cur + r else |buf|) ==> buf[i] != 0
    decreases |buf| - cur
  {
    if cur == |buf| then -1
    else if buf[cur] == 0 then 0
    else
      var r := IndexNul(buf, cur + 1);
      if r < 0 then -1 else r + 1
  }

  predicate NulFree(s: Str) {
    forall i :: 0 <= i < |s| ==> s[i] != 0
  }

  lemma {:induction false} IndexNulIs(buf: Str, cur: nat, name: Str)
    requires NulFree(name) && cur + |name| < |buf| && buf[cur..cur + |name|] == name && buf[cur + |name|] == 0
    ensures IndexNul(buf, cur) == |name|
    decreases |name|
  {
    if |name| > 0 {
      assert buf[cur] == buf[cur..cur + |name|][0] == name[0];
      assert buf[cur + 1..cur + |name|] == buf[cur..cur + |name|][1..] == name[1..];
      IndexNulIs(buf, cur + 1, name[1..]);
    }
  }

  // ---- Parsing ----

  /** The stack of open nodes, and the root once it is closed. */
  datatype Walk = Walk(stack: seq<Node>, root: Option<Node>)

  datatype Step = Panic | Done | Next(cur: nat, walk: Walk)

  datatype Result = Crash | Parsed(root: Option<Node>, balanced: bool)

  datatype Tok = Begin(name: Str) | Prop(name: Str, value: Str) | EndNode

  /** The effect of one item; the source panics on a property or an end outside any node. */
  function Apply(w: Walk, tok: Tok): Walk {
    var l := |w.stack|;
    match tok
    case Begin(name) => w.(stack := w.stack + [Node(name, l + 1, map[], map[])])
    case Prop(name, value) =>
      if l == 0 then w
      else
        var n := w.stack[l - 1];
        w.(stack := w.stack[l - 1 := n.(properties := n.properties[name := value])])
    case EndNode =>
      if l == 0 then w
      else if l == 1 then Walk([], Some(w.stack[0]))
      else
        var c, p := w.stack[l - 1], w.stack[l - 2];
        w.(stack := w.stack[..l - 2] + [p.(children := p.children[c.name := c])])
  }

  /** One turn of the loop of `Parse` at cursor cur, with the strings block at so. */
  function ParseStep(le: bool, so: nat, buf: Str, cur: nat, w: Walk): (r: Step)
    ensures r.Next? ==> r.cur >= cur + 4
    ensures r.Next? && cur % 4 == 0 ==> r.cur % 4 == 0
  {
    if cur + 4 > |buf| then Panic
    else
      var tag, at := CellAt(le, buf, cur), cur + 4;
      if tag == END then Done
      else if tag == BEGIN_NODE then
        var n := IndexNul(buf, at);
        Next(Align4(at + n + 1), Apply(w, Begin(if n > 0 then buf[at..at + n] else ROOT_NAME)))
      else if tag == END_NODE then
        if |w.stack| == 0 then Panic else Next(at, Apply(w, EndNode))
      else if tag == PROP then
        if at + 8 > |buf| then Panic
        else
          var size, o, v := CellAt(le, buf, at), so + CellAt(le, buf, at + 4), at + 8;
          if o > |buf| || IndexNul(buf, o) < 0 || v + size > |buf| || |w.stack| == 0 then Panic
          else Next(Align4(v + size), Apply(w, Prop(buf[o..o + IndexNul(buf, o)], buf[v..v + size])))
      else Next(at, w)
  }

  function ParseFrom(le: bool, so: nat, buf: Str, cur: nat, w: Walk): Result
    decreases |buf| - cur
  {
    match ParseStep(le, so, buf, cur, w)
    case Panic => Crash
    case Done => Parsed(w.root, |w.stack| == 0)
    case Next(cur', w') => ParseFrom(le, so, buf, cur', w')
  }

  /** What `Parse` makes of a buffer, on a fresh tree: a short buffer leaves every header field zero. */
  function ParseOf(le: bool, buf: Str): Result {
    var short := |buf| < HEADER_LEN;
    var start, strings := if short then 0 else CellAt(le, buf, 8), if short then 0 else CellAt(le, buf, 12);
    ParseFrom(le, strings, buf, start, Walk([], None))
  }

  /** `getCell`: the 32-bit value whose cell stands at the cursor, and the cursor after it; not ok stands for the
    * panic. */
  method GetCell(le: bool, buf: Str, cur: nat) returns (ok: bool, value: nat, next: nat)
    ensures ok <==> cur + 4 <= |buf|
    ensures ok ==> value < 0x1_0000_0000 && Cell(le, value) == buf[cur..cur + 4] && next == cur + 4
    ensures ok ==> value == CellAt(le, buf, cur)
  {
    hide Uint32, Cell;
    ok, value, next := cur + 4 <= |buf|, 0, cur + 4;
    if ok {
      CellBack(le, buf[cur..cur + 4]);
      value := CellAt(le, buf, cur);
    }
  }

  lemma ParseNext(le: bool, so: nat, buf: Str, cur: nat, w: Walk)
    ensures match ParseStep(le, so, buf, cur, w)
      case Panic => ParseFrom(le, so, buf, cur, w) == Crash
      case Done => ParseFrom(le, so, buf, cur, w) == Parsed(w.root, |w.stack| == 0)
      case Next(cur', w') => ParseFrom(le, so, buf, cur, w) == ParseFrom(le, so, buf, cur', w')
  {
  }

  /** The `end_node` case: the closed node becomes the root or a child of the node below it. */
  method CloseNode(stack: seq<Node>, root: Option<Node>) returns (stack': seq<Node>, root': Option<Node>)
    requires |stack| > 0
    ensures Walk(stack', root') == Apply(Walk(stack, root), EndNode)
  {
    var l := |stack|;
    stack', root' := stack, root;
    if l == 1 {
      root' := Some(stack[0]);
    } else {
      var c, p := stack[l - 1], stack[l - 2];
      stack' := stack'[l - 2 := p.(children := p.children[c.name := c])];
    }
    stack' := stack'[..l - 1];
  }

  /** The `prop` case of the item at cursor cur. */
  method ReadProp(le: bool, so: nat, buf: Str, cur: nat, stack: seq<Node>, root: Option<Node>)
    returns (ok: bool, cur': nat, stack': seq<Node>)
    requires cur + 4 <= |buf| && CellAt(le, buf, cur) == PROP
    ensures ParseStep(le, so, buf, cur, Walk(stack, root)) == if ok then Next(cur', Walk(stack', root)) else Panic
    ensures ok ==> cur' > cur
  {
    hide IndexNul, Uint32, Align4;
    var size, offset;
    stack' := stack;
    ok, size, cur' := GetCell(le, buf, cur + 4);
    if !ok { return; }
    ok, offset, cur' := GetCell(le, buf, cur');
    if !ok { return; }
    var o, l := so + offset, |stack|;
    if o > |buf| || IndexNul(buf, o) < 0 || cur' + size > |buf| || l == 0 {
      ok := false;
      return;
    }
    var name, value := buf[o..o + IndexNul(buf, o)], buf[cur'..cur' + size];
    stack' := stack[l - 1 := stack[l - 1].(properties := stack[l - 1].properties[name := value])];
    cur' := Align4(cur' + size);
  }

  /** `Parse`. */
  method Parse(le: bool, buf: Str) returns (r: Result)
    ensures r == ParseOf(le, buf)
  {
    hide ParseFrom, IndexNul, Uint32;
    var cur: nat, strings: nat := 0, 0;
    if |buf| >= HEADER_LEN {
      cur, strings := CellAt(le, buf, 8), CellAt(le, buf, 12);
    }
    var stack: seq<Node>, root: Option<Node> := [], None;
    while true
      invariant ParseFrom(le, strings, buf, cur, Walk(stack, root)) == ParseOf(le, buf)
      decreases |buf| - cur
    {
      ParseNext(le, strings, buf, cur, Walk(stack, root));
      var ok: bool, tag: nat;
      ok, tag, cur := GetCell(le, buf, cur);
      if !ok { return Crash; }
      if tag == END {
        return Parsed(root, |stack| == 0);
      } else if tag == BEGIN_NODE {
        var nameLen := IndexNul(buf, cur);
        var name := ROOT_NAME;
        if nameLen > 0 { name := buf[cur..cur + nameLen]; }
        cur := Align4(cur + nameLen + 1);
        stack := stack + [Node(name, |stack| + 1, map[], map[])];
      } else if tag == END_NODE {
        if |stack| == 0 { return Crash; }
        stack, root := CloseNode(stack, root);
      } else if tag == PROP {
        ok, cur, stack := ReadProp(le, strings, buf, cur - 4, stack, root);
        if !ok { return Crash; }
      }
    }
  }

  // ---- A blob, byte by byte ----

  /** Four bytes at a time. */
  function Words(list: seq<Str>): (r: Str)
  {
    if |list| == 0 then [] else Words(list[..|list| - 1]) + list[|list| - 1]
  }

  lemma {:induction false} WordAt(list: seq<Str>, i: nat)
    requires i < |list| && forall k :: 0 <= k < |list| ==> |list[k]| == 4
    ensures |Words(list)| == 4 * |list| && Words(list)[4 * i..4 * i + 4] == list[i]
  {
    var rest := list[..|list| - 1];
    if |rest| == 0 {
      assert Words(rest) == [];
    } else if i == |rest| {
      WordAt(rest, 0);
    } else {
      WordAt(rest, i);
      assert Words(list)[4 * i..4 * i + 4] == Words(rest)[4 * i..4 * i + 4];
    }
  }

  /** Big-endian: a header, an empty reserve map, a root with the property p = 1 2 3, a no-op and a child c. */
  const BLOB: seq<Str> := [
    [0xd0, 0x0d, 0xfe, 0xed], [0, 0, 0, 108], [0, 0, 0, 56], [0, 0, 0, 104], [0, 0, 0, 40],
    [0, 0, 0, 17], [0, 0, 0, 16], [0, 0, 0, 0], [0, 0, 0, 2], [0, 0, 0, 48],
    [0, 0, 0, 0], [0, 0, 0, 0], [0, 0, 0, 0], [0, 0, 0, 0],
    [0, 0, 0, 1], [0, 0, 0, 0],
    [0, 0, 0, 3], [0, 0, 0, 3], [0, 0, 0, 0], [1, 2, 3, 0],
    [0, 0, 0, 4],
    [0, 0, 0, 1], [99, 0, 0, 0],
    [0, 0, 0, 2], [0, 0, 0, 2], [0, 0, 0, 9],
    [112, 0, 0, 0]]

  lemma BlobAt(i: nat)
    requires i < 27
    ensures |BLOB| == 27 && |Words(BLOB)| == 108 && Words(BLOB)[4 * i..4 * i + 4] == BLOB[i] && |BLOB[i]| == 4
    ensures Words(BLOB)[4 * i] == BLOB[i][0] && Words(BLOB)[4 * i + 1] == BLOB[i][1]
    ensures Words(BLOB)[4 * i + 2] == BLOB[i][2] && Words(BLOB)[4 * i + 3] == BLOB[i][3]
  {
    WordAt(BLOB, i);
    forall k | 0 <= k < 4 ensures Words(BLOB)[4 * i + k] == BLOB[i][k] {
      assert Words(BLOB)[4 * i + k] == Words(BLOB)[4 * i..4 * i + 4][k];
    }
  }

  function SmallNode(props: map<Str, Str>, kids: map<Str, Node>): Node {
    Node(ROOT_NAME, 1, props, kids)
  }

  const CHILD := Node([99], 2, map[], map[])
  const PROPS: map<Str, Str> := map[[112] := [1, 2, 3]]

  /** The i-th cell, if it is below 256. */
  lemma BlobCell(i: nat)
    requires i < 27
    ensures |Words(BLOB)| == 108 && |BLOB| == 27 && |BLOB[i]| == 4
    ensures BLOB[i][0] == BLOB[i][1] == BLOB[i][2] == 0 ==> CellAt(false, Words(BLOB), 4 * i) == BLOB[i][3]
  {
    hide Words, Uint32;
    BlobAt(i);
    CellWeights(BLOB[i]);
  }

  lemma BlobHeader()
    ensures |Words(BLOB)| == 108 && CellAt(false, Words(BLOB), 8) == 56 && CellAt(false, Words(BLOB), 12) == 104
  {
    hide Words, CellAt;
    BlobCell(2);
    BlobCell(3);
  }

  lemma BlobRoot()
    ensures ParseStep(false, 104, Words(BLOB), 56, Walk([], None)) == Next(64, Walk([SmallNode(map[], map[])], None))
  {
    hide Words, CellAt;
    BlobCell(14);
    BlobAt(15);
    assert IndexNul(Words(BLOB), 60) == 0;
  }

  lemma BlobProp()
    ensures ParseStep(false, 104, Words(BLOB), 64, Walk([SmallNode(map[], map[])], None))
      == Next(80, Walk([SmallNode(PROPS, map[])], None))
  {
    hide Words, CellAt;
    BlobCell(16);
    BlobCell(17);
    BlobCell(18);
    BlobAt(19);
    BlobAt(26);
    var b := Words(BLOB);
    assert IndexNul(b, 105) == 0 && IndexNul(b, 104) == 1;
    assert b[76] == 1 && b[77] == 2 && b[78] == 3;
    assert b[104..105] == [112] && b[76..79] == [1, 2, 3];
  }

  lemma BlobNop(w: Walk)
    ensures ParseStep(false, 104, Words(BLOB), 80, w) == Next(84, w)
  {
    hide Words, CellAt;
    BlobCell(20);
  }

  lemma BlobChild()
    ensures ParseStep(false, 104, Words(BLOB), 84, Walk([SmallNode(PROPS, map[])], None))
      == Next(92, Walk([SmallNode(PROPS, map[]), CHILD], None))
  {
    hide Words, CellAt;
    BlobCell(21);
    BlobAt(22);
    var b := Words(BLOB);
    assert IndexNul(b, 89) == 0 && IndexNul(b, 88) == 1;
    assert b[88..89] == [99];
  }

  lemma BlobEnds()
    ensures ParseStep(false, 104, Words(BLOB), 92, Walk([SmallNode(PROPS, map[]), CHILD], None))
      == Next(96, Walk([SmallNode(PROPS, map[[99] := CHILD])], None))
    ensures ParseStep(false, 104, Words(BLOB), 96, Walk([SmallNode(PROPS, map[[99] := CHILD])], None))
      == Next(100, Walk([], Some(SmallNode(PROPS, map[[99] := CHILD]))))
    ensures ParseStep(false, 104, Words(BLOB), 100, Walk([], Some(SmallNode(PROPS, map[[99] := CHILD])))) == Done
  {
    hide Words, CellAt;
    BlobCell(23);
    BlobCell(24);
    BlobCell(25);
  }

  /** What the bytes of a blob mean, tags and byte order included. */
  lemma BlobParses()
    ensures ParseOf(false, Words(BLOB)) == Parsed(Some(SmallNode(PROPS, map[[99] := CHILD])), true)
  {
    hide ParseFrom, ParseStep, CellAt, IndexNul, Words;
    var b := Words(BLOB);
    BlobHeader();
    BlobRoot();
    BlobProp();
    BlobNop(Walk([SmallNode(PROPS, map[])], None));
    BlobChild();
    BlobEnds();
    var kids := map[[99] := CHILD];
    ParseNext(false, 104, b, 56, Walk([], None));
    ParseNext(false, 104, b, 64, Walk([SmallNode(map[], map[])], None));
    ParseNext(false, 104, b, 80, Walk([SmallNode(PROPS, map[])], None));
    ParseNext(false, 104, b, 84, Walk([SmallNode(PROPS, map[])], None));
    ParseNext(false, 104, b, 92, Walk([SmallNode(PROPS, map[]), CHILD], None));
    ParseNext(false, 104, b, 96, Walk([SmallNode(PROPS, kids)], None));
    ParseNext(false, 104, b, 100, Walk([], Some(SmallNode(PROPS, kids))));
  }
}

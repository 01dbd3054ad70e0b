/** Parsing a flattened device tree gives the tree back, in either byte order and any map order. */
module FdtRoundTrip {
  import opened Basics
  import opened FdtFormat
  import opened FdtFlatten

  const START := HEADER_LEN + RESERVE_LEN
  const MAGIC := 0xd00d_feed

  /** The ten cells of the header, for blocks of bl and sl bytes. */
  function HeaderOf(le: bool, bl: nat, sl: nat): (h: Str)
    ensures |h| == HEADER_LEN
  {
    Cell(le, MAGIC) + Cell(le, START + bl + sl) + Cell(le, START) + Cell(le, START + bl) + Cell(le, HEADER_LEN)
    + Cell(le, 17) + Cell(le, 16) + Cell(le, 0) + Cell(le, sl) + Cell(le, bl)
  }

  function Flat(le: bool, o: Listing): Str {
    var b := BytesOf(le, Toks(o)) + Cell(le, END);
    var s := Padded(StrsOf(Toks(o)));
    HeaderOf(le, |b|, |s|) + Zeros(RESERVE_LEN) + b + s
  }

  function PutField(h: Str, at: nat, c: Str): (r: Str)
    requires |c| == 4 && at + 4 <= |h|
    ensures |r| == |h|
  {
    h[..at] + c + h[at + 4..]
  }

  /** `FlattenTreeToSlice`: the header is filled in once the lengths of the blocks are known. */
  method FlattenTreeToSlice(le: bool, root: Node) returns (buf: Str, ghost o: Listing)
    requires WellNamed(root, 1)
    ensures Lists(o, root) && buf == Flat(le, o)
  {
    hide BytesOf, StrsOf, Toks, Cell, Padded, Lists, WellNamed;
    var h, m := Zeros(HEADER_LEN), Zeros(RESERVE_LEN);
    var b: Str, s: Str;
    Nothing(le);
    b, s, o := PutNode(le, [], [], root, [], 1);
    assert [] + Toks(o) == Toks(o);
    b := b + Cell(le, END);
    s := AlignTo(s);
    h := PutField(h, 0, Cell(le, MAGIC));
    h := PutField(h, 4, Cell(le, HEADER_LEN + |m| + |b| + |s|));
    h := PutField(h, 8, Cell(le, HEADER_LEN + |m|));
    h := PutField(h, 12, Cell(le, HEADER_LEN + |m| + |b|));
    h := PutField(h, 16, Cell(le, HEADER_LEN));
    h := PutField(h, 20, Cell(le, 17));
    h := PutField(h, 24, Cell(le, 16));
    h := PutField(h, 28, Cell(le, 0));
    h := PutField(h, 32, Cell(le, |s|));
    h := PutField(h, 36, Cell(le, |b|));
    assert h == HeaderOf(le, |b|, |s|);
    buf := h + m;
    buf := buf + b;
    buf := buf + s;
  }

  lemma Nothing(le: bool)
    ensures BytesOf(le, []) == [] && StrsOf([]) == []
  {
  }

  // ---- Items back to nodes ----

  function Run(w: Walk, toks: seq<Tok>): Walk {
    if |toks| == 0 then w else Apply(Run(w, toks[..|toks| - 1]), toks[|toks| - 1])
  }

  lemma {:induction false} RunBoth(w: Walk, a: seq<Tok>, b: seq<Tok>)
    ensures Run(w, a + b) == Run(Run(w, a), b)
  {
    if |b| == 0 {
      assert a + b == a;
    } else {
      var c := b[..|b| - 1];
      assert (a + b)[..|a + b| - 1] == a + c;
      RunBoth(w, a, c);
    }
  }

  /** The walk after a whole node: it is the root, or filed under its name in the node below. */
  function Closed(w: Walk, n: Node): Walk {
    var l := |w.stack|;
    if l == 0 then Walk([], Some(n))
    else w.(stack := w.stack[l - 1 := w.stack[l - 1].(children := w.stack[l - 1].children[n.name := n])])
  }

  function MapOf(props: seq<(Str, Str)>): map<Str, Str> {
    if |props| == 0 then map[] else MapOf(props[..|props| - 1])[props[|props| - 1].0 := props[|props| - 1].1]
  }

  lemma {:induction false} MapOfHas(props: seq<(Str, Str)>, k: Str)
    requires forall i, j :: 0 <= i < j < |props| ==> props[i].0 != props[j].0
    ensures k in MapOf(props) <==> exists i :: 0 <= i < |props| && props[i].0 == k
    ensures forall i :: 0 <= i < |props| && props[i].0 == k ==> MapOf(props)[k] == props[i].1
  {
    if |props| > 0 {
      var rest := props[..|props| - 1];
      MapOfHas(rest, k);
      if exists i :: 0 <= i < |rest| && rest[i].0 == k {
        var i :| 0 <= i < |rest| && rest[i].0 == k;
        assert props[i].0 == k;
      }
      assert forall i :: 0 <= i < |rest| ==> props[i] == rest[i];
    }
  }

  lemma MapOfListed(props: seq<(Str, Str)>, m: map<Str, Str>)
    requires ListsProps(props, m)
    ensures MapOf(props) == m
  {
    forall k ensures k in MapOf(props) <==> k in m {
      MapOfHas(props, k);
    }
    forall k | k in m ensures MapOf(props)[k] == m[k] {
      MapOfHas(props, k);
      var i :| 0 <= i < |props| && props[i].0 == k;
    }
  }

  /** Properties land in the node on top of the stack. */
  lemma {:induction false} RunProps(w: Walk, n: Node, props: seq<(Str, Str)>)
    requires |w.stack| > 0 && w.stack[|w.stack| - 1] == n && n.properties == map[]
    ensures Run(w, PropToks(props)) == w.(stack := w.stack[|w.stack| - 1 := n.(properties := MapOf(props))])
  {
    if |props| == 0 {
      assert w.stack[|w.stack| - 1 := n] == w.stack;
    } else {
      var rest := props[..|props| - 1];
      RunProps(w, n, rest);
      assert PropToks(props)[..|PropToks(props)| - 1] == PropToks(rest);
    }
  }

  function KidMap(kids: seq<Listing>, n: Node): map<Str, Node>
    requires forall i :: 0 <= i < |kids| ==> kids[i].name in n.children
  {
    if |kids| == 0 then map[]
    else
      var k := kids[|kids| - 1].name;
      KidMap(kids[..|kids| - 1], n)[k := n.children[k]]
  }

  lemma {:induction false} KidMapHas(kids: seq<Listing>, n: Node, k: Str)
    requires forall i :: 0 <= i < |kids| ==> kids[i].name in n.children
    ensures k in KidMap(kids, n) <==> exists i :: 0 <= i < |kids| && kids[i].name == k
    ensures k in KidMap(kids, n) ==> k in n.children && KidMap(kids, n)[k] == n.children[k]
  {
    if |kids| > 0 {
      var rest := kids[..|kids| - 1];
      KidMapHas(rest, n, k);
      if exists i :: 0 <= i < |rest| && rest[i].name == k {
        var i :| 0 <= i < |rest| && rest[i].name == k;
        assert kids[i].name == k;
      }
      assert forall i :: 0 <= i < |rest| ==> kids[i] == rest[i];
    }
  }

  lemma KidMapListed(kids: seq<Listing>, n: Node)
    requires ListsKids(kids, n)
    ensures KidMap(kids, n) == n.children
  {
    forall k ensures k in KidMap(kids, n) <==> k in n.children {
      KidMapHas(kids, n, k);
    }
    forall k | k in n.children ensures KidMap(kids, n)[k] == n.children[k] {
      KidMapHas(kids, n, k);
    }
  }

  /** The walk after a node's begin item, after its properties, and after its children. */
  function Opened(w: Walk, n: Node): Walk {
    w.(stack := w.stack + [Node(n.name, |w.stack| + 1, map[], map[])])
  }

  function Propped(w: Walk, n: Node): Walk {
    w.(stack := w.stack + [n.(children := map[])])
  }

  lemma RunOpen(w: Walk, o: Listing, n: Node)
    requires Lists(o, n) && WellNamed(n, |w.stack| + 1)
    ensures Run(w, [Begin(o.name)]) == Opened(w, n) && Run(Opened(w, n), PropToks(o.props)) == Propped(w, n)
  {
    assert [Begin(o.name)][..0] == [];
    var l := |w.stack|;
    var bare := Node(n.name, l + 1, map[], map[]);
    RunProps(Opened(w, n), bare, o.props);
    MapOfListed(o.props, n.properties);
    assert (w.stack + [bare])[l := n.(children := map[])] == w.stack + [n.(children := map[])];
  }

  lemma PartsOf(o: Listing, n: Node)
    requires Lists(o, n)
    ensures Toks(o) == [Begin(o.name)] + PropToks(o.props) + KidToks(o.kids) + [EndNode]
    ensures ListsKids(o.kids, n)
    ensures forall i :: 0 <= i < |o.kids| ==>
      (o.kids[i].name in n.children && Lists(o.kids[i], n.children[o.kids[i].name]))
  {
  }

  /** The items of a node rebuild it on top of any walk at the right level. */
  lemma {:induction false} RunNode(w: Walk, o: Listing, n: Node)
    requires Lists(o, n) && WellNamed(n, |w.stack| + 1)
    ensures Run(w, Toks(o)) == Closed(w, n)
    decreases n, 1
  {
    hide Run, Toks, PropToks, KidToks, Lists, ListsKids, WellNamed, KidMap, Opened;
    PartsOf(o, n);
    RunOpen(w, o, n);
    RunKids(w, o.kids, n);
    KidMapListed(o.kids, n);
    var a, b, c := [Begin(o.name)], PropToks(o.props), KidToks(o.kids);
    RunBoth(w, a, b);
    RunBoth(w, a + b, c);
    RunBoth(w, a + b + c, [EndNode]);
    EndRun(w, w.(stack := w.stack + [n]), n);
  }

  lemma EndRun(w: Walk, w3: Walk, n: Node)
    requires w3 == w.(stack := w.stack + [n])
    ensures Run(w3, [EndNode]) == Closed(w, n)
  {
    assert [EndNode][..0] == [];
    var l := |w.stack|;
    if l > 0 {
      assert w3.stack[..l - 1] == w.stack[..l - 1];
      assert w.stack[l - 1 := Closed(w, n).stack[l - 1]] == w.stack[..l - 1] + [Closed(w, n).stack[l - 1]];
    }
  }

  lemma {:induction false} RunKids(w: Walk, kids: seq<Listing>, n: Node)
    requires forall i :: 0 <= i < |kids| ==> kids[i].name in n.children && Lists(kids[i], n.children[kids[i].name])
    requires WellNamed(n, |w.stack| + 1)
    ensures var bare := n.(children := map[]);
      Run(w.(stack := w.stack + [bare]), KidToks(kids)) == w.(stack := w.stack + [bare.(children := KidMap(kids, n))])
    decreases n, 0, |kids|
  {
    hide Run, Toks, KidToks, Lists, WellNamed, KidMap;
    var bare := n.(children := map[]);
    var w0 := w.(stack := w.stack + [bare]);
    if |kids| == 0 {
      NoKidsRun(w0, kids, n);
    } else {
      var rest, kid := kids[..|kids| - 1], kids[|kids| - 1];
      RunKids(w, rest, n);
      var w1 := w.(stack := w.stack + [bare.(children := KidMap(rest, n))]);
      var c := n.children[kid.name];
      WellKid(n, kid.name, |w.stack| + 1);
      RunNode(w1, kid, c);
      LastKid(kids, n);
      RunBoth(w0, KidToks(rest), Toks(kid));
      FileKid(w, bare.(children := KidMap(rest, n)), c);
    }
  }

  lemma NoKidsRun(w0: Walk, kids: seq<Listing>, n: Node)
    requires |kids| == 0
    ensures Run(w0, KidToks(kids)) == w0 && KidMap(kids, n) == map[]
  {
  }

  lemma WellKid(n: Node, k: Str, level: nat)
    requires WellNamed(n, level) && k in n.children
    ensures n.children[k].name == k && WellNamed(n.children[k], level + 1)
  {
  }

  lemma LastKid(kids: seq<Listing>, n: Node)
    requires |kids| > 0 && forall i :: 0 <= i < |kids| ==> kids[i].name in n.children
    ensures var rest, kid := kids[..|kids| - 1], kids[|kids| - 1];
      && KidToks(kids) == KidToks(rest) + Toks(kid)
      && KidMap(kids, n) == KidMap(rest, n)[kid.name := n.children[kid.name]]
  {
  }

  lemma FileKid(w: Walk, p: Node, c: Node)
    ensures Closed(w.(stack := w.stack + [p]), c)
      == w.(stack := w.stack + [p.(children := p.children[c.name := c])])
  {
    var q := p.(children := p.children[c.name := c]);
    assert (w.stack + [p])[|w.stack| := q] == w.stack + [q];
  }

  // ---- Bytes back to items ----

  predicate TokOk(tok: Tok) {
    match tok
    case Begin(name) => |name| > 0 && NulFree(name)
    case Prop(name, _) => NulFree(name)
    case EndNode => true
  }

  /** The buffer holds y at position n. */
  predicate At(buf: Str, n: nat, y: Str) {
    n + |y| <= |buf| && buf[n..n + |y|] == y
  }

  lemma AtLeft(buf: Str, n: nat, y: Str, z: Str)
    requires At(buf, n, y + z)
    ensures At(buf, n, y) && At(buf, n + |y|, z)
  {
    var w := y + z;
    forall i | 0 <= i < |y| ensures buf[n..n + |y|][i] == y[i] {
      assert buf[n..n + |w|][i] == w[i];
    }
    forall i | 0 <= i < |z| ensures buf[n + |y|..n + |y| + |z|][i] == z[i] {
      assert buf[n..n + |w|][|y| + i] == w[|y| + i];
    }
  }

  lemma AtCell(le: bool, buf: Str, n: nat, v: nat)
    requires At(buf, n, Cell(le, v)) && v < 0x1_0000_0000
    ensures n + 4 <= |buf| && CellAt(le, buf, n) == v
  {
    CellRoundTrip(le, v);
  }

  lemma AtName(buf: Str, n: nat, name: Str)
    requires At(buf, n, name + [0]) && NulFree(name)
    ensures n + |name| < |buf| && IndexNul(buf, n) == |name| && buf[n..n + |name|] == name
  {
    AtLeft(buf, n, name, [0]);
    assert buf[n + |name|..n + |name| + 1][0] == 0;
    IndexNulIs(buf, n, name);
  }

  lemma AlignFrom(cur: nat, x: nat)
    requires cur % 4 == 0
    ensures Align4(cur + x) == cur + Align4(x)
  {
  }

  /** What a begin token's bytes say at their place: the tag, the name as written, and where they end. */
  lemma BeginCells(le: bool, buf: Str, cur: nat, shown: Str)
    requires At(buf, cur, Padded(Cell(le, BEGIN_NODE) + shown + [0])) && cur % 4 == 0
    ensures cur + 4 <= |buf| && CellAt(le, buf, cur) == BEGIN_NODE && At(buf, cur + 4, shown + [0])
    ensures Align4(cur + 4 + |shown| + 1) == cur + |Padded(Cell(le, BEGIN_NODE) + shown + [0])|
  {
    hide Uint32, Cell, Align4, At;
    var x := Cell(le, BEGIN_NODE) + shown + [0];
    AtLeft(buf, cur, x, Zeros(Align4(|x|) - |x|));
    assert x == Cell(le, BEGIN_NODE) + (shown + [0]);
    AtLeft(buf, cur, Cell(le, BEGIN_NODE), shown + [0]);
    AtCell(le, buf, cur, BEGIN_NODE);
    AlignFrom(cur, |x|);
  }

  /** The parser at a begin token: the name up to the first NUL, or the root's. */
  lemma ParseBegin(le: bool, so: nat, buf: Str, cur: nat, w: Walk, n: nat)
    requires cur + 4 + n <= |buf| && CellAt(le, buf, cur) == BEGIN_NODE && IndexNul(buf, cur + 4) == n
    ensures ParseStep(le, so, buf, cur, w)
      == Next(Align4(cur + 4 + n + 1), Apply(w, Begin(if n > 0 then buf[cur + 4..cur + 4 + n] else ROOT_NAME)))
  {
    hide IndexNul, CellAt, Align4, Apply;
  }

  lemma BeginStep(le: bool, so: nat, buf: Str, cur: nat, w: Walk, name: Str, k: nat)
    requires At(buf, cur, TokBytes(le, Begin(name), k)) && cur % 4 == 0 && |name| > 0 && NulFree(name)
    ensures ParseStep(le, so, buf, cur, w) == Next(cur + |TokBytes(le, Begin(name), k)|, Apply(w, Begin(name)))
  {
    hide IndexNul, CellAt, Cell, Align4, Apply, ParseStep, At, Padded;
    var shown := if name == ROOT_NAME then [] else name;
    BeginCells(le, buf, cur, shown);
    AtName(buf, cur + 4, shown);
    ParseBegin(le, so, buf, cur, w, |shown|);
  }

  lemma PropCells(le: bool, buf: Str, cur: nat, name: Str, value: Str, k: nat)
    requires At(buf, cur, TokBytes(le, Prop(name, value), k)) && cur % 4 == 0
    requires |value| < 0x1_0000_0000 && k < 0x1_0000_0000
    ensures cur + 12 + |value| <= |buf| && CellAt(le, buf, cur) == PROP
    ensures CellAt(le, buf, cur + 4) == |value| && CellAt(le, buf, cur + 8) == k && At(buf, cur + 12, value)
    ensures Align4(cur + 12 + |value|) == cur + |TokBytes(le, Prop(name, value), k)|
  {
    hide Uint32, Cell, Align4;
    var a, b, c := Cell(le, PROP), Cell(le, |value|), Cell(le, k);
    var x := a + b + c + value;
    AtLeft(buf, cur, x, Zeros(Align4(|x|) - |x|));
    AtLeft(buf, cur, a + b + c, value);
    AtLeft(buf, cur, a + b, c);
    AtLeft(buf, cur, a, b);
    AtCell(le, buf, cur, PROP);
    AtCell(le, buf, cur + 4, |value|);
    AtCell(le, buf, cur + 8, k);
    AlignFrom(cur, |x|);
  }

  lemma PropStep(le: bool, so: nat, buf: Str, cur: nat, w: Walk, name: Str, value: Str, k: nat)
    requires At(buf, cur, TokBytes(le, Prop(name, value), k)) && cur % 4 == 0 && NulFree(name) && |w.stack| > 0
    requires At(buf, so + k, name + [0]) && |value| < 0x1_0000_0000 && k < 0x1_0000_0000
    ensures ParseStep(le, so, buf, cur, w)
      == Next(cur + |TokBytes(le, Prop(name, value), k)|, Apply(w, Prop(name, value)))
  {
    hide IndexNul, Uint32, Cell, Align4, TokBytes, Apply, NulFree;
    PropCells(le, buf, cur, name, value, k);
    AtName(buf, so + k, name);
  }

  lemma EndStep(le: bool, so: nat, buf: Str, cur: nat, w: Walk, k: nat)
    requires At(buf, cur, TokBytes(le, EndNode, k)) && |w.stack| > 0
    ensures ParseStep(le, so, buf, cur, w) == Next(cur + |TokBytes(le, EndNode, k)|, Apply(w, EndNode))
  {
    hide IndexNul, Uint32, Cell;
    AtCell(le, buf, cur, END_NODE);
  }

  /** Every property and every end comes inside a node. */
  ghost predicate Nested(w: Walk, toks: seq<Tok>) {
    forall i :: 0 <= i < |toks| ==> toks[i].Begin? || |Run(w, toks[..i]).stack| > 0
  }

  lemma {:induction false} BytesPrefix(le: bool, toks: seq<Tok>, i: nat)
    requires i <= |toks|
    ensures |BytesOf(le, toks[..i])| <= |BytesOf(le, toks)|
    ensures BytesOf(le, toks)[..|BytesOf(le, toks[..i])|] == BytesOf(le, toks[..i])
    ensures |StrsOf(toks[..i])| <= |StrsOf(toks)|
    ensures StrsOf(toks)[..|StrsOf(toks[..i])|] == StrsOf(toks[..i])
    decreases |toks|
  {
    hide TokBytes;
    if i == |toks| {
      assert toks[..i] == toks;
    } else {
      var rest := toks[..|toks| - 1];
      BytesPrefix(le, rest, i);
      assert rest[..i] == toks[..i];
    }
  }

  /** A prefix of what the buffer holds. */
  lemma AtPrefix(buf: Str, n: nat, y: Str, x: Str)
    requires At(buf, n, y) && |x| <= |y| && y[..|x|] == x
    ensures At(buf, n, x)
  {
    assert y == x + y[|x|..];
    AtLeft(buf, n, x, y[|x|..]);
  }

  /** One item of the block: the parser consumes exactly its bytes, and does to its stack what the item says. */
  lemma TokStep(le: bool, so: nat, buf: Str, toks: seq<Tok>, i: nat, w: Walk)
    requires i < |toks| && TokOk(toks[i]) && (toks[i].Begin? || |w.stack| > 0)
    requires At(buf, START, BytesOf(le, toks)) && At(buf, so, StrsOf(toks)) && |buf| < 0x1_0000_0000
    ensures ParseStep(le, so, buf, START + |BytesOf(le, toks[..i])|, w)
      == Next(START + |BytesOf(le, toks[..i + 1])|, Apply(w, toks[i]))
  {
    hide BytesOf, StrsOf, TokBytes, ParseStep, Apply;
    var p, tok := toks[..i], toks[i];
    assert toks[..i + 1] == p + [tok];
    BytesPrefix(le, toks, i + 1);
    StepBytes(le, p, tok);
    BytesAligned(le, p);
    var k, cur := |StrsOf(p)|, START + |BytesOf(le, p)|;
    AtPrefix(buf, START, BytesOf(le, toks), BytesOf(le, p + [tok]));
    AtLeft(buf, START, BytesOf(le, p), TokBytes(le, tok, k));
    AtPrefix(buf, so, StrsOf(toks), StrsOf(p + [tok]));
    match tok {
      case Begin(name) => BeginStep(le, so, buf, cur, w, name, k);
      case Prop(name, value) =>
        AtLeft(buf, so, StrsOf(p), name + [0]);
        PropShort(le, buf, cur, name, value, k);
        PropStep(le, so, buf, cur, w, name, value, k);
      case EndNode => EndStep(le, so, buf, cur, w, k);
    }
  }

  lemma PropShort(le: bool, buf: Str, cur: nat, name: Str, value: Str, k: nat)
    requires At(buf, cur, TokBytes(le, Prop(name, value), k))
    ensures |value| <= |buf|
  {
    hide Cell, Align4;
  }

  lemma {:induction false} ParseRun(le: bool, so: nat, buf: Str, toks: seq<Tok>, i: nat)
    requires i <= |toks| && Nested(Walk([], None), toks) && forall j :: 0 <= j < |toks| ==> TokOk(toks[j])
    requires At(buf, START, BytesOf(le, toks)) && At(buf, so, StrsOf(toks)) && |buf| < 0x1_0000_0000
    ensures var w := Walk([], None);
      ParseFrom(le, so, buf, START, w) == ParseFrom(le, so, buf, START + |BytesOf(le, toks[..i])|, Run(w, toks[..i]))
  {
    hide ParseStep, Apply, TokBytes, StrsOf, TokOk;
    var w := Walk([], None);
    if i > 0 {
      ParseRun(le, so, buf, toks, i - 1);
      TokStep(le, so, buf, toks, i - 1, Run(w, toks[..i - 1]));
      ParseNext(le, so, buf, START + |BytesOf(le, toks[..i - 1])|, Run(w, toks[..i - 1]));
      assert toks[..i][..i - 1] == toks[..i - 1];
    }
  }

  // ---- The items of a node are nested and well named ----

  lemma NestedBoth(w: Walk, a: seq<Tok>, b: seq<Tok>)
    requires Nested(w, a) && Nested(Run(w, a), b)
    ensures Nested(w, a + b)
  {
    hide Run;
    forall i | 0 <= i < |a + b| ensures (a + b)[i].Begin? || |Run(w, (a + b)[..i]).stack| > 0 {
      if i < |a| {
        assert (a + b)[..i] == a[..i] && (a + b)[i] == a[i];
      } else {
        assert (a + b)[..i] == a + b[..i - |a|] && (a + b)[i] == b[i - |a|];
        RunBoth(w, a, b[..i - |a|]);
      }
    }
  }

  lemma {:induction false} NestedProps(w: Walk, n: Node, props: seq<(Str, Str)>)
    requires |w.stack| > 0 && w.stack[|w.stack| - 1] == n && n.properties == map[]
    ensures Nested(w, PropToks(props))
  {
    if |props| > 0 {
      var rest, last := props[..|props| - 1], props[|props| - 1];
      NestedProps(w, n, rest);
      RunProps(w, n, rest);
      var one := [Prop(last.0, last.1)];
      assert one[..0] == [];
      assert PropToks(props) == PropToks(rest) + one;
      hide Run, PropToks;
      NestedOne(Run(w, PropToks(rest)), one);
      NestedBoth(w, PropToks(rest), one);
    }
  }

  lemma NestedOne(w: Walk, one: seq<Tok>)
    requires |one| == 1 && (one[0].Begin? || |w.stack| > 0)
    ensures Nested(w, one)
  {
    assert one[..0] == [];
  }

  lemma {:induction false} NestedNode(w: Walk, o: Listing, n: Node)
    requires Lists(o, n) && WellNamed(n, |w.stack| + 1)
    ensures Nested(w, Toks(o))
    decreases n, 1
  {
    hide Run, Toks, PropToks, KidToks, Nested, Lists, ListsKids, WellNamed, KidMap;
    PartsOf(o, n);
    RunOpen(w, o, n);
    NestedProps(Opened(w, n), Node(n.name, |w.stack| + 1, map[], map[]), o.props);
    RunKids(w, o.kids, n);
    NestedKids(w, o.kids, n);
    var a, b, c, d := [Begin(o.name)], PropToks(o.props), KidToks(o.kids), [EndNode];
    RunBoth(w, a, b);
    RunBoth(w, a + b, c);
    NestedOne(w, a);
    NestedBoth(w, a, b);
    NestedBoth(w, a + b, c);
    NestedOne(Run(w, a + b + c), d);
    NestedBoth(w, a + b + c, d);
  }

  lemma {:induction false} NestedKids(w: Walk, kids: seq<Listing>, n: Node)
    requires forall i :: 0 <= i < |kids| ==> kids[i].name in n.children && Lists(kids[i], n.children[kids[i].name])
    requires WellNamed(n, |w.stack| + 1)
    ensures Nested(w.(stack := w.stack + [n.(children := map[])]), KidToks(kids))
    decreases n, 0, |kids|
  {
    hide Run, Toks, Lists, WellNamed, KidMap;
    if |kids| > 0 {
      var rest, kid := kids[..|kids| - 1], kids[|kids| - 1];
      var w0 := w.(stack := w.stack + [n.(children := map[])]);
      NestedKids(w, rest, n);
      RunKids(w, rest, n);
      WellKid(n, kid.name, |w.stack| + 1);
      NestedNode(Run(w0, KidToks(rest)), kid, n.children[kid.name]);
      NestedBoth(w0, KidToks(rest), Toks(kid));
    }
  }

  lemma {:induction false} PropsOk(props: seq<(Str, Str)>, m: map<Str, Str>)
    requires forall i :: 0 <= i < |props| ==> props[i].0 in m
    requires forall k :: k in m ==> NulFree(k)
    ensures forall tok :: tok in PropToks(props) ==> TokOk(tok)
  {
    if |props| > 0 { PropsOk(props[..|props| - 1], m); }
  }

  lemma {:induction false} NodeOk(o: Listing, n: Node, level: nat)
    requires Lists(o, n) && WellNamed(n, level)
    ensures forall tok :: tok in Toks(o) ==> TokOk(tok)
    decreases n, 1
  {
    PropsOk(o.props, n.properties);
    KidsOk(o.kids, n, level);
  }

  lemma {:induction false} KidsOk(kids: seq<Listing>, n: Node, level: nat)
    requires forall i :: 0 <= i < |kids| ==> kids[i].name in n.children && Lists(kids[i], n.children[kids[i].name])
    requires WellNamed(n, level)
    ensures forall tok :: tok in KidToks(kids) ==> TokOk(tok)
    decreases n, 0, |kids|
  {
    if |kids| > 0 {
      var kid := kids[|kids| - 1];
      KidsOk(kids[..|kids| - 1], n, level);
      NodeOk(kid, n.children[kid.name], level + 1);
    }
  }

  // ---- The round trip ----

  lemma FlatParts(le: bool, o: Listing)
    requires |Flat(le, o)| < 0x1_0000_0000
    ensures var buf, toks := Flat(le, o), Toks(o);
      var so := START + |BytesOf(le, toks)| + 4;
      && HEADER_LEN <= |buf| && CellAt(le, buf, 8) == START && CellAt(le, buf, 12) == so
      && At(buf, START, BytesOf(le, toks)) && At(buf, so, StrsOf(toks))
      && At(buf, START + |BytesOf(le, toks)|, Cell(le, END))
  {
    hide BytesOf, StrsOf, Toks, Cell, Uint32;
    var buf, toks := Flat(le, o), Toks(o);
    var b, e, s := BytesOf(le, toks), Cell(le, END), Padded(StrsOf(toks));
    var h := HeaderOf(le, |b + e|, |s|);
    assert At(buf, 0, h + Zeros(RESERVE_LEN) + (b + e) + s);
    AtLeft(buf, 0, h + Zeros(RESERVE_LEN) + (b + e), s);
    AtLeft(buf, 0, h + Zeros(RESERVE_LEN), b + e);
    AtLeft(buf, 0, h, Zeros(RESERVE_LEN));
    AtLeft(buf, START, b, e);
    AtPrefix(buf, START + |b| + 4, s, StrsOf(toks));
    HeaderCells(le, buf, |b + e|, |s|);
  }

  lemma HeaderCells(le: bool, buf: Str, bl: nat, sl: nat)
    requires At(buf, 0, HeaderOf(le, bl, sl)) && START + bl < 0x1_0000_0000
    ensures CellAt(le, buf, 8) == START && CellAt(le, buf, 12) == START + bl
  {
    hide Cell, Uint32;
    var h := HeaderOf(le, bl, sl);
    assert h[8..12] == Cell(le, START);
    assert h[12..16] == Cell(le, START + bl);
    assert buf[8..12] == buf[0..40][8..12];
    assert buf[12..16] == buf[0..40][12..16];
    CellRoundTrip(le, START);
    CellRoundTrip(le, START + bl);
  }

  lemma HeaderField(h: Str, le: bool, i: nat, v: nat)
    requires i + 4 <= |h| && h[i..i + 4] == Cell(le, v) && v < 0x1_0000_0000
    ensures CellAt(le, h, i) == v
  {
    hide Cell, Uint32;
    CellRoundTrip(le, v);
  }

  /** The header of a flattened tree: the magic number, the total size, where the structure, the strings and the
    * reserve map start, versions 17 and 16, processor 0, and the sizes of strings and structure, which fill the rest
    * after sixteen zero bytes of reserve map. */
  lemma HeaderSays(le: bool, o: Listing)
    requires |Flat(le, o)| < 0x1_0000_0000
    ensures var f := Flat(le, o); var bl, sl := CellAt(le, f, 36), CellAt(le, f, 32);
      && CellAt(le, f, 0) == 0xd00d_feed && CellAt(le, f, 4) == |f| == 56 + bl + sl
      && CellAt(le, f, 8) == 56 && CellAt(le, f, 12) == 56 + bl && CellAt(le, f, 16) == 40
      && CellAt(le, f, 20) == 17 && CellAt(le, f, 24) == 16 && CellAt(le, f, 28) == 0
      && f[40..56] == Zeros(16) && f[56 + bl..] == Padded(StrsOf(Toks(o)))
  {
    hide Cell, Uint32, BytesOf, StrsOf, Toks, Padded;
    var f := Flat(le, o);
    var b := BytesOf(le, Toks(o)) + Cell(le, END);
    var s := Padded(StrsOf(Toks(o)));
    var h := HeaderOf(le, |b|, |s|);
    assert f[..40] == h && f[40..56] == Zeros(16) && f[56..56 + |b|] == b && f[56 + |b|..] == s;
    var cells := [MAGIC, 56 + |b| + |s|, 56, 56 + |b|, 40, 17, 16, 0, |s|, |b|];
    forall k | 0 <= k < 10 ensures CellAt(le, f, 4 * k) == cells[k] {
      HeaderCell(le, |b|, |s|, k, cells);
      assert f[4 * k..4 * k + 4] == h[4 * k..4 * k + 4];
      HeaderField(f, le, 4 * k, cells[k]);
    }
    assert cells[0] == CellAt(le, f, 4 * 0) && cells[1] == CellAt(le, f, 4 * 1) && cells[2] == CellAt(le, f, 4 * 2);
    assert cells[3] == CellAt(le, f, 4 * 3) && cells[4] == CellAt(le, f, 4 * 4) && cells[5] == CellAt(le, f, 4 * 5);
    assert cells[6] == CellAt(le, f, 4 * 6) && cells[7] == CellAt(le, f, 4 * 7) && cells[8] == CellAt(le, f, 4 * 8);
    assert cells[9] == CellAt(le, f, 4 * 9);
  }

  lemma HeaderCell(le: bool, bl: nat, sl: nat, k: nat, cells: seq<nat>)
    requires k < 10 && cells == [MAGIC, 56 + bl + sl, 56, 56 + bl, 40, 17, 16, 0, sl, bl]
    ensures HeaderOf(le, bl, sl)[4 * k..4 * k + 4] == Cell(le, cells[k])
  {
    hide Cell;
    var x := Five(Cell(le, cells[0]), Cell(le, cells[1]), Cell(le, cells[2]), Cell(le, cells[3]), Cell(le, cells[4]));
    var y := Five(Cell(le, cells[5]), Cell(le, cells[6]), Cell(le, cells[7]), Cell(le, cells[8]), Cell(le, cells[9]));
    var h := HeaderOf(le, bl, sl);
    assert h == x + y;
    if k < 5 {
      assert h[4 * k..4 * k + 4] == x[4 * k..4 * k + 4];
    } else {
      assert h[4 * k..4 * k + 4] == y[4 * (k - 5)..4 * (k - 5) + 4];
    }
  }

  function Five(a: Str, b: Str, c: Str, d: Str, e: Str): (r: Str)
    requires |a| == |b| == |c| == |d| == |e| == 4
    ensures |r| == 20 && r[0..4] == a && r[4..8] == b && r[8..12] == c && r[12..16] == d && r[16..20] == e
  {
    a + b + c + d + e
  }

  /** Parsing a flattened tree of less than 2^32 bytes gives the tree back and leaves no node open. */
  lemma RoundTrip(le: bool, o: Listing, n: Node)
    requires Lists(o, n) && WellNamed(n, 1) && |Flat(le, o)| < 0x1_0000_0000
    ensures ParseOf(le, Flat(le, o)) == Parsed(Some(n), true)
  {
    hide Flat, Toks, BytesOf, StrsOf, ParseStep, Nested, TokOk, Lists, WellNamed, Cell;
    var buf, toks, w := Flat(le, o), Toks(o), Walk([], None);
    FlatParts(le, o);
    NestedNode(w, o, n);
    NodeOk(o, n, 1);
    var so := START + |BytesOf(le, toks)| + 4;
    ParseRun(le, so, buf, toks, |toks|);
    assert toks[..|toks|] == toks;
    RunNode(w, o, n);
    LastStep(le, so, buf, START + |BytesOf(le, toks)|, Closed(w, n));
  }

  lemma LastStep(le: bool, so: nat, buf: Str, cur: nat, w: Walk)
    requires At(buf, cur, Cell(le, END))
    ensures ParseFrom(le, so, buf, cur, w) == Parsed(w.root, |w.stack| == 0)
  {
    hide Cell;
    AtCell(le, buf, cur, END);
  }

  /** Writing a tree and reading it back, as a caller would. */
  method WriteThenRead(le: bool, root: Node) returns (buf: Str, r: Result)
    requires WellNamed(root, 1)
    ensures |buf| < 0x1_0000_0000 ==> r == Parsed(Some(root), true)
  {
    ghost var o;
    buf, o := FlattenTreeToSlice(le, root);
    r := Parse(le, buf);
    if |buf| < 0x1_0000_0000 { RoundTrip(le, o, root); }
  }

  /** The name is what comes back, exactly when it is neither empty nor cut by a NUL. */
  lemma NameSurvives(le: bool, name: Str, so: nat, rest: Str)
    ensures var buf := TokBytes(le, Begin(name), 0) + rest;
      ParseStep(le, so, buf, 0, Walk([], None)).Next?
      && (ParseStep(le, so, buf, 0, Walk([], None)).walk == Apply(Walk([], None), Begin(name))
          <==> |name| > 0 && NulFree(name))
  {
    hide ParseStep, TokBytes, IndexNul;
    var tb := TokBytes(le, Begin(name), 0);
    var buf, w := tb + rest, Walk([], None);
    assert At(buf, 0, tb);
    if |name| > 0 && NulFree(name) {
      BeginStep(le, so, buf, 0, w, name, 0);
    } else {
      NameCut(le, so, buf, w, name);
    }
  }

  /** An empty name, or one with a NUL in it, is cut short. */
  lemma NulCut(buf: Str, at: nat, name: Str)
    requires At(buf, at, name + [0]) && (|name| == 0 || !NulFree(name))
    ensures 0 <= IndexNul(buf, at) <= |name| && (IndexNul(buf, at) < |name| || |name| == 0)
    ensures at + |name| < |buf|
  {
    AtLeft(buf, at, name, [0]);
    assert buf[at + |name|] == buf[at + |name|..at + |name| + 1][0] == 0;
    assert forall i :: 0 <= i < |name| ==> name[i] == buf[at..at + |name|][i] == buf[at + i];
  }

  lemma NameCut(le: bool, so: nat, buf: Str, w: Walk, name: Str)
    requires At(buf, 0, TokBytes(le, Begin(name), 0)) && (|name| == 0 || !NulFree(name)) && w == Walk([], None)
    ensures ParseStep(le, so, buf, 0, w).Next? && ParseStep(le, so, buf, 0, w).walk != Apply(w, Begin(name))
  {
    hide IndexNul, CellAt, Cell, Align4, ParseStep, At, Padded;
    assert name != ROOT_NAME;
    BeginCells(le, buf, 0, name);
    NulCut(buf, 4, name);
    var n := IndexNul(buf, 4);
    ParseBegin(le, so, buf, 0, w, n);
    var got := if n > 0 then buf[4..4 + n] else ROOT_NAME;
    assert got != name;
    assert Apply(w, Begin(got)).stack[0].name == got && Apply(w, Begin(name)).stack[0].name == name;
  }
}

/** `putNode` and `FlattenTreeToSlice` of `goes/internal/fdt/fdt.go`, and the round trip through `Parse`.
  *
  * Go visits the entries of a map in any order. A flattened tree therefore follows some listing of the node:
  * its properties and children, each once, in the order that was met.
  */
module FdtFlatten {
  import opened FdtFormat

  datatype Listing = Listing(name: Str, props: seq<(Str, Str)>, kids: seq<Listing>)

  ghost predicate ListsProps(props: seq<(Str, Str)>, m: map<Str, Str>) {
    && (forall i :: 0 <= i < |props| ==> props[i].0 in m && m[props[i].0] == props[i].1)
    && (forall i, j :: 0 <= i < j < |props| ==> props[i].0 != props[j].0)
    && (forall k :: k in m ==> exists i :: 0 <= i < |props| && props[i].0 == k)
  }

  /** The listing names each property and each child of the node exactly once. */
  ghost predicate Lists(o: Listing, n: Node)
    decreases n, 1
  {
    && o.name == n.name
    && ListsProps(o.props, n.properties)
    && ListsKids(o.kids, n)
  }

  /** The listing's children are the node's, each once. */
  ghost predicate ListsKids(kids: seq<Listing>, n: Node)
    decreases n, 0
  {
    && (forall i :: 0 <= i < |kids| ==> kids[i].name in n.children && Lists(kids[i], n.children[kids[i].name]))
    && (forall i, j :: 0 <= i < j < |kids| ==> kids[i].name != kids[j].name)
    && (forall k :: k in n.children ==> exists i :: 0 <= i < |kids| && kids[i].name == k)
  }

  /** Names are non-empty and free of NULs, children are filed under their names, depth is the level. */
  ghost predicate WellNamed(n: Node, level: nat)
    decreases n
  {
    && n.depth == level && |n.name| > 0 && NulFree(n.name)
    && (forall k :: k in n.properties ==> NulFree(k))
    && (forall k :: k in n.children ==> n.children[k].name == k && WellNamed(n.children[k], level + 1))
  }

  // ---- Items and their bytes ----

  function PropToks(props: seq<(Str, Str)>): seq<Tok> {
    if |props| == 0 then []
    else PropToks(props[..|props| - 1]) + [Prop(props[|props| - 1].0, props[|props| - 1].1)]
  }

  function Toks(o: Listing): seq<Tok> {
    [Begin(o.name)] + PropToks(o.props) + KidToks(o.kids) + [EndNode]
  }

  function KidToks(kids: seq<Listing>): seq<Tok> {
    if |kids| == 0 then [] else KidToks(kids[..|kids| - 1]) + Toks(kids[|kids| - 1])
  }

  /** The strings block that the items fill: every property's name and a NUL, even if it is there already. */
  function StrsOf(toks: seq<Tok>): Str {
    if |toks| == 0 then []
    else
      var last := toks[|toks| - 1];
      StrsOf(toks[..|toks| - 1]) + if last.Prop? then last.name + [0] else []
  }

  /** The bytes of one item, with the strings block so far k bytes long. */
  function TokBytes(le: bool, tok: Tok, k: nat): (b: Str)
    ensures |b| % 4 == 0 && |b| >= 4
  {
    match tok
    case Begin(name) => Padded(Cell(le, BEGIN_NODE) + (if name == ROOT_NAME then [] else name) + [0])
    case Prop(_, value) => Padded(Cell(le, PROP) + Cell(le, |value|) + Cell(le, k) + value)
    case EndNode => Cell(le, END_NODE)
  }

  function BytesOf(le: bool, toks: seq<Tok>): Str {
    if |toks| == 0 then []
    else
      var rest := toks[..|toks| - 1];
      BytesOf(le, rest) + TokBytes(le, toks[|toks| - 1], |StrsOf(rest)|)
  }

  lemma {:induction false} BytesAligned(le: bool, toks: seq<Tok>)
    ensures |BytesOf(le, toks)| % 4 == 0
  {
    hide TokBytes, StrsOf;
    if |toks| > 0 {
      BytesAligned(le, toks[..|toks| - 1]);
    }
  }

  lemma StepBytes(le: bool, toks: seq<Tok>, tok: Tok)
    ensures BytesOf(le, toks + [tok]) == BytesOf(le, toks) + TokBytes(le, tok, |StrsOf(toks)|)
    ensures StrsOf(toks + [tok]) == StrsOf(toks) + if tok.Prop? then tok.name + [0] else []
  {
    assert (toks + [tok])[..|toks|] == toks;
  }

  // ---- Writing ----

  /** `alignTo` four. */
  method AlignTo(b: Str) returns (r: Str)
    ensures r == Padded(b)
  {
    r := b;
    while |r| % 4 != 0
      invariant |b| <= |r| <= Align4(|b|) && r == b + Zeros(|r| - |b|)
      decreases Align4(|b|) - |r|
    {
      r := r + [0];
    }
  }

  lemma PadAfter(b: Str, x: Str)
    requires |b| % 4 == 0
    ensures Padded(b + x) == b + Padded(x)
  {
  }

  /** The property loop of `putNode`, in whatever order the map gives. */
  method PutProps(le: bool, b: Str, s: Str, m: map<Str, Str>, ghost toks: seq<Tok>)
    returns (b': Str, s': Str, ghost props: seq<(Str, Str)>)
    requires b == BytesOf(le, toks) && s == StrsOf(toks)
    ensures ListsProps(props, m)
    ensures b' == BytesOf(le, toks + PropToks(props)) && s' == StrsOf(toks + PropToks(props))
  {
    hide BytesOf, StrsOf, PropToks;
    b', s', props := b, s, [];
    NoProps(toks);
    var left := m.Keys;
    while left != {}
      invariant left <= m.Keys
      invariant forall i :: 0 <= i < |props| ==> props[i].0 in m && m[props[i].0] == props[i].1 && props[i].0 !in left
      invariant forall i, j :: 0 <= i < j < |props| ==> props[i].0 != props[j].0
      invariant forall k :: k in m ==> k in left || exists i :: 0 <= i < |props| && props[i].0 == k
      invariant b' == BytesOf(le, toks + PropToks(props)) && s' == StrsOf(toks + PropToks(props))
      decreases |left|
    {
      var name :| name in left;
      left := left - {name};
      b', s' := PutProp(le, b', s', name, m[name], toks + PropToks(props));
      ghost var was := props;
      props := PropsStep(toks, props, name, m[name]);
      assert props[|was|].0 == name;
      forall k | k in m && k !in left ensures exists i :: 0 <= i < |props| && props[i].0 == k {
        if k != name {
          var i :| 0 <= i < |was| && was[i].0 == k;
          assert props[i].0 == k;
        }
      }
    }
  }

  lemma NoProps(toks: seq<Tok>)
    ensures toks + PropToks([]) == toks
  {
  }

  lemma PropsStep(toks: seq<Tok>, props: seq<(Str, Str)>, name: Str, value: Str) returns (props': seq<(Str, Str)>)
    ensures props' == props + [(name, value)]
    ensures toks + PropToks(props') == toks + PropToks(props) + [Prop(name, value)]
  {
    props' := props + [(name, value)];
    assert props'[..|props|] == props;
  }

  method PutProp(le: bool, b: Str, s: Str, name: Str, value: Str, ghost toks: seq<Tok>) returns (b': Str, s': Str)
    requires b == BytesOf(le, toks) && s == StrsOf(toks)
    ensures b' == BytesOf(le, toks + [Prop(name, value)]) && s' == StrsOf(toks + [Prop(name, value)])
  {
    hide BytesOf, StrsOf, Padded, Cell;
    BytesAligned(le, toks);
    b' := b + Cell(le, PROP);
    b' := b' + Cell(le, |value|);
    b' := b' + Cell(le, |s|);
    b' := b' + value;
    s' := s + name;
    s' := s' + [0];
    ghost var x := Cell(le, PROP) + Cell(le, |value|) + Cell(le, |s|) + value;
    assert b' == b + x;
    PadAfter(b, x);
    b' := AlignTo(b');
    StepBytes(le, toks, Prop(name, value));
    assert s' == s + (name + [0]);
  }

  /** The start of `putNode`: the tag and the name, which for the root's own name is empty. */
  method PutBegin(le: bool, b: Str, name: Str, ghost toks: seq<Tok>) returns (b': Str)
    requires b == BytesOf(le, toks)
    ensures b' == BytesOf(le, toks + [Begin(name)]) && StrsOf(toks + [Begin(name)]) == StrsOf(toks)
  {
    hide BytesOf, StrsOf, Padded, Cell;
    BytesAligned(le, toks);
    b' := b + Cell(le, BEGIN_NODE);
    if name != ROOT_NAME { b' := b' + name; }
    b' := b' + [0];
    ghost var x := Cell(le, BEGIN_NODE) + (if name == ROOT_NAME then [] else name) + [0];
    assert b' == b + x;
    PadAfter(b, x);
    b' := AlignTo(b');
    StepBytes(le, toks, Begin(name));
  }

  /** `putNode`. */
  method PutNode(le: bool, b: Str, s: Str, n: Node, ghost toks: seq<Tok>, level: nat)
    returns (b': Str, s': Str, ghost o: Listing)
    requires b == BytesOf(le, toks) && s == StrsOf(toks) && WellNamed(n, level)
    ensures Lists(o, n) && b' == BytesOf(le, toks + Toks(o)) && s' == StrsOf(toks + Toks(o))
    decreases n, 1
  {
    hide BytesOf, StrsOf, PropToks, KidToks, ListsProps, Cell;
    b' := PutBegin(le, b, n.name, toks);
    ghost var toks1 := toks + [Begin(n.name)];
    ghost var props;
    b', s', props := PutProps(le, b', s, n.properties, toks1);
    ghost var toks2 := toks1 + PropToks(props);
    ghost var kids;
    b', s', kids := PutKids(le, b', s', n, toks2, level);
    ghost var toks3 := toks2 + KidToks(kids);
    StepBytes(le, toks3, EndNode);
    b' := b' + Cell(le, END_NODE);
    assert s' == s' + [];
    o := Listing(n.name, props, kids);
    assert toks + Toks(o) == toks3 + [EndNode];
  }

  /** The child loop of `putNode`, in whatever order the map gives. */
  method PutKids(le: bool, b: Str, s: Str, n: Node, ghost toks: seq<Tok>, level: nat)
    returns (b': Str, s': Str, ghost kids: seq<Listing>)
    requires b == BytesOf(le, toks) && s == StrsOf(toks) && WellNamed(n, level)
    ensures ListsKids(kids, n)
    ensures b' == BytesOf(le, toks + KidToks(kids)) && s' == StrsOf(toks + KidToks(kids))
    decreases n, 0
  {
    hide BytesOf, StrsOf, KidToks, Lists, ListsKids, KidsLeft;
    b', s', kids := b, s, [];
    NoKids(toks);
    var left := n.children.Keys;
    KidsNone(n);
    while left != {}
      invariant left <= n.children.Keys && KidsLeft(kids, n, left)
      invariant b' == BytesOf(le, toks + KidToks(kids)) && s' == StrsOf(toks + KidToks(kids))
      decreases |left|
    {
      var k :| k in left;
      ghost var kid;
      b', s', kid := PutNode(le, b', s', n.children[k], toks + KidToks(kids), level + 1);
      ListsName(kid, n.children[k]);
      KidsAdd(kids, n, left, kid, k);
      kids := KidsStep(toks, kids, kid);
      left := left - {k};
    }
    KidsAll(kids, n);
  }

  /** The children listed so far are those not left. */
  ghost predicate KidsLeft(kids: seq<Listing>, n: Node, left: set<Str>) {
    && (forall i :: 0 <= i < |kids| ==> kids[i].name in n.children && kids[i].name !in left)
    && (forall i :: 0 <= i < |kids| ==> kids[i].name in n.children && Lists(kids[i], n.children[kids[i].name]))
    && (forall i, j :: 0 <= i < j < |kids| ==> kids[i].name != kids[j].name)
    && (forall k :: k in n.children ==> k in left || exists i :: 0 <= i < |kids| && kids[i].name == k)
  }

  lemma KidsNone(n: Node)
    ensures KidsLeft([], n, n.children.Keys)
  {
  }

  lemma KidsAll(kids: seq<Listing>, n: Node)
    requires KidsLeft(kids, n, {})
    ensures ListsKids(kids, n)
  {
  }

  lemma KidsAdd(kids: seq<Listing>, n: Node, left: set<Str>, kid: Listing, k: Str)
    requires KidsLeft(kids, n, left) && k in left && k in n.children && kid.name == k && Lists(kid, n.children[k])
    ensures KidsLeft(kids + [kid], n, left - {k})
  {
    hide Lists;
    var more := kids + [kid];
    assert more[|kids|].name == k;
    forall x | x in n.children && x !in left - {k} ensures exists i :: 0 <= i < |more| && more[i].name == x {
      if x != k {
        var i :| 0 <= i < |kids| && kids[i].name == x;
        assert more[i].name == x;
      }
    }
  }

  lemma ListsName(o: Listing, n: Node)
    requires Lists(o, n)
    ensures o.name == n.name
  {
  }

  lemma NoKids(toks: seq<Tok>)
    ensures toks + KidToks([]) == toks
  {
  }

  lemma KidsStep(toks: seq<Tok>, kids: seq<Listing>, kid: Listing) returns (kids': seq<Listing>)
    ensures kids' == kids + [kid]
    ensures toks + KidToks(kids') == toks + KidToks(kids) + Toks(kid)
  {
    kids' := kids + [kid];
    assert kids'[..|kids|] == kids;
  }
}

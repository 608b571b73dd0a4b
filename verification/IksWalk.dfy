/** The walk of iks_string and iks_copy_within over linked nodes: a position, a level and a direction,
    and no stack. Here one pass of its loop is seen on the tree that the nodes stand for. */
module IksWalk {
  import opened Xml
  import opened Iks
  import Dom

  // ----- nodes that stand for a tree

  /** The nodes of the tree t hang below x, all of them among lo..hi. */
  ghost predicate Represents(a: Arena, x: int, t: Tree, lo: int, hi: int)
    requires a.Linked()
    decreases t, 1
  {
    && 0 <= lo <= x < hi <= |a.nodes|
    && match t
       case Cdata(text) => a.nodes[x].kind == CdataNode && a.nodes[x].text == text
       case Element(name, atts, ts) =>
         && a.nodes[x].kind == TagNode && a.nodes[x].name == name
         && Attributes(a, x) == atts && (forall id :: id in a.atrs[x] ==> lo <= id < hi)
         && RepresentAll(a, a.kids[x], ts, lo, hi)
  }

  ghost predicate RepresentAll(a: Arena, ids: seq<int>, ts: seq<Tree>, lo: int, hi: int)
    requires a.Linked()
    decreases ts, 0
  {
    |ids| == |ts| && forall i :: 0 <= i < |ts| ==> Represents(a, ids[i], ts[i], lo, hi)
  }

  // ----- where the walk is

  /** An element on the way down to the current node: which child the way takes, and the children behind. */
  datatype Frame = Frame(node: int, name: string, at: nat, rest: seq<Tree>)

  /** At node x, below the elements of path, innermost last. Unless x is finished (`up`) it stands for t. */
  datatype Cursor = Cursor(x: int, t: Tree, up: bool, path: seq<Frame>)

  ghost predicate Above(a: Arena, f: Frame, x: int)
    requires a.Linked()
  {
    && a.IsTag(f.node) && a.nodes[f.node].name == f.name
    && f.at < |a.kids[f.node]| && a.kids[f.node][f.at] == x
    && RepresentAll(a, a.kids[f.node][f.at + 1..], f.rest, 0, |a.nodes|)
  }

  function Below(c: Cursor, i: nat): int
    requires i < |c.path|
  {
    if i + 1 < |c.path| then c.path[i + 1].node else c.x
  }

  ghost predicate Standing(a: Arena, c: Cursor)
    requires a.Linked()
  {
    && a.Has(c.x) && (!c.up ==> Represents(a, c.x, c.t, 0, |a.nodes|))
    && forall i :: 0 <= i < |c.path| ==> Above(a, c.path[i], Below(c, i))
  }

  /** What comes behind the current node, in document order. */
  function Behind(path: seq<Frame>): seq<Event>
    decreases |path|
  {
    if path == [] then []
    else
      var f := path[|path| - 1];
      EventsAll(f.rest) + [Tag(f.name, [], Close)] + Behind(path[..|path| - 1])
  }

  function Todo(c: Cursor): seq<Event> {
    (if c.up then [] else Events(c.t)) + Behind(c.path)
  }

  // ----- the measure of the loop

  function Weight(t: Tree): nat {
    match t
    case Cdata(_) => 1
    case Element(_, _, ts) => 2 + WeightAll(ts)
  }

  function WeightAll(ts: seq<Tree>): nat {
    if ts == [] then 0 else Weight(ts[0]) + WeightAll(ts[1..])
  }

  function WeightBehind(path: seq<Frame>): nat
    decreases |path|
  {
    if path == [] then 0
    else WeightAll(path[|path| - 1].rest) + 1 + WeightBehind(path[..|path| - 1])
  }

  /** Goes down with every pass that finishes or opens a node; a pass back to a sibling turns `up` off. */
  function Measure(c: Cursor): nat {
    (if c.up then 0 else Weight(c.t)) + WeightBehind(c.path)
  }

  // ----- the moves

  function Start(x: int, t: Tree): Cursor {
    Cursor(x, t, false, [])
  }

  lemma Starts(a: Arena, x: int, t: Tree)
    requires a.Linked() && Represents(a, x, t, 0, |a.nodes|)
    ensures Standing(a, Start(x, t)) && Todo(Start(x, t)) == Events(t)
  {
    assert Events(t) + [] == Events(t);
  }

  /** To the first child. */
  function Down(c: Cursor, first: int): Cursor
    requires c.t.Element? && c.t.kids != []
  {
    Cursor(first, c.t.kids[0], false, c.path + [Frame(c.x, c.t.name, 0, c.t.kids[1..])])
  }

  /** A node without children is finished with one event. */
  predicate IsLeaf(t: Tree) {
    t.Cdata? || t.kids == []
  }

  function LeafEvent(t: Tree): Event
    requires IsLeaf(t)
  {
    match t
    case Cdata(text) => Text(text)
    case Element(name, atts, _) => Tag(name, atts, Single)
  }

  function Finish(c: Cursor): Cursor {
    c.(up := true)
  }

  /** To the next sibling. */
  function Over(c: Cursor, next: int): Cursor
    requires c.path != [] && Dom.Last(c.path).rest != []
  {
    var f := Dom.Last(c.path);
    Cursor(next, f.rest[0], false, Dom.Front(c.path) + [f.(at := f.at + 1, rest := f.rest[1..])])
  }

  /** Back to the parent. */
  function Back(c: Cursor): Cursor
    requires c.path != []
  {
    Cursor(Dom.Last(c.path).node, c.t, true, Dom.Front(c.path))
  }

  /** What the links of the current node say. */
  lemma CurrentNode(a: Arena, c: Cursor)
    requires a.Linked() && Standing(a, c) && !c.up
    ensures match c.t
      case Cdata(text) => a.nodes[c.x].kind == CdataNode && a.nodes[c.x].text == text
      case Element(name, atts, ts) =>
        && a.nodes[c.x].kind == TagNode && a.nodes[c.x].name == name && Attributes(a, c.x) == atts
        && (a.nodes[c.x].children == NULL <==> ts == [])
  {
    hide Arena.Linked, RepresentAll, Above, Attributes;
    LastOfChain(a, c.x);
    if c.t.Element? {
      RepresentLength(a, a.kids[c.x], c.t.kids, 0, |a.nodes|);
    }
  }

  lemma RepresentLength(a: Arena, ids: seq<int>, ts: seq<Tree>, lo: int, hi: int)
    requires a.Linked() && RepresentAll(a, ids, ts, lo, hi)
    ensures |ids| == |ts|
    ensures ids != [] ==> a.Has(ids[0]) && Represents(a, ids[0], ts[0], lo, hi) && RepresentAll(a, ids[1..], ts[1..], lo, hi)
  {
    hide Arena.Linked, Attributes;
  }

  lemma GoDown(a: Arena, c: Cursor)
    requires a.Linked() && Standing(a, c) && !c.up && c.t.Element? && c.t.kids != []
    ensures var d := Down(c, a.nodes[c.x].children);
      && a.Has(d.x) && Standing(a, d) && Measure(d) < Measure(c)
      && Todo(c) == [Tag(c.t.name, c.t.atts, Open)] + Todo(d)
  {
    hide Arena.Linked, RepresentAll, Attributes;
    var first := a.nodes[c.x].children;
    var d := Down(c, first);
    var ids, ts := a.kids[c.x], c.t.kids;
    RepresentLength(a, ids, ts, 0, |a.nodes|);
    LastOfChain(a, c.x);
    assert first == ids[0] && ids[0 + 1..] == ids[1..];
    assert d.path[..|d.path| - 1] == c.path;
    assert WeightAll(ts) == Weight(ts[0]) + WeightAll(ts[1..]);
    forall i | 0 <= i < |d.path|
      ensures Above(a, d.path[i], Below(d, i))
    {
      if i < |c.path| {
        assert Above(a, c.path[i], Below(c, i));
      }
    }
    OpenTodo(c.t.name, c.t.atts, ts, Behind(c.path));
  }

  lemma OpenTodo(name: string, atts: Attrs, ts: seq<Tree>, rest: seq<Event>)
    requires ts != []
    ensures Events(Element(name, atts, ts)) + rest
         == [Tag(name, atts, Open)] + (Events(ts[0]) + (EventsAll(ts[1..]) + [Tag(name, [], Close)] + rest))
  {
    hide Events;
    assert EventsAll(ts) == Events(ts[0]) + EventsAll(ts[1..]);
    assert Events(Element(name, atts, ts)) == [Tag(name, atts, Open)] + EventsAll(ts) + [Tag(name, [], Close)] by {
      ElementEvents(name, atts, ts);
    }
  }

  lemma ElementEvents(name: string, atts: Attrs, ts: seq<Tree>)
    requires ts != []
    ensures Events(Element(name, atts, ts)) == [Tag(name, atts, Open)] + EventsAll(ts) + [Tag(name, [], Close)]
  {
  }

  lemma FinishLeaf(a: Arena, c: Cursor)
    requires a.Linked() && Standing(a, c) && !c.up && IsLeaf(c.t)
    ensures var d := Finish(c);
      Standing(a, d) && Todo(c) == [LeafEvent(c.t)] + Todo(d) && Measure(d) < Measure(c)
  {
    hide Arena.Linked, Represents, Above;
    forall i | 0 <= i < |c.path|
      ensures Above(a, c.path[i], Below(Finish(c), i))
    {
      assert Above(a, c.path[i], Below(c, i));
    }
  }

  lemma GoOver(a: Arena, c: Cursor)
    requires a.Linked() && Standing(a, c) && c.up && c.path != [] && a.nodes[c.x].next != NULL
    ensures Dom.Last(c.path).rest != []
    ensures var d := Over(c, a.nodes[c.x].next);
      a.Has(d.x) && Standing(a, d) && Todo(d) == Todo(c) && Measure(d) == Measure(c)
  {
    hide Arena.Linked, Represents, RepresentAll, Todo, Measure;
    var f := Dom.Last(c.path);
    SiblingOf(a, c);
    var ids := a.kids[f.node];
    RepresentLength(a, ids[f.at + 1..], f.rest, 0, |a.nodes|);
    var d := Over(c, a.nodes[c.x].next);
    assert ids[f.at + 1..][0] == ids[f.at + 1] && ids[f.at + 1..][1..] == ids[f.at + 1 + 1..];
    OverTodo(c, a.nodes[c.x].next);
    forall i | 0 <= i < |d.path|
      ensures Above(a, d.path[i], Below(d, i))
    {
      assert Above(a, c.path[i], Below(c, i));
    }
  }

  lemma OverTodo(c: Cursor, next: int)
    requires c.up && c.path != [] && Dom.Last(c.path).rest != []
    ensures Todo(Over(c, next)) == Todo(c) && Measure(Over(c, next)) == Measure(c)
  {
    hide Events, Weight;
    var f, d := Dom.Last(c.path), Over(c, next);
    assert d.path[..|d.path| - 1] == Dom.Front(c.path) == c.path[..|c.path| - 1];
    assert EventsAll(f.rest) == Events(f.rest[0]) + EventsAll(f.rest[1..]);
    assert [] + Behind(c.path) == Behind(c.path);
    var end, out := [Tag(f.name, [], Close)], Behind(Dom.Front(c.path));
    assert Events(f.rest[0]) + (EventsAll(f.rest[1..]) + end + out) == (Events(f.rest[0]) + EventsAll(f.rest[1..])) + end + out;
  }

  lemma GoBack(a: Arena, c: Cursor)
    requires a.Linked() && Standing(a, c) && c.up && c.path != [] && a.nodes[c.x].next == NULL
    ensures var d := Back(c);
      && a.nodes[c.x].parent == d.x && a.Has(d.x) && Standing(a, d) && a.nodes[d.x].name == Dom.Last(c.path).name
      && Todo(c) == [Tag(Dom.Last(c.path).name, [], Close)] + Todo(d) && Measure(d) < Measure(c)
  {
    hide Arena.Linked, Represents, RepresentAll;
    var f := Dom.Last(c.path);
    SiblingOf(a, c);
    RepresentLength(a, a.kids[f.node][f.at + 1..], f.rest, 0, |a.nodes|);
    var d := Back(c);
    forall i | 0 <= i < |d.path|
      ensures Above(a, d.path[i], Below(d, i))
    {
      assert Above(a, c.path[i], Below(c, i));
    }
  }

  /** The links of a node below some frame. */
  lemma SiblingOf(a: Arena, c: Cursor)
    requires a.Linked() && Standing(a, c) && c.path != []
    ensures var f := Dom.Last(c.path);
      && Above(a, f, c.x) && a.nodes[c.x].parent == f.node && a.nodes[c.x].next == At(a.kids[f.node], f.at + 1)
      && (a.nodes[c.x].next == NULL <==> f.at + 1 == |a.kids[f.node]|)
  {
    hide Arena.Linked, Represents, RepresentAll;
    var f := Dom.Last(c.path);
    assert Above(a, f, Below(c, |c.path| - 1));
    KidHome(a, f.node, c.x);
    KidLinks(a, c.x, f.at);
  }
}

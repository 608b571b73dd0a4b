/** Trees under construction: what the DOM hooks and iks_copy_within build in a document, element by
    element, against the open elements of Dom. */
module IksBuild {
  import opened Xml
  import opened Iks
  import opened IksWalk
  import Dom

  // ----- what a tree depends on

  /** The nodes lo..hi have the same content in both. */
  ghost predicate SameRange(a: Arena, b: Arena, lo: int, hi: int) {
    forall j :: lo <= j < hi ==> a.SameContent(b, j)
  }

  lemma AttributesKept(a: Arena, b: Arena, x: int, lo: int, hi: int)
    requires a.Linked() && b.Linked() && SameRange(a, b, lo, hi) && lo <= x < hi && a.Has(x)
    requires forall id :: id in a.atrs[x] ==> lo <= id < hi
    ensures b.Has(x) && Attributes(b, x) == Attributes(a, x)
  {
    assert a.SameContent(b, x);
    assert a.Local(x) && b.Local(x);
    forall i | 0 <= i < |a.atrs[x]|
      ensures Attributes(b, x)[i] == Attributes(a, x)[i]
    {
      assert a.atrs[x][i] in a.atrs[x];
      assert a.SameContent(b, a.atrs[x][i]);
    }
  }

  lemma {:induction false} RepresentsKept(a: Arena, b: Arena, x: int, t: Tree, lo: int, hi: int)
    requires a.Linked() && b.Linked() && SameRange(a, b, lo, hi) && Represents(a, x, t, lo, hi)
    ensures Represents(b, x, t, lo, hi)
    decreases t
  {
    hide Arena.Linked, Attributes;
    assert a.SameContent(b, x) && a.SameContent(b, hi - 1);
    if t.Element? {
      AttributesKept(a, b, x, lo, hi);
      forall i | 0 <= i < |t.kids|
        ensures Represents(b, b.kids[x][i], t.kids[i], lo, hi)
      {
        RepresentsKept(a, b, a.kids[x][i], t.kids[i], lo, hi);
      }
    }
  }

  lemma {:induction false} RepresentsWiden(a: Arena, x: int, t: Tree, lo: int, hi: int, lo': int, hi': int)
    requires a.Linked() && Represents(a, x, t, lo, hi) && 0 <= lo' <= lo && hi <= hi' <= |a.nodes|
    ensures Represents(a, x, t, lo', hi')
    decreases t
  {
    hide Arena.Linked, Attributes;
    if t.Element? {
      forall i | 0 <= i < |t.kids|
        ensures Represents(a, a.kids[x][i], t.kids[i], lo', hi')
      {
        RepresentsWiden(a, a.kids[x][i], t.kids[i], lo, hi, lo', hi');
      }
    }
  }

  // ----- finished children side by side

  function Bound(ids: seq<int>, i: int, hi: int): int
    requires 0 <= i < |ids|
  {
    if i + 1 < |ids| then ids[i + 1] else hi
  }

  /** Finished trees, each in the nodes from its root to the next root. */
  ghost predicate Spread(a: Arena, ids: seq<int>, ts: seq<Tree>, lo: int, hi: int)
    requires a.Linked()
  {
    && |ids| == |ts| && 0 <= lo <= hi <= |a.nodes| && (ids != [] ==> lo <= ids[0])
    && forall i :: 0 <= i < |ids| ==> Represents(a, ids[i], ts[i], ids[i], Bound(ids, i, hi))
  }

  lemma RepresentsInside(a: Arena, x: int, t: Tree, lo: int, hi: int)
    requires a.Linked() && Represents(a, x, t, lo, hi)
    ensures 0 <= lo <= x < hi <= |a.nodes|
  {
  }

  lemma {:induction false} SpreadAscends(a: Arena, ids: seq<int>, ts: seq<Tree>, lo: int, hi: int, i: nat)
    requires a.Linked() && Spread(a, ids, ts, lo, hi) && i < |ids|
    ensures lo <= ids[i] < Bound(ids, i, hi)
    decreases i
  {
    hide Arena.Linked, Represents;
    RepresentsInside(a, ids[i], ts[i], ids[i], Bound(ids, i, hi));
    if i > 0 {
      SpreadAscends(a, ids, ts, lo, hi, i - 1);
    }
  }

  lemma {:induction false} SpreadBelow(a: Arena, ids: seq<int>, ts: seq<Tree>, lo: int, hi: int, i: nat)
    requires a.Linked() && Spread(a, ids, ts, lo, hi) && i < |ids|
    ensures Bound(ids, i, hi) <= hi
    decreases |ids| - i
  {
    hide Arena.Linked, Represents;
    if i + 1 < |ids| {
      SpreadBelow(a, ids, ts, lo, hi, i + 1);
      SpreadAscends(a, ids, ts, lo, hi, i + 1);
    }
  }

  lemma SpreadKept(a: Arena, b: Arena, ids: seq<int>, ts: seq<Tree>, lo: int, hi: int)
    requires a.Linked() && b.Linked() && |a.nodes| <= |b.nodes| && SameRange(a, b, lo, hi) && Spread(a, ids, ts, lo, hi)
    ensures Spread(b, ids, ts, lo, hi)
  {
    hide Arena.Linked, Represents, Arena.SameContent;
    forall i | 0 <= i < |ids|
      ensures Represents(b, ids[i], ts[i], ids[i], Bound(ids, i, hi))
    {
      SpreadAscends(a, ids, ts, lo, hi, i);
      SpreadBelow(a, ids, ts, lo, hi, i);
      RepresentsKept(a, b, ids[i], ts[i], ids[i], Bound(ids, i, hi));
    }
  }

  /** One more finished tree, in the nodes behind. */
  lemma SpreadSnoc(a: Arena, ids: seq<int>, ts: seq<Tree>, lo: int, x: int, t: Tree, hi: int)
    requires a.Linked() && Spread(a, ids, ts, lo, x) && Represents(a, x, t, x, hi)
    ensures Spread(a, ids + [x], ts + [t], lo, hi)
  {
    hide Arena.Linked, Represents;
    RepresentsInside(a, x, t, x, hi);
    forall i | 0 <= i < |ids| + 1
      ensures Represents(a, (ids + [x])[i], (ts + [t])[i], (ids + [x])[i], Bound(ids + [x], i, hi))
    {
      if i < |ids| {
        assert Bound(ids + [x], i, hi) == Bound(ids, i, x);
      }
    }
  }

  lemma SpreadAll(a: Arena, ids: seq<int>, ts: seq<Tree>, lo: int, hi: int, lo': int)
    requires a.Linked() && Spread(a, ids, ts, lo, hi) && 0 <= lo' <= lo
    ensures RepresentAll(a, ids, ts, lo', hi)
  {
    hide Arena.Linked, Represents;
    forall i | 0 <= i < |ids|
      ensures Represents(a, ids[i], ts[i], lo', hi)
    {
      SpreadAscends(a, ids, ts, lo, hi, i);
      SpreadBelow(a, ids, ts, lo, hi, i);
      RepresentsWiden(a, ids[i], ts[i], ids[i], Bound(ids, i, hi), lo', hi);
    }
  }

  // ----- open elements

  /** Node x is the open element f: its finished children, then `inner`, the open child if any. Of the
      nodes x..hi nothing belongs to that open child. */
  ghost predicate Level(a: Arena, x: int, f: Dom.Frame, inner: seq<int>, hi: int)
    requires a.Linked()
  {
    && 0 <= x < hi <= |a.nodes| && a.nodes[x].kind == TagNode && a.nodes[x].name == f.name
    && Attributes(a, x) == f.atts && (forall id :: id in a.atrs[x] ==> x <= id < hi)
    && |f.kids| <= |a.kids[x]| && a.kids[x][|f.kids|..] == inner
    && Spread(a, a.kids[x][..|f.kids|], f.kids, x + 1, hi)
  }

  /** The open child of the i-th open element. */
  function Inner(ids: seq<int>, i: nat): seq<int> {
    if i + 1 < |ids| then [ids[i + 1]] else []
  }

  /** ids are the open elements, outermost first; all nodes of the tree are behind m0. */
  ghost predicate Building(a: Arena, m0: nat, ids: seq<int>, open: seq<Dom.Frame>)
    requires a.Linked()
  {
    && |ids| == |open| && (ids != [] ==> m0 <= ids[0] && a.IsRoot(ids[0]))
    && forall i :: 0 <= i < |ids| ==>
         Level(a, ids[i], open[i], Inner(ids, i), Bound(ids, i, |a.nodes|))
  }

  lemma LevelKept(a: Arena, b: Arena, x: int, f: Dom.Frame, inner: seq<int>, hi: int)
    requires a.Linked() && b.Linked() && |a.nodes| <= |b.nodes| && SameRange(a, b, x, hi) && Level(a, x, f, inner, hi)
    ensures Level(b, x, f, inner, hi)
  {
    hide Arena.Linked, Attributes, Spread;
    AttributesKept(a, b, x, x, hi);
    assert a.SameContent(b, x);
    SpreadKept(a, b, a.kids[x][..|f.kids|], f.kids, x + 1, hi);
  }

  lemma LevelInside(a: Arena, x: int, f: Dom.Frame, inner: seq<int>, hi: int)
    requires a.Linked() && Level(a, x, f, inner, hi)
    ensures 0 <= x < hi <= |a.nodes|
  {
  }

  lemma {:induction false} BuildingAscends(a: Arena, m0: nat, ids: seq<int>, open: seq<Dom.Frame>, i: nat)
    requires a.Linked() && Building(a, m0, ids, open) && i < |ids|
    ensures m0 <= ids[i] < Bound(ids, i, |a.nodes|) <= |a.nodes|
    decreases i
  {
    hide Arena.Linked, Level;
    LevelInside(a, ids[i], open[i], Inner(ids, i), Bound(ids, i, |a.nodes|));
    if i > 0 {
      BuildingAscends(a, m0, ids, open, i - 1);
    }
  }

  /** The outer open elements do not notice what happens to nodes from the innermost one on. */
  lemma OuterKept(a: Arena, b: Arena, m0: nat, ids: seq<int>, open: seq<Dom.Frame>, i: nat)
    requires a.Linked() && b.Linked() && |a.nodes| <= |b.nodes| && Building(a, m0, ids, open) && i + 1 < |ids|
    requires SameRange(a, b, m0, ids[|ids| - 1])
    ensures Level(b, ids[i], open[i], Inner(ids, i), ids[i + 1])
  {
    hide Arena.Linked, Level, Arena.SameContent;
    BuildingAscends(a, m0, ids, open, i);
    OuterBelow(a, m0, ids, open, i + 1);
    assert Level(a, ids[i], open[i], Inner(ids, i), ids[i + 1]);
    LevelKept(a, b, ids[i], open[i], Inner(ids, i), ids[i + 1]);
  }

  lemma {:induction false} OuterBelow(a: Arena, m0: nat, ids: seq<int>, open: seq<Dom.Frame>, i: nat)
    requires a.Linked() && Building(a, m0, ids, open) && i < |ids|
    ensures m0 <= ids[i] <= ids[|ids| - 1]
    decreases |ids| - i
  {
    hide Arena.Linked, Level;
    BuildingAscends(a, m0, ids, open, i);
    if i + 1 < |ids| {
      OuterBelow(a, m0, ids, open, i + 1);
    }
  }

  // ----- the moves

  /** The first m0 nodes are as they were. */
  ghost predicate Untouched(a: Arena, b: Arena, m0: nat) {
    |a.nodes| <= |b.nodes| && forall i :: 0 <= i < m0 && i < |a.nodes| ==> b.nodes[i] == a.nodes[i]
  }

  /** The innermost open element has changed, the others have not. */
  lemma InnermostChanged(a: Arena, b: Arena, m0: nat, ids: seq<int>, open: seq<Dom.Frame>, f: Dom.Frame)
    requires a.Linked() && b.Linked() && |a.nodes| <= |b.nodes| && Building(a, m0, ids, open) && ids != []
    requires SameRange(a, b, m0, ids[|ids| - 1]) && b.IsRoot(ids[0])
    requires Level(b, ids[|ids| - 1], f, [], |b.nodes|)
    ensures Building(b, m0, ids, Dom.Front(open) + [f])
  {
    hide Arena.Linked, Level, Arena.SameContent;
    var open' := Dom.Front(open) + [f];
    forall i | 0 <= i < |ids|
      ensures Level(b, ids[i], open'[i], Inner(ids, i), Bound(ids, i, |b.nodes|))
    {
      if i + 1 < |ids| {
        OuterKept(a, b, m0, ids, open, i);
      }
    }
  }

  /** A new element y in the innermost one. */
  lemma ElementOpened(a: Arena, b: Arena, m0: nat, ids: seq<int>, open: seq<Dom.Frame>, name: string)
    requires a.Linked() && b.Linked() && Building(a, m0, ids, open) && ids != []
    requires NewKid(a, b, ids[|ids| - 1], |a.kids[ids[|ids| - 1]]|, |a.nodes|, TagNode, name, "")
    ensures Building(b, m0, ids + [|a.nodes|], open + [Dom.Frame(name, [], [])])
  {
    hide Arena.Linked, Level;
    var x, y, f := ids[|ids| - 1], |a.nodes|, open[|ids| - 1];
    var ids', open' := ids + [y], open + [Dom.Frame(name, [], [])];
    BuildingAscends(a, m0, ids, open, 0);
    BuildingAscends(a, m0, ids, open, |ids| - 1);
    NewKidContent(a, b, x, y, TagNode, name, "");
    LevelOpens(a, b, x, f, y);
    LevelNew(b, y, name);
    forall i | 0 <= i < |ids'|
      ensures Level(b, ids'[i], open'[i], Inner(ids', i), Bound(ids', i, |b.nodes|))
    {
      if i + 1 < |ids| {
        OuterKept(a, b, m0, ids, open, i);
        assert Inner(ids', i) == Inner(ids, i);
      }
    }
    RootStays(a, b, ids, x);
  }

  /** Adding a child changes the content of its parent only. */
  lemma NewKidContent(a: Arena, b: Arena, x: int, y: int, kind: Kind, name: string, text: string)
    requires a.Linked() && b.Linked() && a.Has(x) && NewKid(a, b, x, |a.kids[x]|, y, kind, name, text)
    ensures SameRange(a, b, 0, x) && SameRange(a, b, x + 1, |a.nodes|)
    ensures b.kids[x] == a.kids[x] + [y] && b.atrs[x] == a.atrs[x] && b.kids[y] == b.atrs[y] == []
    ensures y == |a.nodes| && |b.nodes| == y + 1 && b.nodes[y].kind == kind && b.nodes[y].text == text
    ensures b.nodes[x].kind == a.nodes[x].kind && b.nodes[x].name == a.nodes[x].name
  {
    hide Arena.Linked;
    assert InsertAt(a.kids[x], |a.kids[x]|, y) == a.kids[x] + [y];
  }

  lemma LevelOpens(a: Arena, b: Arena, x: int, f: Dom.Frame, y: int)
    requires a.Linked() && b.Linked() && |a.nodes| <= |b.nodes| && Level(a, x, f, [], |a.nodes|) && y == |a.nodes|
    requires SameRange(a, b, x + 1, |a.nodes|) && b.kids[x] == a.kids[x] + [y] && b.atrs[x] == a.atrs[x]
    requires b.nodes[x].kind == a.nodes[x].kind && b.nodes[x].name == a.nodes[x].name
    ensures Level(b, x, f, [y], y)
  {
    hide Arena.Linked, Attributes, Spread;
    TagAttributesKept(a, b, x);
    SpreadKept(a, b, a.kids[x][..|f.kids|], f.kids, x + 1, |a.nodes|);
    assert a.kids[x] == a.kids[x][..|f.kids|];
    assert b.kids[x][..|f.kids|] == a.kids[x];
  }

  lemma TagAttributesKept(a: Arena, b: Arena, x: int)
    requires a.Linked() && b.Linked() && a.Has(x) && b.Has(x) && b.atrs[x] == a.atrs[x]
    requires SameRange(a, b, x + 1, |a.nodes|) && (forall id :: id in a.atrs[x] ==> x <= id < |a.nodes|)
    requires a.nodes[x].kind == TagNode
    ensures Attributes(b, x) == Attributes(a, x)
  {
    assert a.Local(x) && b.Local(x);
    forall i | 0 <= i < |a.atrs[x]|
      ensures Attributes(b, x)[i] == Attributes(a, x)[i]
    {
      assert a.atrs[x][i] in a.atrs[x];
      assert a.nodes[a.atrs[x][i]].kind == AttributeNode;
      assert a.SameContent(b, a.atrs[x][i]);
    }
  }

  lemma LevelNew(b: Arena, y: int, name: string)
    requires b.Linked() && b.Has(y) && |b.nodes| == y + 1 && b.nodes[y].kind == TagNode && b.nodes[y].name == name
    requires b.kids[y] == b.atrs[y] == []
    ensures Level(b, y, Dom.Frame(name, [], []), [], y + 1)
  {
    hide Arena.Linked;
  }

  /** The root of the tree keeps having no parent and no siblings. */
  lemma RootStays(a: Arena, b: Arena, ids: seq<int>, x: int)
    requires a.Linked() && b.Linked() && ids != [] && a.IsRoot(ids[0]) && a.Has(x)
    requires exists y, kind, name, text :: NewKid(a, b, x, |a.kids[x]|, y, kind, name, text)
    ensures b.IsRoot(ids[0])
  {
    KidHome(a, x, ids[0]);
  }

  /** A text in the innermost open element. */
  lemma TextAdded(a: Arena, b: Arena, m0: nat, ids: seq<int>, open: seq<Dom.Frame>, y: int, text: string)
    requires a.Linked() && b.Linked() && Building(a, m0, ids, open) && ids != []
    requires CdataAdded(a, b, ids[|ids| - 1], y, text)
    ensures var f := Dom.Last(open);
      Building(b, m0, ids, Dom.Front(open) + [f.(kids := Dom.AddText(f.kids, text))])
  {
    hide Arena.Linked, Level, NewKid, Arena.SameContent;
    var x, f := ids[|ids| - 1], open[|ids| - 1];
    BuildingAscends(a, m0, ids, open, 0);
    BuildingAscends(a, m0, ids, open, |ids| - 1);
    assert Level(a, x, f, [], |a.nodes|);
    LastKid(a, x, f);
    var f' := f.(kids := Dom.AddText(f.kids, text));
    if f.kids != [] && Dom.Last(f.kids).Cdata? {
      LevelJoins(a, b, x, f, y, text);
      TextJoins(a, b, y, a.nodes[y].text + text, ids[0], x);
    } else {
      NewKidContent(a, b, x, y, CdataNode, "", text);
      LevelText(a, b, x, f, y, text);
      RootStays(a, b, ids, x);
      RangeLess(a, b, 0, m0, x);
    }
    InnermostChanged(a, b, m0, ids, open, f');
  }

  lemma RangeLess(a: Arena, b: Arena, lo: int, lo': int, hi: int)
    requires SameRange(a, b, lo, hi) && lo <= lo'
    ensures SameRange(a, b, lo', hi)
  {
  }

  /** The last child of an open element. */
  lemma LastKid(a: Arena, x: int, f: Dom.Frame)
    requires a.Linked() && Level(a, x, f, [], |a.nodes|)
    ensures |a.kids[x]| == |f.kids|
    ensures f.kids != [] ==> var k := a.kids[x][|f.kids| - 1];
      x < k < |a.nodes| && (a.nodes[k].kind == CdataNode <==> Dom.Last(f.kids).Cdata?)
        && (Dom.Last(f.kids).Cdata? ==> a.nodes[k].text == Dom.Last(f.kids).text)
  {
    hide Arena.Linked, Attributes, RepresentAll;
    assert a.kids[x][..|f.kids|] == a.kids[x];
    if f.kids != [] {
      SpreadAscends(a, a.kids[x], f.kids, x + 1, |a.nodes|, |f.kids| - 1);
    }
  }

  lemma TextJoins(a: Arena, b: Arena, y: int, text: string, root: int, x: int)
    requires a.Linked() && b.Linked() && a.Has(y) && x < y
    requires b == a.(nodes := a.nodes[y := a.nodes[y].(text := text)])
    ensures (a.IsRoot(root) ==> b.IsRoot(root)) && SameRange(a, b, 0, y) && SameRange(a, b, y + 1, |a.nodes|)
    ensures forall lo: nat :: SameRange(a, b, lo, x)
  {
    hide Arena.Linked;
  }

  lemma LevelText(a: Arena, b: Arena, x: int, f: Dom.Frame, y: int, text: string)
    requires a.Linked() && b.Linked() && Level(a, x, f, [], |a.nodes|) && y == |a.nodes| && |b.nodes| == y + 1
    requires SameRange(a, b, x + 1, |a.nodes|) && b.kids[x] == a.kids[x] + [y] && b.atrs[x] == a.atrs[x]
    requires b.nodes[x].kind == a.nodes[x].kind && b.nodes[x].name == a.nodes[x].name
    requires b.nodes[y].kind == CdataNode && b.nodes[y].text == text
    ensures Level(b, x, f.(kids := f.kids + [Cdata(text)]), [], |b.nodes|)
  {
    hide Arena.Linked, Attributes, Spread;
    TagAttributesKept(a, b, x);
    SpreadKept(a, b, a.kids[x][..|f.kids|], f.kids, x + 1, |a.nodes|);
    SpreadSnoc(b, a.kids[x][..|f.kids|], f.kids, x + 1, y, Cdata(text), |b.nodes|);
    assert a.kids[x] == a.kids[x][..|f.kids|];
    assert b.kids[x][..|f.kids| + 1] == b.kids[x];
  }

  /** The last child, a text, becomes longer. */
  lemma LevelJoins(a: Arena, b: Arena, x: int, f: Dom.Frame, y: int, text: string)
    requires a.Linked() && b.Linked() && Level(a, x, f, [], |a.nodes|) && f.kids != [] && Dom.Last(f.kids).Cdata?
    requires a.kids[x] != [] && y == a.kids[x][|a.kids[x]| - 1] && a.Has(y) && x < y
    requires b == a.(nodes := a.nodes[y := a.nodes[y].(text := a.nodes[y].text + text)])
    ensures Level(b, x, f.(kids := Dom.AddText(f.kids, text)), [], |b.nodes|)
  {
    hide Arena.Linked, Attributes, Spread;
    var n, ids := |f.kids| - 1, a.kids[x];
    assert ids[..|f.kids|] == ids;
    SpreadFront(a, ids, f.kids, x + 1, |a.nodes|);
    TextJoins(a, b, y, a.nodes[y].text + text, x, x);
    SpreadKept(a, b, ids[..n], f.kids[..n], x + 1, y);
    LastText(a, b, ids, f.kids, x, text);
    SpreadSnoc(b, ids[..n], f.kids[..n], x + 1, y, Cdata(f.kids[n].text + text), |b.nodes|);
    assert ids[..n] + [y] == ids;
    JoinKeepsAttributes(a, b, x, y);
  }

  lemma SpreadFront(a: Arena, ids: seq<int>, ts: seq<Tree>, lo: int, hi: int)
    requires a.Linked() && Spread(a, ids, ts, lo, hi) && ids != []
    ensures Spread(a, ids[..|ids| - 1], ts[..|ids| - 1], lo, ids[|ids| - 1])
    ensures Represents(a, ids[|ids| - 1], ts[|ids| - 1], ids[|ids| - 1], hi)
  {
    hide Arena.Linked, Represents;
    var n := |ids| - 1;
    SpreadAscends(a, ids, ts, lo, hi, n);
    assert Represents(a, ids[n], ts[n], ids[n], Bound(ids, n, hi));
    RepresentsInside(a, ids[n], ts[n], ids[n], hi);
    if n > 0 {
      SpreadBelow(a, ids, ts, lo, hi, n - 1);
    }
    forall i | 0 <= i < n
      ensures Represents(a, ids[..n][i], ts[..n][i], ids[..n][i], Bound(ids[..n], i, ids[n]))
    {
      assert Bound(ids[..n], i, ids[n]) == Bound(ids, i, hi);
    }
  }

  lemma LastText(a: Arena, b: Arena, ids: seq<int>, ts: seq<Tree>, x: int, text: string)
    requires a.Linked() && b.Linked() && ids != [] && |ts| == |ids| && Dom.Last(ts).Cdata? && a.Has(Dom.Last(ids))
    requires Represents(a, Dom.Last(ids), Dom.Last(ts), Dom.Last(ids), |a.nodes|)
    requires b == a.(nodes := a.nodes[Dom.Last(ids) := a.nodes[Dom.Last(ids)].(text := a.nodes[Dom.Last(ids)].text + text)])
    ensures Represents(b, Dom.Last(ids), Cdata(Dom.Last(ts).text + text), Dom.Last(ids), |b.nodes|)
  {
    hide Arena.Linked;
  }

  lemma JoinKeepsAttributes(a: Arena, b: Arena, x: int, y: int)
    requires a.Linked() && b.Linked() && a.Has(x) && a.Has(y) && y in a.kids[x]
    requires b.atrs == a.atrs && |b.nodes| == |a.nodes|
    requires forall i :: 0 <= i < |a.nodes| && i != y ==> b.nodes[i] == a.nodes[i]
    ensures Attributes(b, x) == Attributes(a, x)
  {
    hide Chain;
    KidsApart(a, x, x);
    assert a.Local(x) && b.Local(x);
    forall i | 0 <= i < |a.atrs[x]|
      ensures Attributes(b, x)[i] == Attributes(a, x)[i]
    {
      assert a.atrs[x][i] in a.atrs[x];
    }
  }

  /** An attribute of the innermost open element, which has no children yet. */
  lemma AttributeAdded(a: Arena, b: Arena, m0: nat, ids: seq<int>, open: seq<Dom.Frame>, y: int, name: string, value: string)
    requires a.Linked() && b.Linked() && Building(a, m0, ids, open) && ids != [] && Dom.Last(open).kids == []
    requires AttribSet(a, b, ids[|ids| - 1], y, name, Some(value))
    ensures var f := Dom.Last(open);
      Building(b, m0, ids, Dom.Front(open) + [f.(atts := Dom.SetAttr(f.atts, name, value))]) && Untouched(a, b, m0)
  {
    hide Arena.Linked, Level, Arena.SameContent, AttribSet, Attributes, Dom.SetAttr;
    var x, f := ids[|ids| - 1], open[|ids| - 1];
    BuildingAscends(a, m0, ids, open, |ids| - 1);
    OuterBelow(a, m0, ids, open, 0);
    assert Level(a, x, f, [], |a.nodes|);
    LevelAttributes(a, x, f, [], |a.nodes|);
    LevelSets(a, b, x, f, y, name, value);
    AttribSetElsewhere(a, b, m0, x, y, name, value, ids[0]);
    InnermostChanged(a, b, m0, ids, open, f.(atts := Dom.SetAttr(f.atts, name, value)));
  }

  lemma LevelSets(a: Arena, b: Arena, x: int, f: Dom.Frame, y: int, name: string, value: string)
    requires a.Linked() && b.Linked() && Level(a, x, f, [], |a.nodes|) && f.kids == []
    requires AttribSet(a, b, x, y, name, Some(value))
    ensures Level(b, x, f.(atts := Dom.SetAttr(f.atts, name, value)), [], |b.nodes|)
  {
    hide Arena.Linked, Attributes, FindName, Dom.SetAttr;
    AttribSetMeans(a, b, x, y, name, Some(value));
    assert a.kids[x][..0] == [] && b.kids[x][..0] == [];
  }

  lemma AttribSetElsewhere(a: Arena, b: Arena, m0: nat, x: int, y: int, name: string, value: string, root: int)
    requires a.Linked() && b.Linked() && a.Has(x) && AttribSet(a, b, x, y, name, Some(value)) && a.IsRoot(root)
    requires m0 <= root <= x && (forall id :: id in a.atrs[x] ==> x <= id < |a.nodes|)
    ensures |a.nodes| <= |b.nodes| && b.IsRoot(root) && SameRange(a, b, m0, x) && Untouched(a, b, m0)
  {
    hide Arena.Linked, Attributes, FindName;
    AttributesApart(a, x, root);
    var k := FindName(Attributes(a, x), name);
    assert k < |a.atrs[x]| ==> a.atrs[x][k] in a.atrs[x];
  }

  lemma AttributesApart(a: Arena, x: int, root: int)
    requires a.Linked() && a.Has(x) && a.IsRoot(root)
    ensures root !in a.atrs[x]
  {
    KidHome(a, x, root);
  }

  lemma LevelAttributes(a: Arena, x: int, f: Dom.Frame, inner: seq<int>, hi: int)
    requires a.Linked() && Level(a, x, f, inner, hi)
    ensures forall id :: id in a.atrs[x] ==> x <= id < hi
  {
  }

  /** The innermost open element is finished: it stands for its tree. */
  lemma ElementFinished(a: Arena, x: int, f: Dom.Frame)
    requires a.Linked() && Level(a, x, f, [], |a.nodes|)
    ensures Represents(a, x, Dom.Closed(f), x, |a.nodes|)
  {
    hide Arena.Linked, Attributes, Spread;
    assert a.kids[x][..|f.kids|] == a.kids[x];
    SpreadAll(a, a.kids[x], f.kids, x + 1, |a.nodes|, x);
  }

  /** It becomes the last child of the element around it. */
  lemma ElementClosed(a: Arena, m0: nat, ids: seq<int>, open: seq<Dom.Frame>)
    requires a.Linked() && Building(a, m0, ids, open) && |ids| >= 2
    ensures var outer, f := Dom.Front(open), Dom.Last(open);
      Building(a, m0, Dom.Front(ids), Dom.Front(outer) + [Dom.AddKid(Dom.Last(outer), Dom.Closed(f))])
    ensures a.Has(Dom.Last(ids)) && a.nodes[Dom.Last(ids)].parent == Dom.Last(Dom.Front(ids))
    ensures a.nodes[Dom.Last(ids)].name == Dom.Last(open).name
  {
    hide Arena.Linked, Level, Arena.SameContent;
    var n := |ids|;
    var p, x, g, f := ids[n - 2], ids[n - 1], open[n - 2], open[n - 1];
    assert Level(a, x, f, [], |a.nodes|) && Level(a, p, g, [x], x);
    ElementFinished(a, x, f);
    LevelCloses(a, p, g, x, Dom.Closed(f));
    var ids', open' := Dom.Front(ids), Dom.Front(Dom.Front(open)) + [Dom.AddKid(g, Dom.Closed(f))];
    forall i | 0 <= i < |ids'|
      ensures Level(a, ids'[i], open'[i], Inner(ids', i), Bound(ids', i, |a.nodes|))
    {
      assert Level(a, ids[i], open[i], Inner(ids, i), Bound(ids, i, |a.nodes|));
      if i < n - 2 {
        assert Inner(ids', i) == Inner(ids, i);
      }
    }
  }

  lemma LevelCloses(a: Arena, p: int, g: Dom.Frame, x: int, t: Tree)
    requires a.Linked() && Level(a, p, g, [x], x) && t.Element? && Represents(a, x, t, x, |a.nodes|)
    ensures Level(a, p, Dom.AddKid(g, t), [], |a.nodes|)
    ensures a.nodes[x].parent == p && a.nodes[x].name == t.name
  {
    hide Arena.Linked, Attributes, Spread, RepresentAll;
    var n, ids := |g.kids|, a.kids[p];
    SpreadSnoc(a, ids[..n], g.kids, p + 1, x, t, |a.nodes|);
    assert ids == ids[..n] + ids[n..];
    assert ids[..n + 1] == ids;
    KidHome(a, p, x);
  }

  // ----- building in a document

  /** The innermost open element, or NULL. */
  function Current(ids: seq<int>): int {
    if ids == [] then NULL else ids[|ids| - 1]
  }

  lemma KidsBehind(a: Arena, x: int, f: Dom.Frame)
    requires a.Linked() && Level(a, x, f, [], |a.nodes|)
    ensures forall id :: id in a.kids[x] ==> id > x
  {
    hide Arena.Linked, Represents;
    var ids := a.kids[x];
    assert ids[..|f.kids|] == ids;
    forall id | id in ids
      ensures id > x
    {
      var i :| 0 <= i < |ids| && ids[i] == id;
      SpreadStart(a, ids, f.kids, x + 1, |a.nodes|, i);
    }
  }

  lemma {:induction false} SpreadStart(a: Arena, ids: seq<int>, ts: seq<Tree>, lo: int, hi: int, i: nat)
    requires a.Linked() && Spread(a, ids, ts, lo, hi) && i < |ids|
    ensures lo <= ids[i]
  {
    hide Arena.Linked, Spread;
    SpreadAscends(a, ids, ts, lo, hi, i);
  }

  /** What Insert and InsertCdata leave alone. */
  lemma KidUntouched(a: Arena, b: Arena, m0: nat, ids: seq<int>, open: seq<Dom.Frame>, y: int, kind: Kind, name: string, text: string)
    requires a.Linked() && b.Linked() && Building(a, m0, ids, open) && ids != []
    requires NewKid(a, b, ids[|ids| - 1], |a.kids[ids[|ids| - 1]]|, y, kind, name, text)
    ensures Untouched(a, b, m0)
  {
    hide Arena.Linked, Level;
    BuildingAscends(a, m0, ids, open, |ids| - 1);
    OuterBelow(a, m0, ids, open, 0);
    assert Level(a, ids[|ids| - 1], open[|ids| - 1], [], |a.nodes|);
    KidsBehind(a, ids[|ids| - 1], open[|ids| - 1]);
  }

  lemma TextUntouched(a: Arena, b: Arena, m0: nat, ids: seq<int>, open: seq<Dom.Frame>, y: int, text: string)
    requires a.Linked() && b.Linked() && Building(a, m0, ids, open) && ids != []
    requires CdataAdded(a, b, ids[|ids| - 1], y, text)
    ensures Untouched(a, b, m0)
  {
    hide Arena.Linked, Level, NewKid;
    var x, f := ids[|ids| - 1], open[|ids| - 1];
    BuildingAscends(a, m0, ids, open, |ids| - 1);
    OuterBelow(a, m0, ids, open, 0);
    assert Level(a, x, f, [], |a.nodes|);
    LastKid(a, x, f);
    if !(f.kids != [] && Dom.Last(f.kids).Cdata?) {
      KidUntouched(a, b, m0, ids, open, y, CdataNode, "", text);
    }
  }

  /** The open elements x of which there is none yet. */
  lemma RootOpened(a: Arena, b: Arena, m0: nat, name: string)
    requires a.Linked() && b.Linked() && m0 <= |a.nodes| && b == Allocated(a, NewNode(TagNode, name, ""))
    ensures Building(b, m0, [|a.nodes|], [Dom.Frame(name, [], [])]) && Untouched(a, b, m0)
  {
    hide Arena.Linked, Level;
    LevelNew(b, |a.nodes|, name);
  }

  lemma InnermostTag(a: Arena, m0: nat, ids: seq<int>, open: seq<Dom.Frame>)
    requires a.Linked() && Building(a, m0, ids, open) && ids != []
    ensures a.IsTag(Current(ids)) && Current(ids) >= m0 && a.nodes[Current(ids)].name == Dom.Last(open).name
  {
    hide Arena.Linked, Spread;
    BuildingAscends(a, m0, ids, open, |ids| - 1);
    OuterBelow(a, m0, ids, open, 0);
    assert Level(a, ids[|ids| - 1], open[|ids| - 1], [], |a.nodes|);
  }

  /** A new element in the current one, or a first one. */
  method OpenElement(d: Doc, cur: int, name: string, ghost m0: nat, ghost ids: seq<int>, ghost open: seq<Dom.Frame>)
    returns (x: int)
    requires d.Valid() && Building(d.Value(), m0, ids, open) && cur == Current(ids) && m0 <= |d.nodes|
    modifies d
    ensures d.Valid() && Building(d.Value(), m0, ids + [x], open + [Dom.Frame(name, [], [])])
    ensures Untouched(old(d.Value()), d.Value(), m0)
  {
    hide Arena.Linked, Building, NewKid, Untouched;
    ghost var a := d.Value();
    if cur != NULL {
      InnermostTag(a, m0, ids, open);
      x := d.Insert(cur, name);
      NewKidIs(a, d.Value(), cur, x, name);
      ElementOpened(a, d.Value(), m0, ids, open, name);
      KidUntouched(a, d.Value(), m0, ids, open, x, TagNode, name, "");
    } else {
      CurrentNone(a, m0, ids, open);
      x := d.NewWithin(name);
      RootOpened(a, d.Value(), m0, name);
      assert ids + [x] == [x] && open + [Dom.Frame(name, [], [])] == [Dom.Frame(name, [], [])];
    }
  }

  lemma NewKidIs(a: Arena, b: Arena, x: int, y: int, name: string)
    requires a.Sized() && a.Has(x) && NewKid(a, b, x, |a.kids[x]|, y, TagNode, name, "")
    ensures y == |a.nodes|
  {
  }

  lemma CurrentNone(a: Arena, m0: nat, ids: seq<int>, open: seq<Dom.Frame>)
    requires a.Linked() && Building(a, m0, ids, open) && Current(ids) == NULL
    ensures ids == [] && open == []
  {
    hide Arena.Linked, Level;
    if ids != [] {
      BuildingAscends(a, m0, ids, open, |ids| - 1);
    }
  }

  /** An attribute of the element just opened. */
  method SetAttribute(d: Doc, x: int, name: string, value: string, ghost m0: nat, ghost ids: seq<int>, ghost open: seq<Dom.Frame>)
    requires d.Valid() && Building(d.Value(), m0, ids, open) && ids != [] && x == Current(ids) && Dom.Last(open).kids == []
    modifies d
    ensures d.Valid()
    ensures var f := Dom.Last(open);
      Building(d.Value(), m0, ids, Dom.Front(open) + [f.(atts := Dom.SetAttr(f.atts, name, value))])
    ensures Untouched(old(d.Value()), d.Value(), m0)
  {
    hide Arena.Linked, Building, AttribSet, Untouched, Dom.SetAttr;
    ghost var a := d.Value();
    InnermostTag(a, m0, ids, open);
    var y := d.InsertAttrib(x, name, Some(value));
    AttributeAdded(a, d.Value(), m0, ids, open, y, name, value);
  }

  /** Character data in the current element. */
  method AddCdata(d: Doc, cur: int, text: string, ghost m0: nat, ghost ids: seq<int>, ghost open: seq<Dom.Frame>)
    requires d.Valid() && Building(d.Value(), m0, ids, open) && ids != [] && cur == Current(ids)
    modifies d
    ensures d.Valid()
    ensures var f := Dom.Last(open);
      Building(d.Value(), m0, ids, Dom.Front(open) + [f.(kids := Dom.AddText(f.kids, text))])
    ensures Untouched(old(d.Value()), d.Value(), m0)
  {
    hide Arena.Linked, Building, CdataAdded, Untouched;
    ghost var a := d.Value();
    InnermostTag(a, m0, ids, open);
    var y := d.InsertCdata(cur, text);
    TextAdded(a, d.Value(), m0, ids, open, y, text);
    TextUntouched(a, d.Value(), m0, ids, open, y, text);
  }
}

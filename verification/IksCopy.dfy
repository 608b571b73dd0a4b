/** iks_copy_within, over the walk of IksWalk; what it builds is followed event by event with Dom. */
module IksCopy {
  import opened Xml
  import opened Iks
  import opened IksWalk
  import opened IksBuild
  import Dom
  import IksString

  // ----- what a copy is

  /** The same tree with adjacent texts joined; unlike a parsed tree it keeps empty texts. */
  function Copied(t: Tree): Tree
    decreases t, 1
  {
    match t
    case Cdata(_) => t
    case Element(name, atts, kids) => Element(name, atts, CopyOnto([], kids))
  }

  function CopyOnto(acc: seq<Tree>, kids: seq<Tree>): seq<Tree>
    decreases kids, 0
  {
    if kids == [] then acc
    else
      var t := kids[0];
      CopyOnto(if t.Cdata? then Dom.AddText(acc, t.text) else acc + [Copied(t)], kids[1..])
  }

  lemma {:induction false} PrintAllConcat(x: seq<Tree>, y: seq<Tree>)
    ensures PrintAll(x + y) == PrintAll(x) + PrintAll(y)
  {
    hide Print;
    if x == [] {
      assert x + y == y;
    } else {
      assert (x + y)[1..] == x[1..] + y;
      PrintAllConcat(x[1..], y);
    }
  }

  lemma PrintAllOne(t: Tree)
    ensures PrintAll([t]) == Print(t)
  {
    hide Print;
    assert [t][1..] == [];
    assert Print(t) + "" == Print(t);
  }

  lemma PrintAddText(acc: seq<Tree>, text: string)
    ensures PrintAll(Dom.AddText(acc, text)) == PrintAll(acc) + Escape(text)
  {
    hide PrintAll, Escape;
    var n := |acc|;
    PrintAllOne(Cdata(text));
    if n > 0 && acc[n - 1].Cdata? {
      var last := acc[n - 1].text;
      PrintAllOne(Cdata(last + text));
      PrintAllOne(acc[n - 1]);
      PrintAllConcat(acc[..n - 1], [Cdata(last + text)]);
      PrintAllConcat(acc[..n - 1], [acc[n - 1]]);
      assert acc == acc[..n - 1] + [acc[n - 1]];
      IksString.EscapeConcat(last, text);
    } else {
      PrintAllConcat(acc, [Cdata(text)]);
    }
  }

  /** A copy prints to the same string as the original. */
  lemma {:induction false} CopyPrintsSame(t: Tree)
    ensures Print(Copied(t)) == Print(t)
    decreases t, 1
  {
    hide PrintAll, Escape;
    match t
    case Cdata(_) =>
    case Element(name, atts, kids) =>
      CopyAllPrintsSame([], kids);
      CopyLength([], kids);
      assert PrintAll([]) == "" by { PrintAllEmpty(); }
      assert "" + PrintAll(kids) == PrintAll(kids);
  }

  lemma PrintAllEmpty()
    ensures PrintAll([]) == ""
  {
  }

  lemma {:induction false} CopyLength(acc: seq<Tree>, kids: seq<Tree>)
    ensures CopyOnto(acc, kids) == [] <==> acc == [] && kids == []
    decreases |kids|
  {
    hide Copied;
    if kids != [] {
      var t := kids[0];
      CopyLength(if t.Cdata? then Dom.AddText(acc, t.text) else acc + [Copied(t)], kids[1..]);
    }
  }

  lemma {:induction false} CopyAllPrintsSame(acc: seq<Tree>, kids: seq<Tree>)
    ensures PrintAll(CopyOnto(acc, kids)) == PrintAll(acc) + PrintAll(kids)
    decreases kids, 0
  {
    hide Print, Escape;
    if kids == [] {
      assert PrintAll(acc) + "" == PrintAll(acc);
    } else {
      var t := kids[0];
      if t.Cdata? {
        PrintAddText(acc, t.text);
        CopyAllPrintsSame(Dom.AddText(acc, t.text), kids[1..]);
        PrintText(t);
      } else {
        CopyPrintsSame(t);
        PrintAllConcat(acc, [Copied(t)]);
        PrintAllOne(Copied(t));
        CopyAllPrintsSame(acc + [Copied(t)], kids[1..]);
      }
    }
  }

  lemma PrintText(t: Tree)
    requires t.Cdata?
    ensures Print(t) == Escape(t.text)
  {
  }

  // ----- the events of a tree build its copy

  function Receive(d: Dom.State, t: Tree): Dom.State {
    if t.Element? then Dom.Deliver(d, Copied(t)) else Dom.AppendText(d, t.text)
  }

  lemma {:induction false} BuildCopy(d: Dom.State, t: Tree)
    requires Dom.DistinctNames(t)
    ensures Dom.Build(d, Events(t)) == Dom.Verdict(Receive(d, t), Ok)
    decreases t, 1
  {
    match t
    case Cdata(text) =>
      Dom.BuildOne(d, Text(text));
    case Element(name, atts, kids) =>
      Dom.SetAttrsDistinct([], atts);
      assert [] + atts == atts;
      if kids == [] {
        BuildSingle(d, name, atts);
      } else {
        BuildKids(Dom.OpenTag(d, name, atts), kids);
        BuildElement(d, name, atts, kids);
      }
  }

  lemma BuildSingle(d: Dom.State, name: string, atts: Attrs)
    requires Dom.SetAttrs([], atts) == atts
    ensures Dom.Build(d, Events(Element(name, atts, []))) == Dom.Verdict(Dom.Deliver(d, Element(name, atts, [])), Ok)
    ensures Copied(Element(name, atts, [])) == Element(name, atts, [])
  {
    hide Dom.Build, Dom.SetAttrs;
    Dom.BuildOne(d, Tag(name, atts, Single));
    Dom.ClosesOpened(d, name, atts, []);
  }

  lemma BuildElement(d: Dom.State, name: string, atts: Attrs, kids: seq<Tree>)
    requires Dom.SetAttrs([], atts) == atts && kids != []
    requires Dom.Build(Dom.OpenTag(d, name, atts), EventsAll(kids))
          == Dom.Verdict(Dom.WithKids(Dom.OpenTag(d, name, atts), CopyOnto([], kids)), Ok)
    ensures Dom.Build(d, Events(Element(name, atts, kids))) == Dom.Verdict(Dom.Deliver(d, Copied(Element(name, atts, kids))), Ok)
  {
    hide Dom.Build, Dom.SetAttrs, CopyOnto, EventsAll;
    var open, body, close := Tag(name, atts, Open), EventsAll(kids), Tag(name, [], Close);
    var d1, copied := Dom.OpenTag(d, name, atts), CopyOnto([], kids);
    Dom.BuildConcat(d, [open] + body, [close]);
    Dom.BuildConcat(d, [open], body);
    Dom.BuildOne(d, open);
    Dom.BuildOne(Dom.WithKids(d1, copied), close);
    Dom.ClosesOpened(d, name, atts, copied);
  }

  lemma {:induction false} BuildKids(d: Dom.State, kids: seq<Tree>)
    requires d.open != [] && forall k :: k in kids ==> Dom.DistinctNames(k)
    ensures Dom.Build(d, EventsAll(kids)) == Dom.Verdict(Dom.WithKids(d, CopyOnto(Dom.Last(d.open).kids, kids)), Ok)
    decreases kids, 0
  {
    if kids == [] {
      assert d == Dom.WithKids(d, Dom.Last(d.open).kids);
    } else {
      BuildCopy(d, kids[0]);
      var e := Receive(d, kids[0]);
      ReceiveAdds(d, kids[0]);
      Dom.BuildConcat(d, Events(kids[0]), EventsAll(kids[1..]));
      BuildKids(e, kids[1..]);
    }
  }

  lemma ReceiveAdds(d: Dom.State, t: Tree)
    requires d.open != []
    ensures var kids := Dom.Last(d.open).kids;
      Receive(d, t) == Dom.WithKids(d, if t.Cdata? then Dom.AddText(kids, t.text) else kids + [Copied(t)])
    ensures Dom.Front(Receive(d, t).open) == Dom.Front(d.open)
  {
    hide Copied;
  }

  /** Attribute names are unique in any well linked document. */
  lemma {:induction false} RepresentedDistinct(a: Arena, x: int, t: Tree, lo: int, hi: int)
    requires a.Linked() && Represents(a, x, t, lo, hi)
    ensures Dom.DistinctNames(t)
    decreases t
  {
    if t.Element? {
      assert a.Local(x);
      hide Chain;
      forall k | k in t.kids
        ensures Dom.DistinctNames(k)
      {
        var i :| 0 <= i < |t.kids| && t.kids[i] == k;
        RepresentedDistinct(a, a.kids[x][i], k, lo, hi);
      }
    }
  }

  // ----- the copying loop

  lemma BuildCons(d: Dom.State, e: Event, es: seq<Event>)
    requires Dom.Build(d, [e] + es).error == Ok
    ensures Dom.Hook(d, e).error == Ok && Dom.Build(Dom.Hook(d, e).d, es) == Dom.Build(d, [e] + es)
  {
    hide Dom.Hook;
    assert ([e] + es)[1..] == es;
  }

  /** The nodes a0 that were there at the start are still the same. */
  ghost predicate Source(d: Doc, a0: Arena)
    reads d
  {
    |a0.nodes| <= |d.nodes| && forall i :: 0 <= i < |a0.nodes| ==> d.nodes[i] == a0.nodes[i]
  }

  /** What has been built so far, and that the events to come will make `final` of it. */
  ghost predicate Copying(a: Arena, m0: nat, ids: seq<int>, ds: Dom.State, c: Cursor, final: Dom.State)
    requires a.Linked()
  {
    && Building(a, m0, ids, ds.open) && |ids| == |c.path| && m0 <= |a.nodes|
    && Dom.Build(ds, Todo(c)) == Dom.Verdict(final, Ok)
  }

  /** The loop over the attributes: sets those of x in the new element cur. */
  method CopyAttribs(src: Doc, x: int, s: Doc, cur: int, ghost a0: Arena, ghost m0: nat, ghost ids: seq<int>, ghost open: seq<Dom.Frame>)
    requires a0.Linked() && a0.IsTag(x) && Source(src, a0) && (src == s ==> m0 == |a0.nodes|)
    requires s.Valid() && Building(s.Value(), m0, ids, open) && ids != [] && open != [] && cur == Current(ids)
    requires Dom.Last(open) == Dom.Frame(a0.nodes[x].name, [], [])
    modifies s
    ensures s.Valid() && Source(src, a0) && |old(s.nodes)| <= |s.nodes|
    ensures Building(s.Value(), m0, ids,
                     Dom.Front(open) + [Dom.Frame(a0.nodes[x].name, Dom.SetAttrs([], Attributes(a0, x)), [])])
  {
    hide Arena.Linked, Building, Dom.SetAttrs, Attributes, Dom.SetAttr;
    ghost var list, k, frames := Attributes(a0, x), 0, open;
    LastOfChain(a0, x);
    var y := src.nodes[x].attribs;
    assert list[0..] == list && open == Dom.Front(open) + [Dom.Last(open)];
    while y != NULL
      invariant k <= |list| && y == At(a0.atrs[x], k) && |frames| == |open| && Dom.Front(frames) == Dom.Front(open)
      invariant s.Valid() && Source(src, a0) && |old(s.nodes)| <= |s.nodes| && Building(s.Value(), m0, ids, frames)
      invariant Dom.Last(frames) == Dom.Frame(a0.nodes[x].name, Dom.Last(frames).atts, [])
      invariant Dom.SetAttrs(Dom.Last(frames).atts, list[k..]) == Dom.SetAttrs([], list)
      decreases |list| - k
    {
      AtrLinks(a0, x, k);
      SetAttrsFrom(Dom.Last(frames).atts, list, k);
      SetAttribute(s, cur, src.nodes[y].name, src.nodes[y].text, m0, ids, frames);
      ghost var f := Dom.Last(frames);
      frames := Dom.Front(frames) + [f.(atts := Dom.SetAttr(f.atts, list[k].0, list[k].1))];
      y := src.nodes[y].next;
      k := k + 1;
    }
    AttribsDone(a0, x, k, Dom.Last(frames).atts);
    assert frames == Dom.Front(frames) + [Dom.Last(frames)];
  }

  lemma SetAttrsFrom(acc: Attrs, list: Attrs, k: nat)
    requires k < |list|
    ensures Dom.SetAttrs(acc, list[k..]) == Dom.SetAttrs(Dom.SetAttr(acc, list[k].0, list[k].1), list[k + 1..])
  {
    hide Dom.SetAttr;
    assert list[k..][0] == list[k] && list[k..][1..] == list[k + 1..];
  }

  lemma AttribsDone(a: Arena, x: int, k: nat, acc: Attrs)
    requires a.Linked() && a.Has(x) && k <= |a.atrs[x]| && At(a.atrs[x], k) == NULL
    ensures Dom.SetAttrs(acc, Attributes(a, x)[k..]) == acc
  {
    if k < |a.atrs[x]| {
      AtrLinks(a, x, k);
    }
  }

  /** A tag and its attributes. */
  method CopyTag(src: Doc, x: int, s: Doc, cur0: int, ghost a0: Arena, ghost m0: nat, ghost ids: seq<int>, ghost ds: Dom.State)
    returns (cur: int)
    requires a0.Linked() && a0.IsTag(x) && Source(src, a0) && (src == s ==> m0 == |a0.nodes|)
    requires s.Valid() && Building(s.Value(), m0, ids, ds.open) && cur0 == Current(ids) && m0 <= |s.nodes|
    modifies s
    ensures s.Valid() && Source(src, a0) && m0 <= |s.nodes|
    ensures Building(s.Value(), m0, ids + [cur], Dom.OpenTag(ds, a0.nodes[x].name, Attributes(a0, x)).open)
  {
    hide Arena.Linked, Building, Dom.SetAttrs, Attributes;
    cur := OpenElement(s, cur0, src.nodes[x].name, m0, ids, ds.open);
    ghost var open := ds.open + [Dom.Frame(a0.nodes[x].name, [], [])];
    CopyAttribs(src, x, s, cur, a0, m0, ids + [cur], open);
    assert Dom.Front(open) == ds.open;
  }

  /** The innermost element ends. */
  lemma CloseState(a: Arena, m0: nat, ids: seq<int>, ds: Dom.State)
    requires a.Linked() && Building(a, m0, ids, ds.open) && ids != []
    ensures ds.open != [] && a.Has(Current(ids)) && a.nodes[Current(ids)].parent == Current(Dom.Front(ids))
    ensures |ids| >= 2 ==> Building(a, m0, Dom.Front(ids), Dom.CloseTag(ds).open)
    ensures |ids| == 1 ==> Dom.CloseTag(ds).open == [] && Building(a, m0, [], [])
    ensures |ids| == 1 ==> Dom.CloseTag(ds).tree.Some? && a.IsRoot(ids[0])
    ensures |ids| == 1 ==> Represents(a, ids[0], Dom.CloseTag(ds).tree.value, m0, |a.nodes|)
  {
    hide Arena.Linked, Represents, Level;
    if |ids| >= 2 {
      ElementClosed(a, m0, ids, ds.open);
    } else {
      BuildingAscends(a, m0, ids, ds.open, 0);
      assert Level(a, ids[0], ds.open[0], Inner(ids, 0), Bound(ids, 0, |a.nodes|));
      ElementFinished(a, ids[0], ds.open[0]);
      RepresentsWiden(a, ids[0], Dom.Closed(ds.open[0]), ids[0], |a.nodes|, m0, |a.nodes|);
    }
  }

  /** What a finished copy is. */
  ghost predicate CopyDone(a: Arena, m0: nat, copy: int, t: Tree)
    requires a.Linked()
  {
    a.IsRoot(copy) && Represents(a, copy, Copied(t), m0, |a.nodes|)
  }

  lemma CopyStarts(a0: Arena, b: Arena, x: int, t: Tree, m0: nat)
    requires a0.Linked() && b.Linked() && Represents(a0, x, t, 0, |a0.nodes|) && t.Element? && m0 <= |b.nodes|
    ensures Copying(b, m0, [], Dom.EMPTY, Start(x, t), Dom.State([], Some(Copied(t))))
  {
    hide Arena.Linked, Represents, Level, Copied, Dom.Build, Events;
    RepresentedDistinct(a0, x, t, 0, |a0.nodes|);
    BuildCopy(Dom.EMPTY, t);
    assert Events(t) + [] == Events(t);
  }

  /** The walk goes down into an element that has just been opened. */
  lemma CopyDown(a0: Arena, b: Arena, b': Arena, m0: nat, ids: seq<int>, ds: Dom.State, c: Cursor, final: Dom.State, y: int)
    requires a0.Linked() && b.Linked() && b'.Linked() && a0.Has(c.x) && Standing(a0, c) && !c.up
    requires c.t.Element? && c.t.kids != []
    requires Copying(b, m0, ids, ds, c, final) && m0 <= |b'.nodes|
    requires Building(b', m0, ids + [y], Dom.OpenTag(ds, c.t.name, c.t.atts).open)
    ensures Copying(b', m0, ids + [y], Dom.OpenTag(ds, c.t.name, c.t.atts), Down(c, a0.nodes[c.x].children), final)
  {
    hide Arena.Linked, Represents, Building, Dom.Build, Standing, Todo, Dom.SetAttrs, Measure;
    GoDown(a0, c);
    BuildCons(ds, Tag(c.t.name, c.t.atts, Open), Todo(Down(c, a0.nodes[c.x].children)));
  }

  /** An element without children that has just been opened is closed again. */
  lemma CopySingle(a0: Arena, b: Arena, b': Arena, m0: nat, ids: seq<int>, ds: Dom.State, c: Cursor, final: Dom.State, y: int)
    requires a0.Linked() && b.Linked() && b'.Linked() && Standing(a0, c) && !c.up && c.t.Element? && c.t.kids == []
    requires Copying(b, m0, ids, ds, c, final) && m0 <= |b'.nodes|
    requires Building(b', m0, ids + [y], Dom.OpenTag(ds, c.t.name, c.t.atts).open)
    ensures Dom.OpenTag(ds, c.t.name, c.t.atts).open != []
    ensures Copying(b', m0, ids, Dom.CloseTag(Dom.OpenTag(ds, c.t.name, c.t.atts)), Finish(c), final)
    ensures b'.Has(y) && b'.nodes[y].parent == Current(ids)
    ensures ids == [] ==> b'.IsRoot(y) && final.tree.Some? && Represents(b', y, final.tree.value, m0, |b'.nodes|)
  {
    hide Arena.Linked, Represents, Building, Standing, Todo, Dom.SetAttrs, Measure, Dom.OpenTag, Dom.CloseTag, Dom.Build;
    FinishLeaf(a0, c);
    var e := Dom.OpenTag(ds, c.t.name, c.t.atts);
    BuildCons(ds, Tag(c.t.name, c.t.atts, Single), Todo(Finish(c)));
    CloseState(b', m0, ids + [y], e);
    assert Dom.Front(ids + [y]) == ids;
    if ids == [] {
      NothingTodo(Dom.CloseTag(e), Finish(c), final);
    }
  }

  lemma NothingTodo(ds: Dom.State, c: Cursor, final: Dom.State)
    requires Dom.Build(ds, Todo(c)) == Dom.Verdict(final, Ok) && c.up && c.path == []
    ensures ds == final
  {
  }

  /** A text has just been added. */
  lemma CopyText(a0: Arena, b: Arena, b': Arena, m0: nat, ids: seq<int>, ds: Dom.State, c: Cursor, final: Dom.State)
    requires a0.Linked() && b.Linked() && b'.Linked() && Standing(a0, c) && !c.up && c.t.Cdata? && ids != []
    requires Copying(b, m0, ids, ds, c, final) && m0 <= |b'.nodes|
    requires Building(b', m0, ids, Dom.AppendText(ds, c.t.text).open)
    ensures Copying(b', m0, ids, Dom.AppendText(ds, c.t.text), Finish(c), final)
  {
    hide Arena.Linked, Represents, Building, Standing, Todo, Measure, Dom.Build, Dom.AppendText;
    FinishLeaf(a0, c);
    BuildCons(ds, Text(c.t.text), Todo(Finish(c)));
  }

  /** The walk goes back to the parent: the innermost element is closed. */
  lemma CopyBack(a0: Arena, b: Arena, m0: nat, ids: seq<int>, ds: Dom.State, c: Cursor, final: Dom.State)
    requires a0.Linked() && b.Linked() && Standing(a0, c) && c.up && c.path != [] && a0.nodes[c.x].next == NULL
    requires Copying(b, m0, ids, ds, c, final)
    ensures ids != [] && b.Has(Current(ids)) && b.nodes[Current(ids)].parent == Current(Dom.Front(ids)) && ds.open != []
    ensures Copying(b, m0, Dom.Front(ids), Dom.CloseTag(ds), Back(c), final)
    ensures |ids| == 1 ==>
      b.IsRoot(ids[0]) && final.tree.Some? && Represents(b, ids[0], final.tree.value, m0, |b.nodes|)
  {
    hide Arena.Linked, Represents, Building, Standing, Todo, Measure, Dom.CloseTag, Dom.Build;
    GoBack(a0, c);
    BuildCons(ds, Tag(Dom.Last(c.path).name, [], Close), Todo(Back(c)));
    CloseState(b, m0, ids, ds);
    if |ids| == 1 {
      NothingTodo(Dom.CloseTag(ds), Back(c), final);
    }
  }

  /** The current node is copied; a tag with children stays open. */
  method CopyNode(src: Doc, x: int, s: Doc, cur0: int, ghost a0: Arena, ghost m0: nat, ghost ids: seq<int>,
                  ghost ds: Dom.State, ghost c: Cursor, ghost final: Dom.State)
    returns (cur: int, y: int, ghost ids': seq<int>, ghost ds': Dom.State)
    requires a0.Linked() && a0.Has(x) && Standing(a0, c) && !c.up && x == c.x && (c.path == [] ==> c.t.Element?)
    requires Source(src, a0) && (src == s ==> m0 == |a0.nodes|)
    requires s.Valid() && m0 <= |s.nodes| && Copying(s.Value(), m0, ids, ds, c, final) && cur0 == Current(ids)
    modifies s
    ensures s.Valid() && Source(src, a0) && m0 <= |s.nodes| && cur == Current(ids')
    ensures a0.nodes[x].kind == TagNode <==> c.t.Element?
    ensures c.t.Element? ==> y != NULL && (a0.nodes[x].children == NULL <==> c.t.kids == [])
    ensures if c.t.Element? && c.t.kids != []
      then ids' == ids + [y] && Copying(s.Value(), m0, ids', ds', Down(c, a0.nodes[x].children), final)
      else ids' == ids && Copying(s.Value(), m0, ids', ds', Finish(c), final)
    ensures IsLeaf(c.t) && ids == [] ==>
      s.Value().IsRoot(y) && final.tree.Some? && Represents(s.Value(), y, final.tree.value, m0, |s.nodes|)
  {
    hide Arena.Linked, Represents, Building, Standing, Todo, Attributes, Dom.OpenTag, Dom.CloseTag, Dom.AppendText, Copying;
    CopyingParts(s.Value(), m0, ids, ds, c, final);
    CurrentNode(a0, c);
    ghost var b := s.Value();
    ids', y := ids, NULL;
    if src.nodes[x].kind == TagNode {
      y := CopyTag(src, x, s, cur0, a0, m0, ids, ds);
      cur := y;
      ds' := Dom.OpenTag(ds, c.t.name, c.t.atts);
      OpenedNotNull(s.Value(), m0, ids + [y], ds'.open);
      if src.nodes[x].children != NULL {
        CopyDown(a0, b, s.Value(), m0, ids, ds, c, final, y);
        ids' := ids + [y];
      } else {
        CopySingle(a0, b, s.Value(), m0, ids, ds, c, final, y);
        ds' := Dom.CloseTag(ds');
        cur := s.nodes[y].parent;
      }
    } else {
      cur := cur0;
      AddCdata(s, cur, src.nodes[x].text, m0, ids, ds.open);
      AppendedText(ds, c.t.text);
      CopyText(a0, b, s.Value(), m0, ids, ds, c, final);
      ds' := Dom.AppendText(ds, c.t.text);
    }
  }

  /** iks_copy_within from a tag: new nodes of the stack s, which may be the stack of the original,
      stand for the tree below x with its adjacent texts joined; no sibling of x is copied. */
  method CopyWithin(src: Doc, x0: int, s: Doc, ghost t: Tree) returns (copy: int)
    requires src.Valid() && s.Valid() && t.Element? && Represents(src.Value(), x0, t, 0, |src.nodes|)
    modifies s
    ensures s.Valid() && Source(src, old(src.Value())) && CopyDone(s.Value(), |old(s.nodes)|, copy, t)
  {
    hide Arena.Linked, Represents, Standing, Todo, Measure, Dom.CloseTag, Copying, Copied;
    ghost var a0, m0, final := src.Value(), |s.nodes|, Dom.State([], Some(Copied(t)));
    ghost var c, ids, ds := Start(x0, t), [], Dom.EMPTY;
    Starts(a0, x0, t);
    CopyStarts(a0, s.Value(), x0, t, m0);
    var level, dir, cur, x := 0, 0, NULL, x0;
    copy := NULL;
    while true
      invariant IksString.AtCursor(a0, c, x, level, dir) && (level == 0 ==> c == Start(x0, t))
      invariant s.Valid() && Source(src, a0) && m0 <= |s.nodes| && (src == s ==> m0 == |a0.nodes|)
      invariant Copying(s.Value(), m0, ids, ds, c, final) && |ids| == level && cur == Current(ids)
      invariant if level == 0 then copy == NULL else copy == ids[0] != NULL
      decreases Measure(c), dir
    {
      if dir == 0 {
        var y;
        cur, y, ids, ds := CopyNode(src, x, s, cur, a0, m0, ids, ds, c, final);
        if copy == NULL {
          copy := y;
        }
        if src.nodes[x].kind == TagNode && src.nodes[x].children != NULL {
          IksString.DownRender(a0, c);
          x := src.nodes[x].children;
          level := level + 1;
          c := Down(c, x);
          continue;
        }
        IksString.LeafRender(a0, c);
        c := Finish(c);
      }
      var y := src.nodes[x].next;
      if y != NULL {
        if level == 0 {
          break;
        }
        GoOver(a0, c);
        CopyingSame(s.Value(), m0, ids, ds, c, Over(c, y), final);
        c := Over(c, y);
        x := y;
        dir := 0;
      } else {
        if level > 0 {
          CopyBack(a0, s.Value(), m0, ids, ds, c, final);
          IksString.BackRender(a0, c);
        }
        if level < 2 {
          break;
        }
        ids, ds, c := Dom.Front(ids), Dom.CloseTag(ds), Back(c);
        level := level - 1;
        x := src.nodes[x].parent;
        cur := s.nodes[cur].parent;
        dir := 1;
      }
    }
  }

  lemma CopyingParts(b: Arena, m0: nat, ids: seq<int>, ds: Dom.State, c: Cursor, final: Dom.State)
    requires b.Linked() && Copying(b, m0, ids, ds, c, final)
    ensures Building(b, m0, ids, ds.open) && |ids| == |c.path| && (ids != [] ==> ds.open != [])
  {
  }

  lemma OpenedNotNull(b: Arena, m0: nat, ids: seq<int>, open: seq<Dom.Frame>)
    requires b.Linked() && Building(b, m0, ids, open) && ids != []
    ensures Current(ids) != NULL
  {
    hide Arena.Linked, Level;
    BuildingAscends(b, m0, ids, open, |ids| - 1);
  }

  lemma AppendedText(ds: Dom.State, text: string)
    requires ds.open != []
    ensures var f := Dom.Last(ds.open);
      Dom.AppendText(ds, text).open == Dom.Front(ds.open) + [f.(kids := Dom.AddText(f.kids, text))]
  {
  }

  lemma CopyingSame(b: Arena, m0: nat, ids: seq<int>, ds: Dom.State, c: Cursor, d: Cursor, final: Dom.State)
    requires b.Linked() && Copying(b, m0, ids, ds, c, final) && Todo(d) == Todo(c) && |d.path| == |c.path|
    ensures Copying(b, m0, ids, ds, d, final)
  {
    hide Arena.Linked, Building, Todo, Dom.Build;
  }
}

/** Which call histories the DOM hooks accept, and what the trees they build say about the history. */
module DomLaws {
  import opened Xml
  import opened Dom

  // ----- acceptance

  /** Every closing tag names the innermost open one; stack holds the names of the open tags. */
  predicate Nested(stack: seq<string>, es: seq<Event>)
    decreases |es|
  {
    if es == [] then true
    else
      match es[0]
      case Text(_) => Nested(stack, es[1..])
      case Tag(_, _, Single) => Nested(stack, es[1..])
      case Tag(name, _, Open) => Nested(stack + [name], es[1..])
      case Tag(name, _, Close) => stack != [] && Last(stack) == name && Nested(Front(stack), es[1..])
  }

  function Names(open: seq<Frame>): seq<string> {
    seq(|open|, i requires 0 <= i < |open| => open[i].name)
  }

  lemma HookNames(d: State, e: Event)
    ensures var v := Dom.Hook(d, e);
      match e
      case Text(_) => v.error == Ok && Names(v.d.open) == Names(d.open)
      case Tag(_, _, Single) => v.error == Ok && Names(v.d.open) == Names(d.open)
      case Tag(name, _, Open) => v.error == Ok && Names(v.d.open) == Names(d.open) + [name]
      case Tag(name, _, Close) =>
        && (v.error == Ok <==> d.open != [] && Last(Names(d.open)) == name)
        && (v.error == Ok ==> Names(v.d.open) == Front(Names(d.open)))
  {
  }

  /** The hooks accept a history exactly when every closing tag names the innermost open one. */
  lemma {:induction false} AcceptsIffNested(d: State, es: seq<Event>)
    ensures Build(d, es).error == Ok <==> Nested(Names(d.open), es)
    decreases |es|
  {
    hide Dom.Hook, Names;
    if es != [] {
      HookNames(d, es[0]);
      NamesLength(d.open);
      var v := Dom.Hook(d, es[0]);
      if v.error == Ok {
        AcceptsIffNested(v.d, es[1..]);
      }
    }
  }

  lemma NamesLength(open: seq<Frame>)
    ensures |Names(open)| == |open|
  {
  }

  // ----- the trees say the history

  /** A history up to what the hooks keep of it: texts cut into characters, dropped outside the root, a
      single tag opened and closed, closing tags without attributes. */
  function Normal(depth: nat, es: seq<Event>): seq<Event>
    decreases |es|
  {
    if es == [] then [] else NormalEvent(depth, es[0]) + Normal(DepthAfter(depth, es[0]), es[1..])
  }

  function NormalEvent(depth: nat, e: Event): seq<Event> {
    match e
    case Text(text) => if depth == 0 then [] else Chars(text)
    case Tag(_, _, Open) => [e]
    case Tag(name, atts, Single) => [Tag(name, atts, Open), Tag(name, [], Close)]
    case Tag(name, _, Close) => [Tag(name, [], Close)]
  }

  function DepthAfter(depth: nat, e: Event): nat {
    if e.Text? || e.kind == Single then depth
    else if e.kind == Open then depth + 1
    else if depth == 0 then 0 else depth - 1
  }

  function TreeNormal(t: Tree): seq<Event> {
    match t
    case Cdata(text) => Chars(text)
    case Element(name, atts, kids) => [Tag(name, atts, Open)] + AllNormal(kids) + [Tag(name, [], Close)]
  }

  function AllNormal(ts: seq<Tree>): seq<Event> {
    if ts == [] then [] else TreeNormal(ts[0]) + AllNormal(ts[1..])
  }

  /** The history behind the open elements. */
  function OpenNormal(open: seq<Frame>): seq<Event> {
    if open == [] then []
    else [Tag(open[0].name, open[0].atts, Open)] + AllNormal(open[0].kids) + OpenNormal(open[1..])
  }

  /** The roots finished while es is read, in order. */
  function Roots(d: State, es: seq<Event>): seq<Tree>
    decreases |es|
  {
    if es == [] then []
    else
      var v := Dom.Hook(d, es[0]);
      (if v.error == Ok then Finished(v.d, es[0]) else []) + Roots(v.d, es[1..])
  }

  function Finished(after: State, e: Event): seq<Tree> {
    if e.Tag? && e.kind != Open && after.open == [] && after.tree.Some? then [after.tree.value] else []
  }

  predicate DistinctEvents(es: seq<Event>) {
    forall e :: e in es && e.Tag? ==> Distinct(e.atts)
  }

  lemma {:induction false} AllNormalConcat(x: seq<Tree>, y: seq<Tree>)
    ensures AllNormal(x + y) == AllNormal(x) + AllNormal(y)
  {
    hide TreeNormal;
    if x == [] {
      assert x + y == y;
    } else {
      assert (x + y)[1..] == x[1..] + y;
      AllNormalConcat(x[1..], y);
    }
  }

  lemma AllNormalOne(t: Tree)
    ensures AllNormal([t]) == TreeNormal(t)
  {
    hide TreeNormal;
    assert [t][1..] == [];
    assert TreeNormal(t) + [] == TreeNormal(t);
  }

  lemma AddTextNormal(kids: seq<Tree>, text: string)
    ensures AllNormal(AddText(kids, text)) == AllNormal(kids) + Chars(text)
  {
    hide AllNormal;
    var n := |kids|;
    AllNormalOne(Cdata(text));
    if n > 0 && kids[n - 1].Cdata? {
      var last := kids[n - 1].text;
      AllNormalOne(Cdata(last + text));
      AllNormalOne(kids[n - 1]);
      AllNormalConcat(kids[..n - 1], [Cdata(last + text)]);
      AllNormalConcat(kids[..n - 1], [kids[n - 1]]);
      assert kids == kids[..n - 1] + [kids[n - 1]];
      CharsConcat(last, text);
    } else {
      AllNormalConcat(kids, [Cdata(text)]);
    }
  }

  function FrameNormal(f: Frame): seq<Event> {
    [Tag(f.name, f.atts, Open)] + AllNormal(f.kids)
  }

  lemma {:induction false} OpenNormalSnoc(open: seq<Frame>, f: Frame)
    ensures OpenNormal(open + [f]) == OpenNormal(open) + FrameNormal(f)
  {
    hide AllNormal;
    if open == [] {
      assert [f][1..] == [];
    } else {
      assert (open + [f])[1..] == open[1..] + [f];
      OpenNormalSnoc(open[1..], f);
    }
  }

  lemma OpenNormalLast(open: seq<Frame>)
    requires open != []
    ensures OpenNormal(open) == OpenNormal(Front(open)) + FrameNormal(Last(open))
  {
    assert open == Front(open) + [Last(open)];
    OpenNormalSnoc(Front(open), Last(open));
  }

  lemma OpenedNormal(d: State, name: string, atts: Attrs)
    requires Distinct(atts)
    ensures OpenNormal(OpenTag(d, name, atts).open) == OpenNormal(d.open) + [Tag(name, atts, Open)]
  {
    hide SetAttrs, OpenNormal;
    SetAttrsDistinct([], atts);
    assert [] + atts == atts;
    OpenNormalSnoc(d.open, Frame(name, atts, []));
    assert [Tag(name, atts, Open)] + AllNormal([]) == [Tag(name, atts, Open)];
  }

  /** Closing adds the closing tag, either to the tree above or to a finished root. */
  lemma ClosedNormal(d: State)
    requires d.open != []
    ensures var e := CloseTag(d);
      OpenNormal(d.open) + [Tag(Last(d.open).name, [], Close)]
        == AllNormal(if e.open == [] then [e.tree.value] else []) + OpenNormal(e.open)
  {
    hide OpenNormal, AllNormal;
    var f, outer, e := Last(d.open), Front(d.open), CloseTag(d);
    var t := Closed(f);
    OpenNormalLast(d.open);
    assert FrameNormal(f) + [Tag(f.name, [], Close)] == TreeNormal(t);
    EmptyNormal();
    if outer == [] {
      AllNormalOne(t);
      assert [] + FrameNormal(f) + [Tag(f.name, [], Close)] == TreeNormal(t) + [];
    } else {
      var g := Last(outer);
      OpenNormalLast(outer);
      OpenNormalSnoc(Front(outer), AddKid(g, t));
      AllNormalConcat(g.kids, [t]);
      AllNormalOne(t);
      assert (OpenNormal(Front(outer)) + FrameNormal(g) + FrameNormal(f)) + [Tag(f.name, [], Close)]
          == [] + (OpenNormal(Front(outer)) + FrameNormal(AddKid(g, t)));
    }
  }

  lemma EmptyNormal()
    ensures AllNormal([]) == [] && OpenNormal([]) == []
  {
  }

  lemma TextNormal(d: State, text: string)
    ensures OpenNormal(AppendText(d, text).open) == OpenNormal(d.open) + if d.open == [] then [] else Chars(text)
  {
    hide OpenNormal, AllNormal, AddText;
    if d.open != [] {
      var f := Last(d.open);
      AddTextNormal(f.kids, text);
      OpenNormalLast(d.open);
      OpenNormalSnoc(Front(d.open), f.(kids := AddText(f.kids, text)));
    }
  }

  lemma HookNormal(d: State, e: Event)
    requires Dom.Hook(d, e).error == Ok && (e.Tag? ==> Distinct(e.atts))
    ensures var v := Dom.Hook(d, e);
      && |v.d.open| == DepthAfter(|d.open|, e)
      && OpenNormal(d.open) + NormalEvent(|d.open|, e) == AllNormal(Finished(v.d, e)) + OpenNormal(v.d.open)
  {
    hide OpenNormal, AllNormal, OpenTag, CloseTag, AppendText, Distinct;
    EmptyNormal();
    match e {
      case Text(text) => TextNormal(d, text); TextDepth(d, text);
      case Tag(name, atts, Open) => OpenedNormal(d, name, atts); OpenDepth(d, name, atts);
      case Tag(name, atts, Single) =>
        var f := OpenTag(d, name, atts);
        OpenDepth(d, name, atts);
        OpenedNormal(d, name, atts);
        CloseDepth(f);
        ClosedNormal(f);
        assert OpenNormal(d.open) + [Tag(name, atts, Open), Tag(name, [], Close)]
            == OpenNormal(d.open) + [Tag(name, atts, Open)] + [Tag(name, [], Close)];
      case Tag(_, _, Close) =>
        CloseDepth(d);
        ClosedNormal(d);
    }
  }

  lemma OpenDepth(d: State, name: string, atts: Attrs)
    ensures |OpenTag(d, name, atts).open| == |d.open| + 1 && Last(OpenTag(d, name, atts).open).name == name
  {
  }

  lemma CloseDepth(d: State)
    requires d.open != []
    ensures |CloseTag(d).open| == |d.open| - 1 && (CloseTag(d).open == [] ==> CloseTag(d).tree.Some?)
  {
  }

  lemma TextDepth(d: State, text: string)
    ensures |AppendText(d, text).open| == |d.open|
  {
  }

  /** The finished roots and the open elements flatten back to the history that built them: texts joined
      or cut, single tags opened and closed, and text outside the roots gone. */
  lemma {:induction false} TreesSayHistory(d: State, es: seq<Event>)
    requires Build(d, es).error == Ok && DistinctEvents(es)
    ensures OpenNormal(d.open) + Normal(|d.open|, es)
         == AllNormal(Roots(d, es)) + OpenNormal(Build(d, es).d.open)
    decreases |es|
  {
    hide OpenNormal, AllNormal, Dom.Hook, NormalEvent, DepthAfter, Finished, Distinct;
    EmptyNormal();
    if es == [] {
      assert OpenNormal(d.open) + [] == [] + OpenNormal(d.open);
    } else {
      var e, v := es[0], Dom.Hook(d, es[0]);
      HookNormal(d, e);
      TreesSayHistory(v.d, es[1..]);
      AllNormalConcat(Finished(v.d, e), Roots(v.d, es[1..]));
      var x, y := OpenNormal(d.open), NormalEvent(|d.open|, e);
      var z := Normal(|v.d.open|, es[1..]);
      assert x + (y + z) == (x + y) + z;
      assert (AllNormal(Finished(v.d, e)) + OpenNormal(v.d.open)) + z
          == AllNormal(Finished(v.d, e)) + (OpenNormal(v.d.open) + z);
    }
  }

  /** The tree that is handed out is the last finished root. */
  lemma {:induction false} TreeIsLastRoot(d: State, es: seq<Event>)
    requires Build(d, es).error == Ok
    ensures Build(d, es).d.tree == if Roots(d, es) == [] then d.tree else Some(Last(Roots(d, es)))
    decreases |es|
  {
    hide Dom.Hook, Finished;
    if es != [] {
      var v := Dom.Hook(d, es[0]);
      HookTree(d, es[0]);
      TreeIsLastRoot(v.d, es[1..]);
    }
  }

  lemma HookTree(d: State, e: Event)
    requires Dom.Hook(d, e).error == Ok
    ensures var v := Dom.Hook(d, e);
      v.d.tree == if Finished(v.d, e) == [] then d.tree else Some(Last(Finished(v.d, e)))
  {
  }

  /** How many tags end at depth 0, and the depth at the end. */
  function RootEnds(depth: nat, es: seq<Event>): nat
    decreases |es|
  {
    if es == [] then 0
    else
      var after := DepthAfter(depth, es[0]);
      (if es[0].Tag? && es[0].kind != Open && after == 0 then 1 else 0) + RootEnds(after, es[1..])
  }

  function DepthAtEnd(depth: nat, es: seq<Event>): nat
    decreases |es|
  {
    if es == [] then depth else DepthAtEnd(DepthAfter(depth, es[0]), es[1..])
  }

  lemma {:induction false} RootsAreCounted(d: State, es: seq<Event>)
    requires Build(d, es).error == Ok
    ensures |Roots(d, es)| == RootEnds(|d.open|, es) && |Build(d, es).d.open| == DepthAtEnd(|d.open|, es)
    decreases |es|
  {
    hide Dom.Hook, DepthAfter;
    if es != [] {
      var v := Dom.Hook(d, es[0]);
      HookDepth(d, es[0]);
      RootsAreCounted(v.d, es[1..]);
    }
  }

  lemma HookDepth(d: State, e: Event)
    requires Dom.Hook(d, e).error == Ok
    ensures var v := Dom.Hook(d, e);
      && |v.d.open| == DepthAfter(|d.open|, e)
      && (e.Tag? && e.kind != Open && v.d.open == [] ==> v.d.tree.Some?)
  {
  }

  /** For a single root: a nested history that ends where it began, at depth 0, having been back there
      once, gives one tree, and the tree gives back the history. */
  lemma SingleRoot(es: seq<Event>)
    requires Nested([], es) && DistinctEvents(es) && RootEnds(0, es) == 1 && DepthAtEnd(0, es) == 0
    ensures var v := Build(EMPTY, es);
      v.error == Ok && v.d.open == [] && v.d.tree.Some? && TreeNormal(v.d.tree.value) == Normal(0, es)
  {
    hide Build, Roots, Normal, Nested;
    assert Names(EMPTY.open) == [];
    AcceptsIffNested(EMPTY, es);
    TreesSayHistory(EMPTY, es);
    TreeIsLastRoot(EMPTY, es);
    RootsAreCounted(EMPTY, es);
    var t := Roots(EMPTY, es)[0];
    assert Roots(EMPTY, es) == [t];
    AllNormalOne(t);
    EmptyNormal();
  }
}

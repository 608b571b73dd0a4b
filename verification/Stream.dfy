/** The hooks of stream.c without TLS: an XMPP stream is one long element, whose children are handed to
    the user one by one. */
module Stream {
  import opened Xml
  import opened Iks
  import opened IksWalk
  import opened IksBuild
  import Dom
  import DomLaws
  import DomHooks
  import IksCopy
  import RoundTrip
  import SaxLaws
  import SaxMachine

  /** What leaves the hooks: calls of the user's hook, or a challenge, which is answered inside. */
  datatype Delivery =
    | NodeStart(tree: Tree)
    | NodeNormal(tree: Tree)
    | NodeError(tree: Tree)
    | NodeStop
    | Challenge(tree: Tree)

  /** The open elements below the stream, and everything delivered so far. */
  datatype State = State(open: seq<Dom.Frame>, out: seq<Delivery>)

  datatype Verdict = Verdict(s: State, error: Error)

  /** A finished element is handed out by the name in its closing tag. */
  function Finished(name: string, t: Tree): Delivery {
    if name == "challenge" then Challenge(t)
    else if name == "stream:error" then NodeError(t)
    else NodeNormal(t)
  }

  /** `answer` is what the user's hook returns, given all deliveries; a challenge is not its business. */
  function Deliver(s: State, d: Delivery, answer: seq<Delivery> -> Error): Verdict {
    var out := s.out + [d];
    Verdict(s.(out := out), if d.Challenge? then Ok else answer(out))
  }

  function EndTag(s: State, name: string, answer: seq<Delivery> -> Error): Verdict {
    if s.open == [] then Deliver(s, NodeStop, answer)
    else if |s.open| == 1 then Deliver(s.(open := []), Finished(name, Dom.Closed(s.open[0])), answer)
    else Verdict(s.(open := Dom.CloseTag(Dom.State(s.open, None)).open), Ok)
  }

  function Grown(s: State, name: string, atts: Attrs): State {
    s.(open := Dom.OpenTag(Dom.State(s.open, None), name, atts).open)
  }

  function Started(s: State, name: string, atts: Attrs): State {
    s.(out := s.out + [NodeStart(Element(name, Dom.SetAttrs([], atts), []))])
  }

  function React(s: State, e: Event, answer: seq<Delivery> -> Error): Verdict {
    match e
    case Text(text) => Verdict(s.(open := Dom.AppendText(Dom.State(s.open, None), text).open), Ok)
    case Tag(name, _, Close) => EndTag(s, name, answer)
    case Tag(name, atts, kind) =>
      if s.open == [] && name == "stream:stream" then
        Deliver(s, NodeStart(Element(name, Dom.SetAttrs([], atts), [])), answer)
      else
        var grown := Grown(s, name, atts);
        if kind == Open then Verdict(grown, Ok) else EndTag(grown, name, answer)
  }

  /** The hooks on a sequence of events, up to the first refusal. */
  function Hear(s: State, es: seq<Event>, answer: seq<Delivery> -> Error): Verdict
    decreases |es|
  {
    if es == [] then Verdict(s, Ok)
    else
      var v := React(s, es[0], answer);
      if v.error == Ok then Hear(v.s, es[1..], answer) else v
  }

  // ----- one tree per top-level element

  ghost predicate AlwaysOk(answer: seq<Delivery> -> Error) {
    forall out :: answer(out) == Ok
  }

  /** No element directly below the stream is itself a stream. */
  predicate NoInnerStream(depth: nat, es: seq<Event>)
    decreases |es|
  {
    es == [] ||
      (&& (depth == 0 && es[0].Tag? && es[0].kind != TagType.Close ==> es[0].name != "stream:stream")
       && NoInnerStream(DomLaws.DepthAfter(depth, es[0]), es[1..]))
  }

  function Deliveries(ts: seq<Tree>): seq<Delivery> {
    if ts == [] then [] else (if ts[0].Element? then [Finished(ts[0].name, ts[0])] else []) + Deliveries(ts[1..])
  }

  lemma {:induction false} DeliveriesConcat(x: seq<Tree>, y: seq<Tree>)
    ensures Deliveries(x + y) == Deliveries(x) + Deliveries(y)
  {
    hide Finished;
    if x == [] {
      assert x + y == y;
    } else {
      assert (x + y)[1..] == x[1..] + y;
      DeliveriesConcat(x[1..], y);
      var first := if x[0].Element? then [Finished(x[0].name, x[0])] else [];
      assert (first + Deliveries(x[1..])) + Deliveries(y) == first + (Deliveries(x[1..]) + Deliveries(y));
    }
  }

  lemma DeliveriesOne(t: Tree)
    requires t.Element?
    ensures Deliveries([t]) == [Finished(t.name, t)]
  {
    assert [t][1..] == [];
  }

  /** One event: the stream's hook does what the DOM hook does, and hands a finished root out. */
  lemma HookLikeDom(d: Dom.State, out: seq<Delivery>, e: Event, answer: seq<Delivery> -> Error)
    requires AlwaysOk(answer) && Dom.Hook(d, e).error == Ok
    requires d.open == [] && e.Tag? && e.kind != TagType.Close ==> e.name != "stream:stream"
    ensures var v := Dom.Hook(d, e);
      React(State(d.open, out), e, answer) == Verdict(State(v.d.open, out + Deliveries(DomLaws.Finished(v.d, e))), Ok)
  {
    hide Dom.SetAttrs, Deliveries, Finished;
    assert Deliveries([]) == [] by { NoDeliveries(); }
    var v := Dom.Hook(d, e);
    if e.Tag? && e.kind != Open {
      var f := if e.kind == Single then Dom.OpenTag(d, e.name, e.atts) else d;
      CloseLikeDom(f, out, e.name, answer);
      if v.d.open == [] {
        DeliveriesOne(v.d.tree.value);
      }
    }
    assert out + [] == out;
  }

  lemma NoDeliveries()
    ensures Deliveries([]) == []
  {
  }

  lemma CloseLikeDom(d: Dom.State, out: seq<Delivery>, name: string, answer: seq<Delivery> -> Error)
    requires AlwaysOk(answer) && d.open != [] && Dom.Last(d.open).name == name
    ensures var e := Dom.CloseTag(d);
      && (e.open == [] ==> e.tree.Some? && e.tree.value.Element? && e.tree.value.name == name)
      && (e.open == [] ==>
            EndTag(State(d.open, out), name, answer) == Verdict(State([], out + [Finished(name, e.tree.value)]), Ok))
      && (e.open != [] ==> EndTag(State(d.open, out), name, answer) == Verdict(State(e.open, out), Ok))
  {
    hide Finished;
    assert |d.open| == 1 ==> Dom.Front(d.open) == [];
  }

  /** Below the stream the hooks hand out exactly the finished roots, in order, each as a challenge, an
      error or a normal element by its name. */
  lemma {:induction false} HearLikeDom(d: Dom.State, out: seq<Delivery>, es: seq<Event>, answer: seq<Delivery> -> Error)
    requires AlwaysOk(answer) && Dom.Build(d, es).error == Ok && NoInnerStream(|d.open|, es)
    ensures Hear(State(d.open, out), es, answer)
         == Verdict(State(Dom.Build(d, es).d.open, out + Deliveries(DomLaws.Roots(d, es))), Ok)
    decreases |es|
  {
    hide Dom.Hook, React, Deliveries, DomLaws.Finished, AlwaysOk, DomLaws.DepthAfter;
    assert Deliveries([]) == [] by { NoDeliveries(); }
    if es == [] {
      assert out + [] == out;
    } else {
      var e, v := es[0], Dom.Hook(d, es[0]);
      HookLikeDom(d, out, e, answer);
      DomLaws.HookDepth(d, e);
      var done := DomLaws.Finished(v.d, e);
      HearLikeDom(v.d, out + Deliveries(done), es[1..], answer);
      DeliveriesConcat(done, DomLaws.Roots(v.d, es[1..]));
      assert out + Deliveries(done) + Deliveries(DomLaws.Roots(v.d, es[1..]))
          == out + (Deliveries(done) + Deliveries(DomLaws.Roots(v.d, es[1..])));
    }
  }

  lemma {:induction false} HearConcat(s: State, x: seq<Event>, y: seq<Event>, answer: seq<Delivery> -> Error)
    ensures var v := Hear(s, x, answer);
      Hear(s, x + y, answer) == if v.error == Ok then Hear(v.s, y, answer) else v
    decreases |x|
  {
    hide React;
    if x == [] {
      assert x + y == y;
    } else {
      assert (x + y)[1..] == x[1..] + y;
      var v := React(s, x[0], answer);
      if v.error == Ok {
        HearConcat(v.s, x[1..], y, answer);
      }
    }
  }

  lemma HearOne(s: State, e: Event, answer: seq<Delivery> -> Error)
    ensures Hear(s, [e], answer) == React(s, e, answer)
  {
    hide React;
    assert [e][1..] == [];
  }

  /** A whole session: the stream's start, one delivery for each top-level element in order, the stop. */
  lemma Session(atts: Attrs, es: seq<Event>, answer: seq<Delivery> -> Error)
    requires AlwaysOk(answer) && DomLaws.Nested([], es) && DomLaws.DepthAtEnd(0, es) == 0 && NoInnerStream(0, es)
    ensures var open, close := Tag("stream:stream", atts, Open), Tag("stream:stream", [], TagType.Close);
      Hear(State([], []), [open] + es + [close], answer)
        == Verdict(State([], [NodeStart(Element("stream:stream", Dom.SetAttrs([], atts), []))]
                             + Deliveries(DomLaws.Roots(Dom.EMPTY, es)) + [NodeStop]), Ok)
  {
    hide DomLaws.Nested, Dom.Build, Deliveries, DomLaws.Roots, NoInnerStream, Hear, Dom.SetAttrs;
    var open, close := Tag("stream:stream", atts, Open), Tag("stream:stream", [], TagType.Close);
    assert DomLaws.Names(Dom.EMPTY.open) == [];
    DomLaws.AcceptsIffNested(Dom.EMPTY, es);
    DomLaws.RootsAreCounted(Dom.EMPTY, es);
    var start := NodeStart(Element("stream:stream", Dom.SetAttrs([], atts), []));
    HearConcat(State([], []), [open] + es, [close], answer);
    HearConcat(State([], []), [open], es, answer);
    HearOne(State([], []), open, answer);
    assert [] + [start] == [start];
    HearLikeDom(Dom.EMPTY, [start], es, answer);
    HearOne(State([], [start] + Deliveries(DomLaws.Roots(Dom.EMPTY, es))), close, answer);
  }

  /** A closing tag with any name ends the element, also at the top; there its name, and not the element's, says what
      is handed out. */
  lemma AnyNameCloses(f: Dom.Frame, out: seq<Delivery>, name: string, answer: seq<Delivery> -> Error)
    ensures var v := Hear(State([f], out), [Tag(name, [], TagType.Close)], answer);
      && v.s.open == [] && |v.s.out| == |out| + 1 && v.s.out[..|out|] == out
      && var d := v.s.out[|out|];
         && Handed(d) == Some(Element(f.name, f.atts, f.kids)) && !d.NodeStart?
         && (d.NodeError? <==> name == "stream:error") && (d.Challenge? <==> name == "challenge")
         && v.error == if d.Challenge? then Ok else answer(out + [d])
  {
    HearOne(State([f], out), Tag(name, [], TagType.Close), answer);
  }

  // ----- sessions as they are printed

  lemma {:induction false} DepthConcat(depth: nat, x: seq<Event>, y: seq<Event>)
    ensures var after := DomLaws.DepthAtEnd(depth, x);
      && DomLaws.DepthAtEnd(depth, x + y) == DomLaws.DepthAtEnd(after, y)
      && DomLaws.RootEnds(depth, x + y) == DomLaws.RootEnds(depth, x) + DomLaws.RootEnds(after, y)
      && (NoInnerStream(depth, x + y) <==> NoInnerStream(depth, x) && NoInnerStream(after, y))
    decreases |x|
  {
    hide DomLaws.DepthAfter;
    if x == [] {
      assert x + y == y;
    } else {
      assert (x + y)[1..] == x[1..] + y;
      DepthConcat(DomLaws.DepthAfter(depth, x[0]), x[1..], y);
    }
  }

  lemma {:induction false} CharsDepth(depth: nat, s: string)
    ensures DomLaws.DepthAtEnd(depth, Chars(s)) == depth && DomLaws.RootEnds(depth, Chars(s)) == 0
    ensures NoInnerStream(depth, Chars(s))
    decreases |s|
  {
    if s != "" {
      CharsDepth(depth, s[1..]);
    }
  }

  lemma TagDepth(depth: nat, e: Event)
    requires e.Tag? && (e.kind == TagType.Close ==> depth > 0)
    ensures var after := DomLaws.DepthAfter(depth, e);
      && DomLaws.DepthAtEnd(depth, [e]) == after
      && DomLaws.RootEnds(depth, [e]) == (if e.kind != Open && after == 0 then 1 else 0)
      && (NoInnerStream(depth, [e]) <==> depth > 0 || e.kind == TagType.Close || e.name != "stream:stream")
  {
    assert [e][1..] == [];
  }

  predicate NotAStream(t: Tree) {
    t.Element? ==> t.name != "stream:stream"
  }

  /** The events of a tree lead back to the depth they start at; at depth 0 an element ends a root. */
  lemma {:induction false} TreeDepth(depth: nat, t: Tree)
    ensures var es := Flat(Events(t));
      && DomLaws.DepthAtEnd(depth, es) == depth
      && DomLaws.RootEnds(depth, es) == (if depth == 0 && t.Element? then 1 else 0)
      && (depth > 0 || NotAStream(t) ==> NoInnerStream(depth, es))
    decreases t, 1
  {
    hide DomLaws.DepthAtEnd, DomLaws.RootEnds, NoInnerStream, Flat, EventsAll;
    match t
    case Cdata(text) =>
      Dom.FlatOne(Text(text));
      CharsDepth(depth, text);
    case Element(name, atts, kids) =>
      if kids == [] {
        Dom.FlatOne(Tag(name, atts, Single));
        TagDepth(depth, Tag(name, atts, Single));
      } else {
        AllDepth(depth + 1, kids);
        ElementDepth(depth, name, atts, EventsAll(kids));
      }
  }

  lemma ElementDepth(depth: nat, name: string, atts: Attrs, body: seq<Event>)
    requires DomLaws.DepthAtEnd(depth + 1, Flat(body)) == depth + 1 && DomLaws.RootEnds(depth + 1, Flat(body)) == 0
    requires NoInnerStream(depth + 1, Flat(body))
    ensures var es := Flat([Tag(name, atts, Open)] + body + [Tag(name, [], TagType.Close)]);
      && DomLaws.DepthAtEnd(depth, es) == depth
      && DomLaws.RootEnds(depth, es) == (if depth == 0 then 1 else 0)
      && (depth > 0 || name != "stream:stream" ==> NoInnerStream(depth, es))
  {
    hide DomLaws.DepthAtEnd, DomLaws.RootEnds, NoInnerStream, Flat;
    var open, close := Tag(name, atts, Open), Tag(name, [], TagType.Close);
    FlatConcat([open] + body, [close]);
    FlatConcat([open], body);
    Dom.FlatOne(open);
    Dom.FlatOne(close);
    DepthConcat(depth, [open] + Flat(body), [close]);
    DepthConcat(depth, [open], Flat(body));
    TagDepth(depth, open);
    TagDepth(depth + 1, close);
  }

  lemma {:induction false} AllDepth(depth: nat, ts: seq<Tree>)
    ensures var es := Flat(EventsAll(ts));
      && DomLaws.DepthAtEnd(depth, es) == depth
      && (depth > 0 ==> DomLaws.RootEnds(depth, es) == 0)
      && (depth > 0 || (forall t :: t in ts ==> NotAStream(t)) ==> NoInnerStream(depth, es))
    decreases ts, 0
  {
    hide NotAStream, Events;
    if ts != [] {
      TreeDepth(depth, ts[0]);
      AllDepth(depth, ts[1..]);
      FlatConcat(Events(ts[0]), EventsAll(ts[1..]));
      DepthConcat(depth, Flat(Events(ts[0])), Flat(EventsAll(ts[1..])));
    }
  }

  lemma {:induction false} RootsConcat(d: Dom.State, x: seq<Event>, y: seq<Event>)
    requires Dom.Build(d, x).error == Ok
    ensures DomLaws.Roots(d, x + y) == DomLaws.Roots(d, x) + DomLaws.Roots(Dom.Build(d, x).d, y)
    decreases |x|
  {
    hide Dom.Hook, DomLaws.Finished;
    if x == [] {
      assert x + y == y;
    } else {
      assert (x + y)[1..] == x[1..] + y;
      RootsConcat(Dom.Hook(d, x[0]).d, x[1..], y);
    }
  }

  /** The elements of a list as they are rebuilt. */
  function Elements(ts: seq<Tree>): seq<Tree> {
    if ts == [] then [] else (if ts[0].Element? then [Dom.Merged(ts[0])] else []) + Elements(ts[1..])
  }

  lemma RootsOfTree(d: Dom.State, t: Tree)
    requires d.open == [] && Dom.DistinctNames(t)
    ensures Dom.Build(d, Flat(Events(t))).error == Ok && Dom.Build(d, Flat(Events(t))).d.open == []
    ensures DomLaws.Roots(d, Flat(Events(t))) == if t.Element? then [Dom.Merged(t)] else []
  {
    hide Dom.Build, DomLaws.Roots, DomLaws.RootEnds, DomLaws.DepthAtEnd, NoInnerStream, Events, Flat, Dom.Merged, Dom.DistinctNames;
    var es := Flat(Events(t));
    Dom.BuildTree(d, t);
    TreeDepth(0, t);
    DomLaws.RootsAreCounted(d, es);
    DomLaws.TreeIsLastRoot(d, es);
    if t.Element? {
      assert DomLaws.Roots(d, es) == [Dom.Last(DomLaws.Roots(d, es))];
    }
  }

  lemma {:induction false} RootsOfTrees(d: Dom.State, ts: seq<Tree>)
    requires d.open == [] && forall t :: t in ts ==> Dom.DistinctNames(t)
    ensures Dom.Build(d, Flat(EventsAll(ts))).error == Ok && Dom.Build(d, Flat(EventsAll(ts))).d.open == []
    ensures DomLaws.Roots(d, Flat(EventsAll(ts))) == Elements(ts)
    decreases |ts|
  {
    hide Dom.DistinctNames, Events, Dom.Merged, Dom.Hook;
    if ts != [] {
      var x, y := Flat(Events(ts[0])), Flat(EventsAll(ts[1..]));
      RootsOfTree(d, ts[0]);
      RootsOfTrees(Dom.Build(d, x).d, ts[1..]);
      FlatConcat(Events(ts[0]), EventsAll(ts[1..]));
      Dom.BuildConcat(d, x, y);
      RootsConcat(d, x, y);
    }
  }

  const NAME := "stream:stream"

  /** A whole session as it is printed. */
  function SessionText(atts: Attrs, ts: seq<Tree>): string {
    "<" + NAME + PrintAttrs(atts) + ">" + PrintAll(ts) + ("</" + NAME + ">")
  }

  /** What a session hands out: the start, then each element once and in order, as its name says, then the
      stop. Text between the elements is dropped. */
  function SessionDeliveries(atts: Attrs, ts: seq<Tree>): seq<Delivery> {
    [NodeStart(Element(NAME, Dom.SetAttrs([], RoundTrip.EscapeAttrs(atts)), []))]
      + Deliveries(Elements(RoundTrip.EscapeAll(ts))) + [NodeStop]
  }

  /** The machine reads a printed session without error, and the hooks hear the session in its events. */
  lemma PrintedSession(atts: Attrs, ts: seq<Tree>, answer: seq<Delivery> -> Error)
    requires AlwaysOk(answer) && RoundTrip.PrintableAttrs(atts) && Dom.Distinct(atts)
    requires forall t :: t in ts ==> RoundTrip.Printable(t) && Dom.DistinctNames(t) && NotAStream(t)
    ensures var r := SaxMachine.Run(SaxMachine.START, SessionText(atts, ts));
      && r.error == Ok
      && Hear(State([], []), r.m.out, answer) == Verdict(State([], SessionDeliveries(atts, ts)), Ok)
  {
    hide SaxMachine.Run, SaxMachine.Step, PrintAttrs, PrintAll, RoundTrip.Printable, Dom.DistinctNames, Dom.Build,
      DomLaws.Roots, DomLaws.Nested, NoInnerStream, Hear, Flat, EventsAll, Elements, Deliveries, Dom.SetAttrs,
      RoundTrip.EscapeAttrs, NotAStream, RoundTrip.PrintableAttrs, DomLaws.DepthAtEnd, AlwaysOk, DomLaws.RootEnds;
    var m := SaxMachine.START;
    var head, body, tail := "<" + NAME + PrintAttrs(atts) + ">", PrintAll(ts), "</" + NAME + ">";
    var escaped := RoundTrip.EscapeAll(ts);
    var es := Flat(EventsAll(escaped));
    StreamName();
    RoundTrip.RunTag(m, NAME, atts, false);
    RoundTrip.RunPrintAll(SaxMachine.Run(m, head).m, ts);
    RoundTrip.DeliversThen(m, head, [Tag(NAME, RoundTrip.EscapeAttrs(atts), Open)], body, es);
    RoundTrip.RunClose(SaxMachine.Run(m, head + body).m, NAME);
    RoundTrip.DeliversThen(m, head + body, [Tag(NAME, RoundTrip.EscapeAttrs(atts), Open)] + es, tail, [Tag(NAME, [], TagType.Close)]);
    RoundTrip.EscapeAllKeepsDistinct(ts);
    EscapedStreams(ts);
    RootsOfTrees(Dom.EMPTY, escaped);
    AllDepth(0, escaped);
    assert DomLaws.Names(Dom.EMPTY.open) == [];
    DomLaws.AcceptsIffNested(Dom.EMPTY, es);
    Session(RoundTrip.EscapeAttrs(atts), es, answer);
    var out := SaxMachine.Run(m, head + body + tail).m.out;
    var session := [Tag(NAME, RoundTrip.EscapeAttrs(atts), Open)] + es + [Tag(NAME, [], TagType.Close)];
    assert out == [] + session == session;
  }

  /** What each delivery is, and of which tree. */
  predicate IsDelivery(d: Delivery, t: Tree) {
    && t.Element? && Handed(d) == Some(t)
    && (d.NodeError? <==> t.name == "stream:error") && (d.Challenge? <==> t.name == "challenge")
    && !d.NodeStart?
  }

  /** A session hands out one delivery for its start, one for each of its elements, in order, and one for its end.
      An element is an error exactly when it is named so, a challenge exactly when it is named so, else normal. */
  lemma SessionKinds(atts: Attrs, ts: seq<Tree>)
    ensures var out, es := SessionDeliveries(atts, ts), Elements(RoundTrip.EscapeAll(ts));
      && |out| == |es| + 2 && out[0].NodeStart? && out[|es| + 1].NodeStop?
      && forall k :: 0 <= k < |es| ==> IsDelivery(out[k + 1], es[k])
  {
    hide Finished, IsDelivery, Dom.SetAttrs, RoundTrip.EscapeAttrs, Elements, Deliveries, RoundTrip.EscapeAll;
    var es := Elements(RoundTrip.EscapeAll(ts));
    ElementsAre(RoundTrip.EscapeAll(ts));
    DeliveriesAre(es);
  }

  lemma {:induction false} ElementsAre(ts: seq<Tree>)
    ensures forall t :: t in Elements(ts) ==> t.Element?
  {
    hide Dom.Merged;
    if ts != [] {
      ElementsAre(ts[1..]);
      assert ts[0].Element? ==> Dom.Merged(ts[0]).Element? by { MergedElement(ts[0]); }
    }
  }

  lemma MergedElement(t: Tree)
    ensures Dom.Merged(t).Element? <==> t.Element?
  {
  }

  lemma {:induction false} DeliveriesAre(es: seq<Tree>)
    requires forall t :: t in es ==> t.Element?
    ensures |Deliveries(es)| == |es| && forall k :: 0 <= k < |es| ==> IsDelivery(Deliveries(es)[k], es[k])
  {
    if es != [] {
      DeliveriesAre(es[1..]);
      assert forall k :: 1 <= k < |es| ==> Deliveries(es)[k] == Deliveries(es[1..])[k - 1];
    }
  }

  /** A server's error: such a session, as its bytes. */
  lemma ErrorSession(answer: seq<Delivery> -> Error)
    requires AlwaysOk(answer)
    ensures var r := SaxMachine.Run(SaxMachine.START, "<stream:stream>" + "<stream:error/>" + "</stream:stream>");
      r.error == Ok && Hear(State([], []), r.m.out, answer)
        == Verdict(State([], [NodeStart(Element("stream:stream", [], [])), NodeError(Element("stream:error", [], [])), NodeStop]), Ok)
  {
    hide SaxMachine.Run, Hear, AlwaysOk;
    var ts := [Element("stream:error", [], [])];
    ErrorText(ts);
    PrintedSession([], ts, answer);
  }

  lemma ErrorText(ts: seq<Tree>)
    requires ts == [Element("stream:error", [], [])]
    ensures SessionText([], ts) == "<stream:stream>" + "<stream:error/>" + "</stream:stream>"
    ensures RoundTrip.PrintableAttrs([]) && Dom.Distinct([])
    ensures forall t :: t in ts ==> RoundTrip.Printable(t) && Dom.DistinctNames(t) && NotAStream(t)
    ensures SessionDeliveries([], ts)
         == [NodeStart(Element("stream:stream", [], [])), NodeError(Element("stream:error", [], [])), NodeStop]
  {
    ErrorPrinted(ts);
    ErrorDelivered(ts);
  }

  lemma ErrorPrinted(ts: seq<Tree>)
    requires ts == [Element("stream:error", [], [])]
    ensures SessionText([], ts) == "<stream:stream>" + "<stream:error/>" + "</stream:stream>"
  {
    hide *;
    TextIs([], ts);
    ErrorElement(ts);
    StreamTags();
  }

  lemma StreamTags()
    ensures "<" + NAME + PrintAttrs([]) + ">" == "<stream:stream>"
    ensures "</" + NAME + ">" == "</stream:stream>"
  {
  }

  lemma ErrorElement(ts: seq<Tree>)
    requires ts == [Element("stream:error", [], [])]
    ensures PrintAll(ts) == "<stream:error/>"
  {
    assert ts[1..] == [];
    assert PrintAll(ts) == ("<" + "stream:error" + "" + "/>") + "";
  }

  lemma TextIs(atts: Attrs, ts: seq<Tree>)
    ensures SessionText(atts, ts) == "<" + NAME + PrintAttrs(atts) + ">" + PrintAll(ts) + ("</" + NAME + ">")
  {
  }

  lemma ErrorDelivered(ts: seq<Tree>)
    requires ts == [Element("stream:error", [], [])]
    ensures SessionDeliveries([], ts)
         == [NodeStart(Element("stream:stream", [], [])), NodeError(Element("stream:error", [], [])), NodeStop]
  {
    assert ts[1..] == [];
    assert RoundTrip.EscapeAll(ts) == ts;
    assert Dom.MergeOnto([], []) == [];
    assert Elements(ts) == ts;
    assert Deliveries(ts) == [NodeError(ts[0])];
  }

  lemma StreamName()
    ensures RoundTrip.TagName(NAME) && SaxLaws.Idle(SaxMachine.START)
  {
  }

  lemma {:induction false} EscapedStreams(ts: seq<Tree>)
    requires forall t :: t in ts ==> NotAStream(t)
    ensures forall t :: t in RoundTrip.EscapeAll(ts) ==> NotAStream(t)
  {
    if ts != [] {
      EscapedStreams(ts[1..]);
      assert RoundTrip.EscapeAll(ts) == [RoundTrip.EscapeValues(ts[0])] + RoundTrip.EscapeAll(ts[1..]);
      assert NotAStream(RoundTrip.EscapeValues(ts[0])) by { assert NotAStream(ts[0]); }
    }
  }

  // ----- the hooks on linked nodes

  /** The tree a delivery hands over. */
  function Handed(d: Delivery): Option<Tree> {
    match d
    case NodeStop => None
    case NodeStart(t) => Some(t)
    case NodeNormal(t) => Some(t)
    case NodeError(t) => Some(t)
    case Challenge(t) => Some(t)
  }

  /** The type that the user's hook is called with: IKS_NODE_START and so on; a challenge goes elsewhere. */
  datatype Kind = IsStart | IsNormal | IsError | IsStop | IsChallenge

  /** What leaves the hooks: the type, and a node in its stack. */
  datatype Sent = Sent(kind: Kind, doc: Doc?, node: int)

  predicate OfKind(kind: Kind, d: Delivery) {
    match d
    case NodeStart(_) => kind == IsStart
    case NodeNormal(_) => kind == IsNormal
    case NodeError(_) => kind == IsError
    case NodeStop => kind == IsStop
    case Challenge(_) => kind == IsChallenge
  }

  /** The delivery d, with its tree as linked nodes. */
  ghost predicate HandedOver(sent: Sent, d: Delivery)
    reads sent.doc
  {
    && OfKind(sent.kind, d)
    && match Handed(d)
       case None => sent.doc == null
       case Some(t) => sent.doc != null && sent.doc.Valid() && DomHooks.Finished(sent.doc.Value(), sent.node, t)
  }

  /** At most one delivery has been made. */
  predicate OneMore(before: seq<Delivery>, after: seq<Delivery>, delivered: bool) {
    if delivered then |after| == |before| + 1 && before == after[..|before|] else after == before
  }

  /** struct stream_data: the top-level element being read, each in a stack of its own. `reply` is what
      the user's hook returns if it is called. */
  class StreamData {
    var doc: Doc?
    var current: int
    ghost var ids: seq<int>
    ghost var state: State

    ghost predicate Valid()
      reads this, if doc == null then {} else {doc}
    {
      && current == Current(ids) && (ids == [] ==> state.open == [])
      && (ids != [] ==> doc != null && doc.Valid() && Building(doc.Value(), 0, ids, state.open))
    }

    constructor ()
      ensures Valid() && state == State([], []) && doc == null
    {
      doc, current, ids, state := null, NULL, [], State([], []);
    }

    lemma Depth()
      requires Valid()
      ensures |ids| == |state.open| && (current == NULL <==> ids == [])
    {
      if ids != [] {
        DomHooks.SameLength(doc.Value(), ids, state.open);
        DomHooks.ParentIsNull(doc.Value(), ids, state.open);
      }
    }

    /** tagHook, cases IKS_OPEN and IKS_SINGLE: a new element, in the current one or in a new stack. The
        stream's own element is handed over at once and does not stay open. */
    method OpenTag(name: string, atts: Attrs, reply: Error)
      returns (error: Error, sent: Option<Sent>)
      requires Valid()
      modifies this, if doc == null then {} else {doc}
      ensures Valid() && (doc == null || doc == old(doc) || fresh(doc))
      ensures sent.Some? <==> old(state).open == [] && name == "stream:stream"
      ensures sent.Some? ==> error == reply && state == Started(old(state), name, atts)
      ensures sent.Some? ==> HandedOver(sent.value, Dom.Last(state.out)) && doc == null
      ensures sent.Some? ==> sent.value.doc == old(doc) || fresh(sent.value.doc)
      ensures sent.None? ==> error == Ok && ids != [] && state == Grown(old(state), name, atts)
    {
      hide Building, DomHooks.Finished, Dom.SetAttrs, Arena.Linked, Represents;
      Depth();
      error, sent := Ok, None;
      var top := current == NULL;
      if top {
        doc := new Doc();
        assert Building(doc.Value(), 0, [], []) by { DomHooks.NothingBuilt(doc.Value()); }
      }
      var x := OpenElement(doc, current, name, 0, ids, state.open);
      DomHooks.SetAttributes(doc, x, name, atts, ids + [x], state.open);
      if top && name == "stream:stream" {
        sent, error := Some(Sent(IsStart, doc, x)), reply;
        doc := null;
        ghost var f := Dom.Frame(name, Dom.SetAttrs([], atts), []);
        assert ids + [x] == [x] && state.open + [f] == [f];
        RootStands(sent.value.doc.Value(), x, f);
        state := Started(state, name, atts);
      } else {
        current := x;
        ids := ids + [x];
        state := Grown(state, name, atts);
      }
    }

    /** tagHook, case IKS_CLOSE: without an element the stream is over; a top-level element is handed
        over; any other ends. */
    method CloseTag(name: string, reply: Error) returns (error: Error, sent: Option<Sent>)
      requires Valid()
      modifies this
      ensures Valid() && (doc == null || doc == old(doc))
      ensures var v := EndTag(old(state), name, out => reply); error == v.error && state == v.s
      ensures OneMore(old(state).out, state.out, sent.Some?)
      ensures sent.Some? ==> HandedOver(sent.value, Dom.Last(state.out)) && doc == null
      ensures sent.Some? ==> sent.value.doc == null || sent.value.doc == old(doc)
    {
      hide Building, DomHooks.Finished, Arena.Linked, Represents;
      Depth();
      error, sent := Ok, None;
      if current == NULL {
        state := state.(out := state.out + [NodeStop]);
        doc := null;
        return reply, Some(Sent(IsStop, null, NULL));
      }
      IksCopy.CloseState(doc.Value(), 0, ids, Dom.State(state.open, None));
      CurrentOfFront(doc.Value(), ids, state.open);
      if doc.nodes[current].parent == NULL {
        RootStands(doc.Value(), current, state.open[0]);
        if name == "challenge" {
          sent := Some(Sent(IsChallenge, doc, current));
        } else if name == "stream:error" {
          sent, error := Some(Sent(IsError, doc, current)), reply;
        } else {
          sent, error := Some(Sent(IsNormal, doc, current)), reply;
        }
        doc, current := null, NULL;
        ids := [];
        state := EndTag(state, name, out => reply).s;
      } else {
        current := doc.nodes[current].parent;
        ids := Dom.Front(ids);
        state := EndTag(state, name, out => reply).s;
      }
    }

    /** tagHook and cdataHook. */
    method Call(e: Event, reply: Error) returns (error: Error, sent: Option<Sent>)
      requires Valid()
      modifies this, if doc == null then {} else {doc}
      ensures Valid() && (doc == null || doc == old(doc) || fresh(doc))
      ensures var v := React(old(state), e, out => reply); error == v.error && state == v.s
      ensures OneMore(old(state).out, state.out, sent.Some?)
      ensures sent.Some? ==> HandedOver(sent.value, Dom.Last(state.out)) && doc == null
      ensures sent.Some? ==> sent.value.doc == null || sent.value.doc == old(doc) || fresh(sent.value.doc)
    {
      hide StreamData.Valid, HandedOver, Dom.SetAttrs, EndTag;
      error, sent := Ok, None;
      match e {
        case Text(text) => AddText(text);
        case Tag(name, atts, kind) =>
          if kind == Open || kind == Single {
            error, sent := OpenTag(name, atts, reply);
          }
          if kind == TagType.Close || (kind == Single && sent.None?) {
            error, sent := CloseTag(name, reply);
          }
      }
    }

    /** cdataHook */
    method AddText(text: string)
      requires Valid()
      modifies this, if doc == null then {} else {doc}
      ensures Valid() && doc == old(doc)
      ensures state == old(state).(open := Dom.AppendText(Dom.State(old(state).open, None), text).open)
    {
      hide Building, Arena.Linked, Dom.AddText;
      Depth();
      if current != NULL {
        AddCdata(doc, current, text, 0, ids, state.open);
        state := state.(open := Dom.AppendText(Dom.State(state.open, None), text).open);
      }
    }
  }

  /** The only open element, finished, stands for its tree. */
  lemma RootStands(a: Arena, x: int, f: Dom.Frame)
    requires a.Linked() && Building(a, 0, [x], [f])
    ensures DomHooks.Finished(a, x, Dom.Closed(f))
  {
    hide Building, Arena.Linked, Represents;
    IksCopy.CloseState(a, 0, [x], Dom.State([f], None));
  }

  lemma CurrentOfFront(a: Arena, ids: seq<int>, open: seq<Dom.Frame>)
    requires a.Linked() && Building(a, 0, ids, open) && ids != []
    ensures Current(Dom.Front(ids)) == NULL <==> |ids| == 1
    ensures |ids| == 1 ==> ids == [Current(ids)] && open == [open[0]]
  {
    hide Arena.Linked, Level;
    if |ids| >= 2 {
      BuildingAscends(a, 0, ids, open, |ids| - 2);
    }
  }
}

/** The hooks of dom.c on linked nodes, and iks_tree. */
module DomHooks {
  import opened Xml
  import opened Iks
  import opened IksWalk
  import opened IksBuild
  import Dom
  import DomLaws
  import IksCopy
  import IksString
  import RoundTrip
  import Sax
  import SaxLaws
  import SaxMachine

  /** struct dom_data: the element being filled, in its own object stack, and *iksptr, the last
      finished root in the stack it was built in. */
  class DomData {
    var doc: Doc?
    var current: int
    var treeDoc: Doc?
    var tree: int
    ghost var ids: seq<int>       // the open elements
    ghost var state: Dom.State    // what has been built

    ghost function Stacks(): set<object>
      reads this
    {
      (if doc == null then {} else {doc}) + if treeDoc == null then {} else {treeDoc}
    }

    ghost predicate Valid()
      reads this, Stacks()
    {
      && current == Current(ids) && (ids == [] ==> state.open == [])
      && (ids != [] ==> doc != null && doc != treeDoc && doc.Valid() && Building(doc.Value(), 0, ids, state.open))
      && (state.tree.None? ==> treeDoc == null && tree == NULL)
      && (state.tree.Some? ==> treeDoc != null && treeDoc.Valid() && Finished(treeDoc.Value(), tree, state.tree.value))
    }

    constructor ()
      ensures Valid() && state == Dom.EMPTY && ids == [] && doc == null && treeDoc == null
    {
      doc, current, treeDoc, tree := null, NULL, null, NULL;
      ids, state := [], Dom.EMPTY;
    }

    /** The first half of tagHook: an element is opened, a first one in a new stack. */
    method OpenTag(name: string, atts: Attrs)
      requires Valid()
      modifies this, Stacks()
      ensures Valid() && state == Dom.OpenTag(old(state), name, atts) && ids != []
      ensures doc == null || doc == old(doc) || fresh(doc)
      ensures treeDoc == null || treeDoc == old(treeDoc) || treeDoc == old(doc) || fresh(treeDoc)
    {
      hide Building, Finished, Dom.SetAttrs, Arena.Linked, Dom.SetAttr;
      if current == NULL {
        NoCurrent();
        doc := new Doc();
        assert Building(doc.Value(), 0, [], []) by { NothingBuilt(doc.Value()); }
      }
      var x := OpenElement(doc, current, name, 0, ids, state.open);
      ids := ids + [x];
      SetAttributes(doc, x, name, atts, ids, state.open);
      current := x;
      state := Dom.OpenTag(state, name, atts);
    }

    lemma NoCurrent()
      requires Valid() && current == NULL
      ensures ids == [] && state.open == []
    {
      if ids != [] {
        InnermostTag(doc.Value(), 0, ids, state.open);
      }
    }

    /** The second half: the current element ends if its name is right. */
    method CloseTag(name: string) returns (error: Error)
      requires Valid()
      modifies this
      ensures Valid() && (doc == null || doc == old(doc)) && (treeDoc == old(treeDoc) || treeDoc == old(doc))
      ensures var v := Dom.Hook(old(state), Tag(name, [], Close)); error == v.error && state == v.d
    {
      hide Building, Finished, Represents, Arena.Linked, Dom.CloseTag;
      error := Ok;
      if current == NULL {
        NoCurrent();
        return BadXml;
      }
      InnermostTag(doc.Value(), 0, ids, state.open);
      SameLength(doc.Value(), ids, state.open);
      if doc.nodes[current].name != name {
        return BadXml;
      }
      IksCopy.CloseState(doc.Value(), 0, ids, state);
      var x := doc.nodes[current].parent;
      state := Dom.CloseTag(state);
      ids := Dom.Front(ids);
      ParentIsNull(doc.Value(), ids, state.open);
      ClosedTree(old(state));
      if x != NULL {
        current := x;
      } else {
        treeDoc, tree := doc, current;
        doc, current := null, NULL;
        assert Finished(treeDoc.Value(), tree, state.tree.value) by { RootFinished(treeDoc.Value(), tree, state.tree.value); }
      }
    }

    /** cdataHook */
    method AddText(text: string)
      requires Valid()
      modifies this, Stacks()
      ensures Valid() && state == Dom.AppendText(old(state), text) && doc == old(doc) && treeDoc == old(treeDoc)
    {
      hide Building, Finished, Represents, Arena.Linked, Dom.AddText;
      if current != NULL {
        SameLength(doc.Value(), ids, state.open);
        AddCdata(doc, current, text, 0, ids, state.open);
        state := Dom.AppendText(state, text);
      } else {
        NoCurrent();
      }
    }

    /** tagHook and cdataHook: every call has exactly the effect and the answer of Dom. */
    method Call(e: Event) returns (error: Error)
      requires Valid()
      modifies this, Stacks()
      ensures Valid() && (doc == null || doc == old(doc) || fresh(doc))
      ensures treeDoc == null || treeDoc == old(treeDoc) || treeDoc == old(doc) || fresh(treeDoc)
      ensures var v := Dom.Hook(old(state), e); error == v.error && state == v.d
    {
      hide DomData.Valid;
      error := Ok;
      match e {
        case Text(text) => AddText(text);
        case Tag(name, atts, kind) =>
          if kind == Open || kind == Single {
            OpenTag(name, atts);
          }
          if kind == Close || kind == Single {
            OpenedLast(old(state), name, atts);
            error := CloseTag(name);
          }
      }
    }
  }

  /** The loop over the attributes of a tag. */
  method SetAttributes(d: Doc, x: int, name: string, atts: Attrs, ghost ids: seq<int>, ghost open: seq<Dom.Frame>)
    requires d.Valid() && Building(d.Value(), 0, ids, open + [Dom.Frame(name, [], [])]) && ids != [] && x == Current(ids)
    modifies d
    ensures d.Valid() && Building(d.Value(), 0, ids, open + [Dom.Frame(name, Dom.SetAttrs([], atts), [])])
  {
    hide Building, Dom.SetAttrs, Arena.Linked, Dom.SetAttr;
    ghost var acc: Attrs := [];
    assert atts[0..] == atts;
    var i := 0;
    while i < |atts|
      invariant i <= |atts| && d.Valid() && Building(d.Value(), 0, ids, open + [Dom.Frame(name, acc, [])])
      invariant Dom.SetAttrs(acc, atts[i..]) == Dom.SetAttrs([], atts)
    {
      IksCopy.SetAttrsFrom(acc, atts, i);
      ghost var frames := open + [Dom.Frame(name, acc, [])];
      assert Dom.Front(frames) == open;
      SetAttribute(d, x, atts[i].0, atts[i].1, 0, ids, frames);
      acc := Dom.SetAttr(acc, atts[i].0, atts[i].1);
      i := i + 1;
    }
    NoMoreAttrs(acc);
    assert atts[i..] == [];
  }

  lemma OpenedLast(d: Dom.State, name: string, atts: Attrs)
    ensures Dom.OpenTag(d, name, atts).open != [] && Dom.Last(Dom.OpenTag(d, name, atts).open).name == name
  {
  }

  lemma NothingBuilt(a: Arena)
    requires a.Linked()
    ensures Building(a, 0, [], [])
  {
  }

  lemma NoMoreAttrs(acc: Attrs)
    ensures Dom.SetAttrs(acc, []) == acc
  {
  }

  lemma SameLength(a: Arena, ids: seq<int>, open: seq<Dom.Frame>)
    requires a.Linked() && Building(a, 0, ids, open)
    ensures |ids| == |open|
  {
  }

  lemma ParentIsNull(a: Arena, ids: seq<int>, open: seq<Dom.Frame>)
    requires a.Linked() && Building(a, 0, ids, open)
    ensures Current(ids) == NULL <==> ids == []
  {
    hide Arena.Linked;
    if ids != [] {
      InnermostTag(a, 0, ids, open);
    }
  }

  lemma ClosedTree(d: Dom.State)
    requires d.open != []
    ensures |d.open| >= 2 ==> Dom.CloseTag(d).tree == d.tree && Dom.CloseTag(d).open != []
  {
  }

  lemma RootFinished(a: Arena, x: int, t: Tree)
    requires a.Linked() && a.IsRoot(x) && Represents(a, x, t, 0, |a.nodes|)
    ensures Finished(a, x, t)
  {
  }

  ghost predicate Finished(a: Arena, x: int, t: Tree)
    requires a.Linked()
  {
    a.IsRoot(x) && Represents(a, x, t, 0, |a.nodes|)
  }

  // ----- iks_tree

  /** The answer of the DOM hooks to the last of these calls. */
  function Answer(calls: seq<Event>): Error {
    Dom.Build(Dom.EMPTY, calls).error
  }

  /** What the hooks make of everything a run of the parser delivers. */
  function Made(r: SaxMachine.Result): Dom.Verdict {
    Dom.Build(Dom.EMPTY, r.m.out)
  }

  /** The first error, of a hook or of the parser. */
  function FirstError(r: SaxMachine.Result): Error {
    if Made(r).error != Ok then Made(r).error else r.error
  }

  /** The same for the run over one string. */
  function Heard(xml: string): Dom.Verdict {
    Made(SaxMachine.Run(SaxMachine.START, xml))
  }

  function TreeError(xml: string): Error {
    FirstError(SaxMachine.Run(SaxMachine.START, xml))
  }

  lemma ReportsNonEmpty(calls: seq<Report>)
    ensures Dom.NonEmptyTexts(calls)
  {
  }

  lemma AcceptedMeans(calls: seq<Event>)
    requires Sax.Accepted(Answer, [], calls)
    ensures Dom.Build(Dom.EMPTY, calls).error == Ok
  {
    assert calls[..|calls|] == calls;
  }

  /** Text in front of an error, which is never delivered, would not change the finished roots. */
  lemma BuildBehind(d: Dom.State, flat: seq<Event>, text: string)
    requires Dom.Build(d, flat).error == Ok
    ensures var v, w := Dom.Build(d, flat), Dom.Build(d, flat + Chars(text)); w.error == Ok && w.d.tree == v.d.tree
  {
    hide Dom.Build, Chars, Dom.AddText;
    Dom.BuildConcat(d, flat, Chars(text));
    Dom.BuildChars(Dom.Build(d, flat).d, text);
  }

  /** What the calls made of the hooks say about the run r. */
  lemma CallsTell(r: SaxMachine.Result, calls: seq<Report>, err: Error, refused: bool)
    requires
      if refused then Sax.Refused(Answer, [], calls, err) && Flat(calls) <= r.m.out
      else err == r.error && Sax.Accepted(Answer, [], calls) && Sax.TextBehind(calls, r.m.out)
    ensures err == FirstError(r) && Dom.Build(Dom.EMPTY, calls).d.tree == Made(r).d.tree
    ensures Dom.Build(Dom.EMPTY, calls).error == if refused then err else Ok
  {
    hide Dom.Build, Flat, Chars, Sax.Accepted;
    var out := r.m.out;
    ReportsNonEmpty(calls);
    Dom.BuildFlat(Dom.EMPTY, calls);
    if refused {
      Dom.BuildConcat(Dom.EMPTY, Flat(calls), out[|Flat(calls)|..]);
      assert Flat(calls) + out[|Flat(calls)|..] == out;
    } else {
      AcceptedMeans(calls);
      var text :| out == Flat(calls) + Chars(text);
      BuildBehind(Dom.EMPTY, Flat(calls), text);
    }
  }

  /** Tells the DOM hooks the calls a parser has made, up to the first one they refuse. */
  method Replay(calls: seq<Event>, dom: DomData)
    requires dom.Valid()
    modifies dom, dom.Stacks()
    ensures dom.Valid() && dom.state == Dom.Build(old(dom.state), calls).d
    ensures dom.doc == null || dom.doc == old(dom.doc) || fresh(dom.doc)
    ensures dom.treeDoc == null || dom.treeDoc == old(dom.treeDoc) || dom.treeDoc == old(dom.doc) || fresh(dom.treeDoc)
    decreases |calls|
  {
    hide DomData.Valid, Dom.Hook;
    if calls != [] {
      var error := dom.Call(calls[0]);
      if error == Ok {
        Replay(calls[1..], dom);
      }
    }
  }

  /** The parser's run over the whole string. */
  method ParseAll(xml: string) returns (err: Error, calls: seq<Report>, ghost refused: bool)
    ensures err == TreeError(xml) && Dom.Build(Dom.EMPTY, calls).d.tree == Heard(xml).d.tree
  {
    hide Dom.Build, SaxMachine.Run, Flat, Chars, Sax.Accepted, Sax.Refused, Sax.Parser.Ready, Sax.TextBehind;
    var hooks := new Sax.Hooks(Answer);
    var parser := new Sax.Parser(hooks);
    NoCallsYet();
    err, refused := parser.Parse(xml);
    calls := hooks.calls;
    if !refused && err == Ok {
      parser.ReadyFlat();
      FlatBehind(calls, parser.machine.out);
    }
    CallsTell(SaxMachine.Run(SaxMachine.START, xml), calls, err, refused);
  }

  lemma NoCallsYet()
    ensures SaxLaws.NewBuffer(SaxMachine.START.(out := Flat([]))) == SaxMachine.START
  {
  }

  lemma FlatBehind(calls: seq<Event>, out: seq<Event>)
    requires Flat(calls) == out
    ensures Sax.TextBehind(calls, out)
  {
    assert out == Flat(calls) + Chars("");
  }

  /** iks_tree: the first error, and the last finished root, also when there is an error. The parser's
      calls are replayed to the hooks: they meet only through the calls and their answers. */
  method IksTree(xml: string) returns (err: Error, doc: Doc?, root: int)
    ensures err == TreeError(xml)
    ensures match Heard(xml).d.tree
      case None => root == NULL
      case Some(t) => doc != null && fresh(doc) && doc.Valid() && Finished(doc.Value(), root, t)
  {
    hide Dom.Build, SaxMachine.Run, Building, Finished, Arena.Linked, Heard, TreeError;
    var calls;
    ghost var refused;
    err, calls, refused := ParseAll(xml);
    var dom := new DomData();
    Replay(calls, dom);
    doc, root := dom.treeDoc, dom.tree;
  }

  /** The parser's runs over the pieces of a document. */
  method ParseEach(pieces: seq<string>) returns (err: Error, calls: seq<Report>, ghost refused: bool)
    ensures var cut := SaxLaws.RunPieces(SaxMachine.START, pieces);
      err == FirstError(cut) && Dom.Build(Dom.EMPTY, calls).d.tree == Made(cut).d.tree
  {
    hide Dom.Build, SaxMachine.Run, Flat, Chars, Sax.Accepted, Sax.Refused, Sax.Parser.Ready, Sax.TextBehind,
      SaxLaws.Join, SaxLaws.RunPieces, SaxLaws.CutsHarmlessly;
    var hooks := new Sax.Hooks(Answer);
    var parser := new Sax.Parser(hooks);
    NoCallsYet();
    err, refused := parser.ParsePieces(pieces);
    calls := hooks.calls;
    ghost var cut := SaxLaws.RunPieces(SaxMachine.START, pieces);
    if !refused && err == Ok {
      FlatBehind(calls, cut.m.out);
    }
    CallsTell(cut, calls, err, refused);
  }

  const FILE_IO_BUF_SIZE := 4096

  /** What fread makes of a file: full blocks and a shorter last one, never an empty one. */
  function Blocks(file: string): (pieces: seq<string>)
    ensures SaxLaws.Join(pieces) == file && forall i :: 0 <= i < |pieces| ==> pieces[i] != ""
  {
    if |file| <= FILE_IO_BUF_SIZE then if file == "" then [] else [file]
    else [file[..FILE_IO_BUF_SIZE]] + Blocks(file[FILE_IO_BUF_SIZE..])
  }

  /** iks_load on a file that can be read: the error and the tree are those of the blocks, and those of the whole
      file in one string unless a block ends inside a character of a name or a value. In an ASCII file none does. */
  method IksLoad(file: string) returns (err: Error, doc: Doc?, root: int)
    ensures var cut := SaxLaws.RunPieces(SaxMachine.START, Blocks(file));
      && err == FirstError(cut)
      && match Made(cut).d.tree
         case None => root == NULL
         case Some(t) => doc != null && fresh(doc) && doc.Valid() && Finished(doc.Value(), root, t)
    ensures SaxLaws.CutsHarmlessly(SaxMachine.START, Blocks(file)) ==>
      err == TreeError(file) && Heard(file).d.tree == Made(SaxLaws.RunPieces(SaxMachine.START, Blocks(file))).d.tree
    ensures SaxLaws.AllAscii(file) ==> SaxLaws.CutsHarmlessly(SaxMachine.START, Blocks(file))
  {
    hide Dom.Build, SaxMachine.Run, Building, Finished, Arena.Linked, Heard, TreeError, Made, FirstError, SaxLaws.Join,
      SaxLaws.RunPieces, SaxLaws.CutsHarmlessly, SaxLaws.AllAscii, Blocks;
    var calls;
    ghost var refused;
    err, calls, refused := ParseEach(Blocks(file));
    var dom := new DomData();
    Replay(calls, dom);
    doc, root := dom.treeDoc, dom.tree;
    WholeFile(file);
  }

  lemma WholeFile(file: string)
    ensures SaxLaws.CutsHarmlessly(SaxMachine.START, Blocks(file)) ==>
      var cut := SaxLaws.RunPieces(SaxMachine.START, Blocks(file));
      TreeError(file) == FirstError(cut) && Heard(file).d.tree == Made(cut).d.tree
    ensures SaxLaws.AllAscii(file) ==> SaxLaws.CutsHarmlessly(SaxMachine.START, Blocks(file))
  {
    hide Dom.Build, SaxLaws.Join, Blocks;
    var pieces := Blocks(file);
    assert SaxLaws.NewBuffer(SaxMachine.START) == SaxMachine.START;
    if pieces == [] {
      assert file == "" by { NothingJoined(); }
    } else if SaxLaws.CutsHarmlessly(SaxMachine.START, pieces) {
      hide SaxMachine.Run, SaxLaws.RunPieces;
      SaxLaws.ChunkIndependence(SaxMachine.START, pieces);
    }
    if SaxLaws.AllAscii(file) {
      SaxLaws.AsciiPieces(pieces);
      SaxLaws.CharacterCuts(SaxMachine.START, pieces);
    }
  }

  lemma NothingJoined()
    ensures SaxLaws.Join([]) == ""
  {
  }

  /** Print a tree, read it back: from nodes to a string to nodes. */
  method PrintAndRead(d: Doc, x: int, ghost t: Tree) returns (err: Error, doc: Doc?, root: int)
    requires d.Valid() && t.Element? && RoundTrip.Printable(t) && Represents(d.Value(), x, t, 0, |d.nodes|)
    ensures err == Ok && doc != null && fresh(doc) && doc.Valid() && Finished(doc.Value(), root, RoundTrip.Reread(t))
  {
    hide Arena.Linked, RoundTrip.Printable, Print, Dom.Build, SaxMachine.Run, RoundTrip.Reread, Finished;
    RepresentsNode(d.Value(), x, t);
    var ret := IksString.IksString(d, x, false, t);
    IksCopy.RepresentedDistinct(d.Value(), x, t, 0, |d.nodes|);
    RoundTrip.RoundTrip(t);
    assert ret[..ret.Length - 1] == Print(t);
    err, doc, root := IksTree(ret[..ret.Length - 1]);
  }

  lemma RepresentsNode(a: Arena, x: int, t: Tree)
    requires a.Linked() && Represents(a, x, t, 0, |a.nodes|)
    ensures x != NULL
  {
  }

  // ----- when there is an error

  /** The events in front of the first closing tag that does not name the innermost open tag. */
  function NestedPart(stack: seq<string>, es: seq<Event>): seq<Event>
    decreases |es|
  {
    if es == [] then []
    else
      match es[0]
      case Text(_) => [es[0]] + NestedPart(stack, es[1..])
      case Tag(_, _, Single) => [es[0]] + NestedPart(stack, es[1..])
      case Tag(name, _, Open) => [es[0]] + NestedPart(stack + [name], es[1..])
      case Tag(name, _, Close) =>
        if stack != [] && Dom.Last(stack) == name then [es[0]] + NestedPart(Dom.Front(stack), es[1..]) else []
  }

  lemma {:induction false} NestedPartBuilds(d: Dom.State, es: seq<Event>)
    ensures Dom.Build(d, NestedPart(DomLaws.Names(d.open), es)) == Dom.Verdict(Dom.Build(d, es).d, Ok)
    decreases |es|
  {
    hide Dom.Hook, DomLaws.Names;
    if es != [] {
      var v := Dom.Hook(d, es[0]);
      RefusedSame(d, es[0]);
      DomLaws.HookNames(d, es[0]);
      DomLaws.NamesLength(d.open);
      if v.error == Ok {
        NestedPartBuilds(v.d, es[1..]);
        var rest := NestedPart(DomLaws.Names(v.d.open), es[1..]);
        assert ([es[0]] + rest)[1..] == rest;
      }
    }
  }

  /** A refused event changes nothing. */
  lemma RefusedSame(d: Dom.State, e: Event)
    ensures Dom.Hook(d, e).error != Ok ==> Dom.Hook(d, e).d == d
  {
  }

  /** Exactly when iks_tree hands out no tree: when no top-level element has ended in front of the first byte or
      closing tag in error. That there is an error does not matter. */
  lemma NoTreeIff(xml: string)
    ensures Heard(xml).d.tree.None?
       <==> DomLaws.RootEnds(0, NestedPart([], SaxMachine.Run(SaxMachine.START, xml).m.out)) == 0
  {
    hide SaxMachine.Run, Dom.Build, DomLaws.RootEnds, NestedPart, DomLaws.Roots;
    var out := SaxMachine.Run(SaxMachine.START, xml).m.out;
    var es := NestedPart([], out);
    assert DomLaws.Names(Dom.EMPTY.open) == [];
    NestedPartBuilds(Dom.EMPTY, out);
    DomLaws.TreeIsLastRoot(Dom.EMPTY, es);
    DomLaws.RootsAreCounted(Dom.EMPTY, es);
  }

  /** So an error and a tree can come together: a stray closing tag behind any printed element. */
  lemma TreeInSpiteOfError(t: Tree, name: string)
    requires t.Element? && RoundTrip.Printable(t) && Dom.DistinctNames(t) && RoundTrip.TagName(name)
    ensures var xml := Print(t) + ("</" + name + ">");
      TreeError(xml) == BadXml && Heard(xml).d.tree == Some(RoundTrip.Reread(t))
  {
    hide SaxMachine.Run, SaxMachine.Step, Dom.Build, Print, RoundTrip.Printable, RoundTrip.TagName, RoundTrip.Reread;
    RoundTrip.RunPrint(SaxMachine.START, t);
    RoundTrip.RoundTrip(t);
    var r := SaxMachine.Run(SaxMachine.START, Print(t));
    RoundTrip.RunClose(r.m, name);
    SaxLaws.RunConcat(SaxMachine.START, Print(t), "</" + name + ">");
    Dom.BuildConcat(Dom.EMPTY, r.m.out, [Tag(name, [], Close)]);
    Dom.BuildOne(Dom.State([], Some(RoundTrip.Reread(t))), Tag(name, [], Close));
  }

  // ----- a section that does not end

  lemma NoEndHere()
    ensures var s := "]]]></a>"; SaxLaws.AllAscii(s) && forall j: nat :: j < |s| ==> !SaxLaws.Ends(s, j)
  {
    var s := "]]]></a>";
    SaxLaws.FirstXmlEndHere();
    assert s[..3] == "]]]>"[..3];
    assert s[..7][6] == 'a';
  }

  lemma OnlyText(d: Dom.State, text: string)
    requires d.tree == None
    ensures var v := Dom.Build(d, [Tag("a", [], Open)] + Chars(text)); v.error == Ok && v.d.tree == None
  {
    hide Dom.Build, Chars, Dom.AddText;
    var open := Tag("a", [], Open);
    Dom.BuildOne(d, open);
    Dom.BuildConcat(d, [open], Chars(text));
    Dom.BuildChars(Dom.Build(d, [open]).d, text);
  }

  /** Whatever stands behind the opener of a section that does not end is text. */
  lemma SectionSwallows(s: string)
    requires SaxLaws.AllAscii(s) && forall j: nat :: j < |s| ==> !SaxLaws.Ends(s, j)
    ensures var xml := "<a>" + (SaxLaws.OPENER + s); TreeError(xml) == Ok && Heard(xml).d.tree == None
  {
    hide SaxMachine.Run, SaxMachine.Step, Dom.Build, SaxLaws.Ends, SaxLaws.Settled, SaxLaws.AllAscii, Chars;
    OpenA();
    var m := SaxMachine.Run(SaxMachine.START, "<a>").m;
    SaxLaws.SectionGoesOn(m, s);
    SaxLaws.RunConcat(SaxMachine.START, "<a>", SaxLaws.OPENER + s);
    OnlyText(Dom.EMPTY, SaxLaws.Settled(s));
    assert [] + [Tag("a", [], Open)] + Chars(SaxLaws.Settled(s)) == [Tag("a", [], Open)] + Chars(SaxLaws.Settled(s));
  }

  /** A document that is well-formed in XML 1.0, an element with the text "]" in a section: the parser takes the end of
      the section and of the element for text, reports no error, and there is no tree. */
  lemma SectionWithoutEnd()
    ensures var xml := "<a><![CDATA[" + "]]]></a>"; TreeError(xml) == Ok && Heard(xml).d.tree == None
  {
    hide TreeError, Heard, SaxLaws.Ends, SaxLaws.AllAscii;
    NoEndHere();
    SectionSwallows("]]]></a>");
    assert "<a><![CDATA[" + "]]]></a>" == "<a>" + (SaxLaws.OPENER + "]]]></a>");
  }

  lemma OpenA()
    ensures RoundTrip.Delivers(SaxMachine.START, "<a>", [Tag("a", [], Open)])
  {
    hide SaxMachine.Run, SaxMachine.Step;
    RoundTrip.RunTag(SaxMachine.START, "a", [], false);
    assert "<" + "a" + PrintAttrs([]) + ">" == "<a>";
    assert RoundTrip.EscapeAttrs([]) == [];
  }
}

/** What the DOM hooks of dom.c do with a sequence of events, on tree values. The class in
    DomHooks.dfy, which builds the linked nodes, is proved against these functions. */
module Dom {
  import opened Xml

  /** An element whose end has not been seen. */
  datatype Frame = Frame(name: string, atts: Attrs, kids: seq<Tree>)

  /** The open elements, outermost first, and the last finished root. */
  datatype State = State(open: seq<Frame>, tree: Option<Tree>)

  const EMPTY := State([], None)

  /** iks_insert_attrib with a value: an attribute that exists is overwritten. */
  function SetAttr(atts: Attrs, name: string, value: string): Attrs {
    if atts == [] then [(name, value)]
    else if atts[0].0 == name then [(name, value)] + atts[1..]
    else [atts[0]] + SetAttr(atts[1..], name, value)
  }

  function SetAttrs(acc: Attrs, atts: Attrs): Attrs
    decreases |atts|
  {
    if atts == [] then acc else SetAttrs(SetAttr(acc, atts[0].0, atts[0].1), atts[1..])
  }

  /** iks_insert_cdata: text joins a text that is the last child. */
  function AddText(kids: seq<Tree>, text: string): seq<Tree> {
    var n := |kids|;
    if n > 0 && kids[n - 1].Cdata? then kids[..n - 1] + [Cdata(kids[n - 1].text + text)]
    else kids + [Cdata(text)]
  }

  function Last<T>(s: seq<T>): T
    requires s != []
  {
    s[|s| - 1]
  }

  function Front<T>(s: seq<T>): seq<T>
    requires s != []
  {
    s[..|s| - 1]
  }

  function OpenTag(d: State, name: string, atts: Attrs): State {
    d.(open := d.open + [Frame(name, SetAttrs([], atts), [])])
  }

  function Closed(f: Frame): Tree {
    Element(f.name, f.atts, f.kids)
  }

  function AddKid(f: Frame, t: Tree): Frame {
    f.(kids := f.kids + [t])
  }

  /** A finished tree goes to the enclosing element, or becomes the result. */
  function Deliver(d: State, t: Tree): State {
    if d.open == [] then d.(tree := Some(t))
    else d.(open := Front(d.open) + [AddKid(Last(d.open), t)])
  }

  function CloseTag(d: State): State
    requires d.open != []
  {
    Deliver(d.(open := Front(d.open)), Closed(Last(d.open)))
  }

  function AppendText(d: State, text: string): State {
    if d.open == [] then d
    else
      var f := Last(d.open);
      d.(open := Front(d.open) + [f.(kids := AddText(f.kids, text))])
  }

  datatype Verdict = Verdict(d: State, error: Error)

  function Hook(d: State, e: Event): Verdict {
    match e
    case Text(text) => Verdict(AppendText(d, text), Ok)
    case Tag(name, atts, Open) => Verdict(OpenTag(d, name, atts), Ok)
    case Tag(name, atts, Single) => Verdict(CloseTag(OpenTag(d, name, atts)), Ok)
    case Tag(name, _, Close) =>
      if d.open == [] || Last(d.open).name != name then Verdict(d, BadXml)
      else Verdict(CloseTag(d), Ok)
  }

  /** The hooks on a sequence of events, up to the first one they refuse. */
  function Build(d: State, es: seq<Event>): Verdict
    decreases |es|
  {
    if es == [] then Verdict(d, Ok)
    else
      var v := Hook(d, es[0]);
      if v.error == Ok then Build(v.d, es[1..]) else v
  }

  lemma {:induction false} BuildConcat(d: State, x: seq<Event>, y: seq<Event>)
    ensures var v := Build(d, x);
      Build(d, x + y) == if v.error == Ok then Build(v.d, y) else v
    decreases |x|
  {
    if x == [] {
      assert x + y == y;
    } else {
      assert (x + y)[1..] == x[1..] + y;
      var v := Hook(d, x[0]);
      if v.error == Ok {
        BuildConcat(v.d, x[1..], y);
      }
    }
  }

  lemma BuildOne(d: State, e: Event)
    ensures Build(d, [e]) == Hook(d, e)
  {
    assert [e][1..] == [];
  }

  // ----- how a text is cut does not matter

  lemma AddTextTwice(kids: seq<Tree>, s: string, t: string)
    ensures AddText(AddText(kids, s), t) == AddText(kids, s + t)
  {
    var n := |kids|;
    if n > 0 && kids[n - 1].Cdata? {
      assert (kids[n - 1].text + s) + t == kids[n - 1].text + (s + t);
    }
  }

  lemma AppendTextTwice(d: State, s: string, t: string)
    ensures AppendText(AppendText(d, s), t) == AppendText(d, s + t)
  {
    if d.open != [] {
      AddTextTwice(Last(d.open).kids, s, t);
      var e := AppendText(d, s);
      assert Front(e.open) == Front(d.open);
    }
  }

  lemma {:induction false} BuildChars(d: State, s: string)
    ensures Build(d, Chars(s)) == Verdict(if s == "" then d else AppendText(d, s), Ok)
    decreases |s|
  {
    if s != "" {
      var e := AppendText(d, [s[0]]);
      BuildChars(e, s[1..]);
      assert s == [s[0]] + s[1..];
      if s[1..] == "" {
        assert s == [s[0]];
      } else {
        AppendTextTwice(d, [s[0]], s[1..]);
      }
    }
  }

  predicate NonEmptyTexts(es: seq<Event>) {
    forall i :: 0 <= i < |es| && es[i].Text? ==> es[i].text != ""
  }

  /** The hooks build the same from a call history and from its flat form. */
  lemma {:induction false} BuildFlat(d: State, es: seq<Event>)
    requires NonEmptyTexts(es)
    ensures Build(d, Flat(es)) == Build(d, es)
    decreases |es|
  {
    if es != [] {
      BuildConcat(d, FlatEvent(es[0]), Flat(es[1..]));
      match es[0] {
        case Text(text) => BuildChars(d, text);
        case Tag(_, _, _) => BuildOne(d, es[0]);
      }
      var v := Hook(d, es[0]);
      if v.error == Ok {
        BuildFlat(v.d, es[1..]);
      }
    }
  }

  // ----- the tree built from the events of a tree

  predicate Distinct(atts: Attrs) {
    forall i, j :: 0 <= i < j < |atts| ==> atts[i].0 != atts[j].0
  }

  lemma {:induction false} SetAttrNew(atts: Attrs, name: string, value: string)
    requires forall i :: 0 <= i < |atts| ==> atts[i].0 != name
    ensures SetAttr(atts, name, value) == atts + [(name, value)]
  {
    if atts != [] {
      SetAttrNew(atts[1..], name, value);
    }
  }

  lemma {:induction false} SetAttrsDistinct(acc: Attrs, atts: Attrs)
    requires Distinct(acc + atts)
    ensures SetAttrs(acc, atts) == acc + atts
    decreases |atts|
  {
    if atts == [] {
      assert acc + atts == acc;
    } else {
      forall i | 0 <= i < |acc|
        ensures acc[i].0 != atts[0].0
      {
        assert (acc + atts)[i].0 != (acc + atts)[|acc|].0;
      }
      SetAttrNew(acc, atts[0].0, atts[0].1);
      assert acc + [(atts[0].0, atts[0].1)] + atts[1..] == acc + atts;
      SetAttrsDistinct(acc + [(atts[0].0, atts[0].1)], atts[1..]);
    }
  }

  /** Adjacent texts joined, empty texts dropped. */
  function Merged(t: Tree): Tree
    decreases t, 1
  {
    match t
    case Cdata(_) => t
    case Element(name, atts, kids) => Element(name, atts, MergeOnto([], kids))
  }

  function MergeOnto(acc: seq<Tree>, kids: seq<Tree>): seq<Tree>
    decreases kids, 0
  {
    if kids == [] then acc else MergeOnto(Join(acc, kids[0]), kids[1..])
  }

  function Join(acc: seq<Tree>, t: Tree): seq<Tree>
    decreases t, 2
  {
    match t
    case Cdata(text) => if text == "" then acc else AddText(acc, text)
    case Element(_, _, _) => acc + [Merged(t)]
  }

  predicate DistinctNames(t: Tree) {
    t.Element? ==> Distinct(t.atts) && forall k :: k in t.kids ==> DistinctNames(k)
  }

  /** The children of the innermost open element are replaced. */
  function WithKids(d: State, kids: seq<Tree>): State
    requires d.open != []
  {
    d.(open := Front(d.open) + [Last(d.open).(kids := kids)])
  }

  function Receive(d: State, t: Tree): State {
    if t.Element? then Deliver(d, Merged(t)) else if t.text == "" then d else AppendText(d, t.text)
  }

  /** The events of a tree are accepted and rebuild that tree with its texts merged. */
  lemma {:induction false} BuildTree(d: State, t: Tree)
    requires DistinctNames(t)
    ensures Build(d, Flat(Events(t))) == Verdict(Receive(d, t), Ok)
    decreases t, 1
  {
    match t
    case Cdata(text) =>
      FlatOne(Text(text));
      BuildChars(d, text);
    case Element(name, atts, kids) =>
      SetAttrsDistinct([], atts);
      assert [] + atts == atts;
      if kids == [] {
        BuildSingle(d, name, atts);
      } else {
        BuildKids(OpenTag(d, name, atts), kids);
        BuildElement(d, name, atts, kids);
      }
  }

  lemma BuildSingle(d: State, name: string, atts: Attrs)
    requires SetAttrs([], atts) == atts
    ensures Build(d, Flat(Events(Element(name, atts, [])))) == Verdict(Deliver(d, Element(name, atts, [])), Ok)
    ensures Merged(Element(name, atts, [])) == Element(name, atts, [])
  {
    hide Build, SetAttrs;
    var e := Tag(name, atts, Single);
    FlatOne(e);
    BuildOne(d, e);
    ClosesOpened(d, name, atts, []);
  }

  lemma BuildElement(d: State, name: string, atts: Attrs, kids: seq<Tree>)
    requires SetAttrs([], atts) == atts && kids != []
    requires Build(OpenTag(d, name, atts), Flat(EventsAll(kids)))
          == Verdict(WithKids(OpenTag(d, name, atts), MergeOnto([], kids)), Ok)
    ensures Build(d, Flat(Events(Element(name, atts, kids)))) == Verdict(Deliver(d, Merged(Element(name, atts, kids))), Ok)
  {
    hide Build, SetAttrs, MergeOnto, EventsAll, Flat;
    var open, body, close := Tag(name, atts, Open), EventsAll(kids), Tag(name, [], Close);
    var d1, merged := OpenTag(d, name, atts), MergeOnto([], kids);
    var d2 := WithKids(d1, merged);
    FlatOne(open);
    FlatOne(close);
    FlatConcat([open] + body, [close]);
    FlatConcat([open], body);
    BuildOne(d, open);
    BuildConcat(d, [open], Flat(body));
    BuildOne(d2, close);
    BuildConcat(d, [open] + Flat(body), [close]);
    ClosesOpened(d, name, atts, merged);
  }

  lemma FlatOne(e: Event)
    ensures Flat([e]) == FlatEvent(e)
  {
    assert [e][1..] == [];
    assert FlatEvent(e) + [] == FlatEvent(e);
  }

  lemma ClosesOpened(d: State, name: string, atts: Attrs, kids: seq<Tree>)
    requires SetAttrs([], atts) == atts
    ensures CloseTag(WithKids(OpenTag(d, name, atts), kids)) == Deliver(d, Element(name, atts, kids))
    ensures WithKids(OpenTag(d, name, atts), []) == OpenTag(d, name, atts)
  {
    hide SetAttrs;
    var e := WithKids(OpenTag(d, name, atts), kids);
    assert Front(e.open) == d.open;
    assert Front(OpenTag(d, name, atts).open) == d.open;
  }

  lemma {:induction false} BuildKids(d: State, kids: seq<Tree>)
    requires d.open != [] && forall k :: k in kids ==> DistinctNames(k)
    ensures Build(d, Flat(EventsAll(kids))) == Verdict(WithKids(d, MergeOnto(Last(d.open).kids, kids)), Ok)
    decreases kids, 0
  {
    if kids == [] {
      assert d == WithKids(d, Last(d.open).kids);
    } else {
      BuildTree(d, kids[0]);
      var e := Receive(d, kids[0]);
      ReceiveIsJoin(d, kids[0]);
      FlatConcat(Events(kids[0]), EventsAll(kids[1..]));
      BuildConcat(d, Flat(Events(kids[0])), Flat(EventsAll(kids[1..])));
      BuildKids(e, kids[1..]);
    }
  }

  lemma ReceiveIsJoin(d: State, t: Tree)
    requires d.open != []
    ensures Receive(d, t) == WithKids(d, Join(Last(d.open).kids, t))
    ensures Front(Receive(d, t).open) == Front(d.open)
  {
    hide Merged;
  }
}

/** Element trees, the events a parser reports about them, and their printed form.
    Bytes are modelled as `char`; a byte of value n is the character of code n. */
module Xml {

  datatype Option<+T> = None | Some(value: T)

  datatype Error = Ok | NoMem | BadXml | Hook

  datatype TagType = Open | Close | Single

  type Attrs = seq<(string, string)>

  /** What the tag hook and the character data hook are called with. */
  datatype Event =
    | Tag(name: string, atts: Attrs, kind: TagType)
    | Text(text: string)

  /** The parser never reports an empty text. */
  type Report = e: Event | e.Text? ==> e.text != "" witness Tag("", [], Open)

  datatype Tree =
    | Element(name: string, atts: Attrs, kids: seq<Tree>)
    | Cdata(text: string)

  // ----- printing

  function EscapeChar(c: char): string {
    match c
    case '&' => "&amp;"
    case '\'' => "&apos;"
    case '"' => "&quot;"
    case '<' => "&lt;"
    case '>' => "&gt;"
    case _ => [c]
  }

  function Escape(s: string): string {
    if s == "" then "" else EscapeChar(s[0]) + Escape(s[1..])
  }

  function PrintAttrs(atts: Attrs): string {
    if atts == [] then ""
    else " " + atts[0].0 + "='" + Escape(atts[0].1) + "'" + PrintAttrs(atts[1..])
  }

  /** The recursive print of a tree, the definition the level/dir walk of iks_string is proved against. */
  function Print(t: Tree): string {
    match t
    case Cdata(text) => Escape(text)
    case Element(name, atts, kids) =>
      "<" + name + PrintAttrs(atts) +
      if kids == [] then "/>" else ">" + PrintAll(kids) + "</" + name + ">"
  }

  function PrintAll(ts: seq<Tree>): string {
    if ts == [] then "" else Print(ts[0]) + PrintAll(ts[1..])
  }

  // ----- events

  /** The event sequence of a tree, in document order. */
  function Events(t: Tree): seq<Event> {
    match t
    case Cdata(text) => [Text(text)]
    case Element(name, atts, kids) =>
      if kids == [] then [Tag(name, atts, Single)]
      else [Tag(name, atts, Open)] + EventsAll(kids) + [Tag(name, [], Close)]
  }

  function EventsAll(ts: seq<Tree>): seq<Event> {
    if ts == [] then [] else Events(ts[0]) + EventsAll(ts[1..])
  }

  function RenderEvent(e: Event): string {
    match e
    case Text(text) => Escape(text)
    case Tag(name, atts, Open) => "<" + name + PrintAttrs(atts) + ">"
    case Tag(name, atts, Single) => "<" + name + PrintAttrs(atts) + "/>"
    case Tag(name, atts, Close) => "</" + name + ">"
  }

  function Render(es: seq<Event>): string {
    if es == [] then "" else RenderEvent(es[0]) + Render(es[1..])
  }

  lemma {:induction false} RenderConcat(a: seq<Event>, b: seq<Event>)
    ensures Render(a + b) == Render(a) + Render(b)
  {
    if a == [] {
      assert a + b == b;
    } else {
      assert (a + b)[1..] == a[1..] + b;
      RenderConcat(a[1..], b);
    }
  }

  lemma RenderOne(e: Event)
    ensures Render([e]) == RenderEvent(e)
  {
    assert [e][1..] == [];
    assert RenderEvent(e) + "" == RenderEvent(e);
  }

  /** Printing is rendering the events one after the other. */
  lemma {:induction false} RenderIsPrint(t: Tree)
    ensures Render(Events(t)) == Print(t)
    decreases t, 1
  {
    match t
    case Cdata(text) =>
      RenderOne(Text(text));
    case Element(name, atts, kids) =>
      if kids == [] {
        RenderOne(Tag(name, atts, Single));
      } else {
        RenderAllIsPrint(kids);
        RenderWrapped(Tag(name, atts, Open), EventsAll(kids), Tag(name, [], Close));
        PrintWrapped(name, atts, kids);
      }
  }

  lemma RenderWrapped(open: Event, es: seq<Event>, close: Event)
    ensures Render([open] + es + [close]) == RenderEvent(open) + Render(es) + RenderEvent(close)
  {
    RenderConcat([open] + es, [close]);
    RenderConcat([open], es);
    RenderOne(open);
    RenderOne(close);
  }

  lemma PrintWrapped(name: string, atts: Attrs, kids: seq<Tree>)
    requires kids != []
    ensures Print(Element(name, atts, kids))
         == RenderEvent(Tag(name, atts, Open)) + PrintAll(kids) + RenderEvent(Tag(name, [], Close))
  {
    hide PrintAttrs, PrintAll;
    var start, body, end := "<" + name + PrintAttrs(atts), PrintAll(kids), "</" + name + ">";
    assert start + (">" + body + "</" + name + ">") == (start + ">") + body + end;
  }

  lemma {:induction false} RenderAllIsPrint(ts: seq<Tree>)
    ensures Render(EventsAll(ts)) == PrintAll(ts)
    decreases ts, 0
  {
    if ts != [] {
      RenderIsPrint(ts[0]);
      RenderAllIsPrint(ts[1..]);
      RenderConcat(Events(ts[0]), EventsAll(ts[1..]));
    }
  }

  // ----- events with the cut between texts forgotten

  function Chars(s: string): seq<Event> {
    if s == "" then [] else [Text([s[0]])] + Chars(s[1..])
  }

  function FlatEvent(e: Event): seq<Event> {
    match e
    case Text(text) => Chars(text)
    case Tag(_, _, _) => [e]
  }

  /** Texts are cut into single characters: two call histories are told apart only by
      the tags and by the text between them, not by how a text was delivered. */
  function Flat(es: seq<Event>): seq<Event> {
    if es == [] then [] else FlatEvent(es[0]) + Flat(es[1..])
  }

  lemma {:induction false} CharsConcat(s: string, t: string)
    ensures Chars(s + t) == Chars(s) + Chars(t)
  {
    if s == "" {
      assert s + t == t;
    } else {
      assert (s + t)[1..] == s[1..] + t;
      CharsConcat(s[1..], t);
    }
  }

  lemma {:induction false} CharsLength(s: string)
    ensures |Chars(s)| == |s|
    ensures forall i :: 0 <= i < |s| ==> Chars(s)[i] == Text([s[i]])
  {
    if s != "" {
      CharsLength(s[1..]);
    }
  }

  lemma {:induction false} FlatConcat(a: seq<Event>, b: seq<Event>)
    ensures Flat(a + b) == Flat(a) + Flat(b)
  {
    if a == [] {
      assert a + b == b;
    } else {
      assert (a + b)[1..] == a[1..] + b;
      FlatConcat(a[1..], b);
    }
  }

  lemma FlatSnoc(es: seq<Event>, e: Event)
    ensures Flat(es + [e]) == Flat(es) + FlatEvent(e)
  {
    FlatConcat(es, [e]);
    assert [e][1..] == [];
    assert FlatEvent(e) + [] == FlatEvent(e);
  }
}

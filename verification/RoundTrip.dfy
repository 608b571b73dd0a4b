/** Parsing what was printed: the parser machine on the printed form of a tree. */
module RoundTrip {
  import opened Xml
  import opened SaxMachine
  import opened SaxLaws
  import Dom

  // ----- the trees in question

  predicate TagByte(c: char) {
    IsAscii(c) && !IsSpace(c) && c != '/' && c != '>'
  }

  /** A tag name the parser reads back whole. */
  predicate TagName(s: string) {
    s != "" && s[0] != '?' && s[0] != '!' && forall i :: 0 <= i < |s| ==> TagByte(s[i])
  }

  /** An attribute name the parser reads back whole: only '=' ends it. */
  predicate AttributeName(s: string) {
    && s != "" && AllAscii(s) && TagByte(s[0])
    && forall i :: 1 <= i < |s| ==> s[i] != '='
  }

  predicate Printable(t: Tree) {
    match t
    case Cdata(text) => AllAscii(text)
    case Element(name, atts, kids) =>
      && TagName(name) && PrintableAttrs(atts)
      && forall k :: k in kids ==> Printable(k)
  }

  predicate PrintableAttrs(atts: Attrs) {
    forall i :: 0 <= i < |atts| ==> AttributeName(atts[i].0) && AllAscii(atts[i].1)
  }

  /** What the parser reports as attribute values: values stay escaped. */
  function EscapeAttrs(atts: Attrs): Attrs {
    if atts == [] then [] else [(atts[0].0, Escape(atts[0].1))] + EscapeAttrs(atts[1..])
  }

  function EscapeValues(t: Tree): Tree
    decreases t, 1
  {
    match t
    case Cdata(_) => t
    case Element(name, atts, kids) => Element(name, EscapeAttrs(atts), EscapeAll(kids))
  }

  function EscapeAll(ts: seq<Tree>): (r: seq<Tree>)
    ensures |r| == |ts|
    decreases ts, 0
  {
    if ts == [] then [] else [EscapeValues(ts[0])] + EscapeAll(ts[1..])
  }

  // ----- text

  predicate Delivers(m: Machine, s: string, es: seq<Event>)
    requires m.Valid()
  {
    var r := Run(m, s);
    r.error == Ok && Idle(r.m) && r.m.out == m.out + es
  }

  lemma DeliversThen(m: Machine, s: string, x: seq<Event>, t: string, y: seq<Event>)
    requires m.Valid() && Delivers(m, s, x) && Delivers(Run(m, s).m, t, y)
    ensures Delivers(m, s + t, x + y)
  {
    hide Step, Run, Idle;
    RunConcat(m, s, t);
    assert (m.out + x) + y == m.out + (x + y);
  }

  lemma EntityByte(m: Machine, c: char)
    requires m.Valid() && m.context == Entity && m.uniMax == 0 && IsAscii(c) && c != ';' && |m.entity| < 7
    ensures var o := Step(m, c);
      && o.Go? && !o.again && o.m.Valid() && o.m.context == Entity && o.m.uniMax == 0
      && o.m.entity == m.entity + [c] && o.m.out == m.out
  {
  }

  lemma {:induction false} EntityBytes(m: Machine, s: string)
    requires m.Valid() && m.context == Entity && m.uniMax == 0
    requires AllAscii(s) && ';' !in s && |m.entity| + |s| <= 7
    ensures var r := Run(m, s);
      r.error == Ok && r.m.context == Entity && r.m.uniMax == 0 && r.m.entity == m.entity + s && r.m.out == m.out
    decreases |s|
  {
    hide Step;
    if s == "" {
      assert m.entity + s == m.entity;
    } else {
      EntityByte(m, s[0]);
      EntityBytes(Step(m, s[0]).m, s[1..]);
      assert m.entity + [s[0]] + s[1..] == m.entity + s;
    }
  }

  lemma EntityStart(m: Machine)
    requires Idle(m)
    ensures var r := Run(m, "&");
      r.error == Ok && r.m.context == Entity && r.m.uniMax == 0 && r.m.entity == "" && r.m.out == m.out
  {
    hide Run;
    ReadsByte(m, '&', Step(m, '&').m);
  }

  lemma EntityEnd(m: Machine)
    requires m.Valid() && m.context == Entity && m.uniMax == 0
    ensures Delivers(m, ";", [Text([EntityChar(m.entity)])])
  {
    hide Run;
    ReadsByte(m, ';', Step(m, ';').m);
  }

  lemma RunEntity(m: Machine, name: string)
    requires Idle(m) && AllAscii(name) && ';' !in name && |name| <= 7
    ensures Delivers(m, "&" + name + ";", [Text([EntityChar(name)])])
  {
    hide Run, Step;
    EntityStart(m);
    var p := Run(m, "&").m;
    EntityBytes(p, name);
    var q := Run(p, name).m;
    assert "" + name == name;
    ReadsThen(m, "&", p, name, q);
    EntityEnd(q);
    ReadsThen(m, "&" + name, q, ";", Run(q, ";").m);
  }

  lemma RunPlain(m: Machine, c: char)
    requires Idle(m) && IsAscii(c) && c != '&' && c != '<'
    ensures Delivers(m, [c], [Text([c])])
  {
    ReadsByte(m, c, Step(m, c).m);
  }

  lemma RunEscapeChar(m: Machine, c: char)
    requires Idle(m) && IsAscii(c)
    ensures Delivers(m, EscapeChar(c), [Text([c])])
  {
    hide Step, Run;
    if c == '&' {
      RunEntity(m, "amp");
      assert "&" + "amp" + ";" == "&amp;";
    } else if c == '\'' {
      RunEntity(m, "apos");
      assert "&" + "apos" + ";" == "&apos;";
    } else if c == '"' {
      RunEntity(m, "quot");
      assert "&" + "quot" + ";" == "&quot;";
    } else if c == '<' {
      RunEntity(m, "lt");
      assert "&" + "lt" + ";" == "&lt;";
    } else if c == '>' {
      RunEntity(m, "gt");
      assert "&" + "gt" + ";" == "&gt;";
    } else {
      RunPlain(m, c);
    }
  }

  /** Escaped text is delivered unescaped. */
  lemma {:induction false} RunText(m: Machine, s: string)
    requires Idle(m) && AllAscii(s)
    ensures Delivers(m, Escape(s), Chars(s))
    decreases |s|
  {
    if s == "" {
      assert m.out + [] == m.out;
    } else {
      RunEscapeChar(m, s[0]);
      var p := Run(m, EscapeChar(s[0])).m;
      RunText(p, s[1..]);
      DeliversThen(m, EscapeChar(s[0]), [Text([s[0]])], Escape(s[1..]), Chars(s[1..]));
    }
  }

  // ----- tags

  /** Reading bytes that extend the name or value in progress. */
  predicate Extends(m: Machine, s: string, q: Machine) {
    q == m.(cur := m.cur + s, armed := m.armed || s != "", bytes := q.bytes, lines := q.lines)
  }

  /** The bytes that do not end what is being read. */
  predicate Collected(context: Context, c: char) {
    && IsAscii(c)
    && match context
       case InTag => TagByte(c)
       case AttName => c != '='
       case ValueApos => c != '\''
       case ValueQuot => c != '"'
       case _ => false
  }

  lemma CollectByte(m: Machine, c: char)
    requires m.Valid() && m.uniMax == 0 && Collected(m.context, c)
    ensures var o := Step(m, c);
      o.Go? && !o.again && o.m.Valid() && Extends(m, [c], o.m)
  {
    StepSound(m, c);
  }

  lemma {:induction false} Collect(m: Machine, s: string)
    requires m.Valid() && m.uniMax == 0 && forall i :: 0 <= i < |s| ==> Collected(m.context, s[i])
    ensures var r := Run(m, s);
      r.error == Ok && Extends(m, s, r.m)
    decreases |s|
  {
    hide Step;
    if s == "" {
      assert m.cur + s == m.cur;
    } else {
      CollectByte(m, s[0]);
      var p := Step(m, s[0]).m;
      Collect(p, s[1..]);
      assert (m.cur + [s[0]]) + s[1..] == m.cur + s;
    }
  }

  /** Inside an opening tag, behind its name or an attribute. */
  predicate Between(m: Machine, name: string, atts: Attrs, out: seq<Event>) {
    && m.Valid() && m.uniMax == 0 && m.tagType == Open && m.out == out && m.atts == atts
    && if m.context == InTag then m.cur == name && atts == []
       else m.context == Whitespace && m.oldContext in {AttStart, AttNext} && m.name == name
  }

  lemma RunLess(m: Machine)
    requires Idle(m)
    ensures var r := Run(m, "<");
      r.error == Ok && r.m.context == TagStart && r.m.uniMax == 0 && r.m.out == m.out
  {
    hide Run;
    ReadsByte(m, '<', Step(m, '<').m);
  }

  lemma RunTagStart(m: Machine, name: string)
    requires Idle(m) && TagName(name)
    ensures var r := Run(m, "<" + name);
      r.error == Ok && Between(r.m, name, [], m.out) && r.m.context == InTag
  {
    hide Run, Step;
    RunLess(m);
    var p := Run(m, "<").m;
    RunName(p, name);
    ReadsThen(m, "<", p, name, Run(p, name).m);
  }

  lemma RunName(p: Machine, name: string)
    requires p.Valid() && p.context == TagStart && p.uniMax == 0 && TagName(name)
    ensures var r := Run(p, name);
      r.error == Ok && Between(r.m, name, [], p.out) && r.m.context == InTag
  {
    hide Run, Step;
    RunFirstByte(p, name[0]);
    var q := Run(p, [name[0]]).m;
    Collect(q, name[1..]);
    assert [name[0]] + name[1..] == name;
    ReadsThen(p, [name[0]], q, name[1..], Run(q, name[1..]).m);
  }

  lemma RunFirstByte(p: Machine, c: char)
    requires p.Valid() && p.context == TagStart && p.uniMax == 0 && TagByte(c) && c != '?' && c != '!'
    ensures var r := Run(p, [c]);
      r.error == Ok && Between(r.m, [c], [], p.out) && r.m.context == InTag
  {
    hide Run;
    ReadsByte(p, c, Step(p, c).m);
  }

  /** The state in which a name is being read. */
  predicate Reading(m: Machine, context: Context, name: string, atts: Attrs, cur: string, out: seq<Event>) {
    && m.Valid() && m.uniMax == 0 && m.tagType == Open && m.out == out && m.atts == atts && m.name == name
    && m.context == context && m.cur == cur
  }

  predicate AllBlank(s: string) {
    forall i :: 0 <= i < |s| ==> IsSpace(s[i])
  }

  lemma BlankByte(m: Machine, name: string, atts: Attrs, out: seq<Event>, c: char)
    requires Between(m, name, atts, out) && IsSpace(c)
    ensures var r := Run(m, [c]);
      r.error == Ok && Between(r.m, name, atts, out) && r.m.context == Whitespace
  {
    hide Run;
    ReadsByte(m, c, Step(m, c).m);
  }

  /** White space between the parts of a tag. */
  lemma {:induction false} RunBlanks(m: Machine, name: string, atts: Attrs, out: seq<Event>, blanks: string)
    requires Between(m, name, atts, out) && AllBlank(blanks)
    ensures var r := Run(m, blanks);
      r.error == Ok && Between(r.m, name, atts, out) && (blanks != "" || m.context == Whitespace ==> r.m.context == Whitespace)
    decreases |blanks|
  {
    hide Run, Step, Between;
    BetweenValid(m, name, atts, out);
    if blanks == "" {
      RunNothing(m);
    } else {
      BlankByte(m, name, atts, out, blanks[0]);
      var p := Run(m, [blanks[0]]).m;
      RunBlanks(p, name, atts, out, blanks[1..]);
      BetweenValid(p, name, atts, out);
      ReadsThen(m, [blanks[0]], p, blanks[1..], Run(p, blanks[1..]).m);
      assert [blanks[0]] + blanks[1..] == blanks;
    }
  }

  /** The byte of a name is handed on to the context that starts an attribute. */
  lemma AgainAtName(m: Machine, c: char)
    requires m.Valid() && m.uniMax == 0 && m.context in {Whitespace, AttNext} && TagByte(c)
    ensures Step(m, c) == Go(m.(context := if m.context == AttNext then AttStart else m.oldContext), true)
  {
  }

  lemma AttStartByte(m: Machine, c: char)
    requires m.Valid() && m.uniMax == 0 && m.context == AttStart && TagByte(c)
    ensures Run(m, [c]) == Result(Count(m.(context := AttName, armed := true, cur := [c]), c), Ok)
  {
    hide Run;
    ReadsByte(m, c, Step(m, c).m);
  }

  lemma RunNameStart(m: Machine, name: string, atts: Attrs, out: seq<Event>, c: char)
    requires Between(m, name, atts, out) && m.context == Whitespace && TagByte(c)
    ensures var r := Run(m, [c]);
      r.error == Ok && Reading(r.m, AttName, name, atts, [c], out)
  {
    hide Run, Step;
    var p := m.(context := AttStart);
    AttStartByte(p, c);
    var q := Run(p, [c]).m;
    AgainAtName(m, c);
    if m.oldContext == AttNext {
      var n := m.(context := AttNext);
      AgainAtName(n, c);
      ReadsAgain(n, c, p, q);
      ReadsAgain(m, c, n, q);
    } else {
      ReadsAgain(m, c, p, q);
    }
  }

  /** An attribute as a document writes it: white space, the name, one of the two quotes, the value. */
  datatype Written = Written(blanks: string, name: string, quote: char, value: string)

  predicate WellWritten(w: Written) {
    && AllBlank(w.blanks) && AttributeName(w.name)
    && (w.quote == '\'' || w.quote == '"') && AllAscii(w.value) && w.quote !in w.value
  }

  function SpellOne(w: Written): string {
    w.blanks + w.name + ("=" + [w.quote] + w.value + [w.quote])
  }

  function Spell(ws: seq<Written>): string {
    if ws == [] then "" else SpellOne(ws[0]) + Spell(ws[1..])
  }

  /** The names and values of attributes. */
  function ValuesOf(ws: seq<Written>): Attrs {
    if ws == [] then [] else [(ws[0].name, ws[0].value)] + ValuesOf(ws[1..])
  }

  function QuoteContext(quote: char): Context {
    if quote == '\'' then ValueApos else ValueQuot
  }

  lemma RunEquals(m: Machine, name: string, atts: Attrs, att: string, out: seq<Event>, quote: char)
    requires Reading(m, AttName, name, atts, att, out) && (quote == '\'' || quote == '"')
    ensures var r := Run(m, "=" + [quote]);
      r.error == Ok && Reading(r.m, QuoteContext(quote), name, atts, "", out) && r.m.attName == att
  {
    hide Run;
    var p := Step(m, '=').m;
    ReadsByte(m, '=', p);
    var q := Step(p, quote).m;
    ReadsByte(p, quote, q);
    ReadsThen(m, "=", p, [quote], q);
  }

  lemma RunQuote(m: Machine, name: string, atts: Attrs, value: string, out: seq<Event>, quote: char)
    requires Reading(m, QuoteContext(quote), name, atts, value, out) && (quote == '\'' || quote == '"')
    ensures var r := Run(m, [quote]);
      r.error == Ok && Between(r.m, name, atts + [(m.attName, value)], out) && r.m.context == Whitespace
  {
    hide Run;
    ReadsByte(m, quote, Step(m, quote).m);
  }

  lemma {:induction false} EscapeClean(s: string)
    requires AllAscii(s)
    ensures forall i :: 0 <= i < |Escape(s)| ==> IsAscii(Escape(s)[i]) && Escape(s)[i] != '\''
  {
    if s != "" {
      EscapeClean(s[1..]);
      assert forall i :: 0 <= i < |EscapeChar(s[0])| ==> IsAscii(EscapeChar(s[0])[i]) && EscapeChar(s[0])[i] != '\'';
    }
  }

  lemma RunNameAt(p: Machine, name: string, atts: Attrs, out: seq<Event>, att: string)
    requires Between(p, name, atts, out) && p.context == Whitespace && AttributeName(att)
    ensures var r := Run(p, att);
      r.error == Ok && Reading(r.m, AttName, name, atts, att, out)
  {
    hide Step, Run;
    RunNameStart(p, name, atts, out, att[0]);
    var q := Run(p, [att[0]]).m;
    Collect(q, att[1..]);
    assert [att[0]] + att[1..] == att;
    ReadsThen(p, [att[0]], q, att[1..], Run(q, att[1..]).m);
  }

  lemma RunAttrName(m: Machine, name: string, atts: Attrs, out: seq<Event>, blanks: string, att: string)
    requires Between(m, name, atts, out) && AllBlank(blanks) && AttributeName(att) && (blanks == "" ==> m.context == Whitespace)
    ensures var r := Run(m, blanks + att);
      r.error == Ok && Reading(r.m, AttName, name, atts, att, out)
  {
    hide Step, Run, Reading, AttributeName;
    RunBlanks(m, name, atts, out, blanks);
    var p := Run(m, blanks).m;
    RunNameAt(p, name, atts, out, att);
    ReadsThen(m, blanks, p, att, Run(p, att).m);
  }

  lemma RunAttrValue(m: Machine, name: string, atts: Attrs, out: seq<Event>, att: string, quote: char, value: string)
    requires Reading(m, AttName, name, atts, att, out) && (quote == '\'' || quote == '"')
    requires AllAscii(value) && quote !in value
    ensures var r := Run(m, "=" + [quote] + value + [quote]);
      r.error == Ok && Between(r.m, name, atts + [(att, value)], out) && r.m.context == Whitespace
  {
    hide Step, Run;
    RunEquals(m, name, atts, att, out, quote);
    var p := Run(m, "=" + [quote]).m;
    Collect(p, value);
    var q := Run(p, value).m;
    assert "" + value == value;
    ReadsThen(m, "=" + [quote], p, value, q);
    RunQuote(q, name, atts, value, out, quote);
    ReadsThen(m, "=" + [quote] + value, q, [quote], Run(q, [quote]).m);
  }

  lemma RunAttr(m: Machine, name: string, done: Attrs, out: seq<Event>, w: Written)
    requires Between(m, name, done, out) && WellWritten(w) && (w.blanks == "" ==> m.context == Whitespace)
    ensures var r := Run(m, SpellOne(w));
      r.error == Ok && Between(r.m, name, done + [(w.name, w.value)], out) && r.m.context == Whitespace
  {
    hide Step, Run;
    RunAttrName(m, name, done, out, w.blanks, w.name);
    var p := Run(m, w.blanks + w.name).m;
    RunAttrValue(p, name, done, out, w.name, w.quote, w.value);
    var rest := "=" + [w.quote] + w.value + [w.quote];
    ReadsThen(m, w.blanks + w.name, p, rest, Run(p, rest).m);
  }

  lemma {:induction false} RunAttrs(m: Machine, name: string, done: Attrs, out: seq<Event>, ws: seq<Written>)
    requires Between(m, name, done, out) && (forall w :: w in ws ==> WellWritten(w))
    requires ws != [] && ws[0].blanks == "" ==> m.context == Whitespace
    ensures var r := Run(m, Spell(ws));
      r.error == Ok && Between(r.m, name, done + ValuesOf(ws), out)
    decreases |ws|
  {
    if ws == [] {
      assert done + [] == done;
    } else {
      hide *;
      SpellFirst(done, ws);
      var more := done + [(ws[0].name, ws[0].value)];
      BetweenValid(m, name, done, out);
      RunAttr(m, name, done, out, ws[0]);
      var p := Run(m, SpellOne(ws[0])).m;
      BetweenValid(p, name, more, out);
      RunAttrs(p, name, more, out, ws[1..]);
      RunConcat(m, SpellOne(ws[0]), Spell(ws[1..]));
    }
  }

  lemma SpellFirst(done: Attrs, ws: seq<Written>)
    requires ws != []
    ensures Spell(ws) == SpellOne(ws[0]) + Spell(ws[1..])
    ensures done + ValuesOf(ws) == done + [(ws[0].name, ws[0].value)] + ValuesOf(ws[1..])
  {
    hide SpellOne;
  }

  lemma BetweenValid(m: Machine, name: string, atts: Attrs, out: seq<Event>)
    ensures Between(m, name, atts, out) ==> m.Valid()
  {
  }

  lemma RunOpenEnd(m: Machine, name: string, atts: Attrs, out: seq<Event>)
    requires Between(m, name, atts, out)
    ensures var r := Run(m, ">");
      r.error == Ok && Idle(r.m) && r.m.out == out + [Tag(name, atts, Open)]
  {
    hide Run;
    var p := m.(context := TagEnd, name := name, armed := if m.context == InTag then false else m.armed);
    var q := Step(p, '>').m;
    ReadsByte(p, '>', q);
    if m.context == InTag {
      ReadsAgain(m, '>', p, q);
    } else {
      var n := m.(context := m.oldContext);
      ReadsAgain(n, '>', p, q);
      ReadsAgain(m, '>', n, q);
    }
  }

  /** The slash of a single tag. */
  lemma RunSlash(m: Machine, name: string, atts: Attrs, out: seq<Event>)
    requires Between(m, name, atts, out)
    ensures var r := Run(m, "/");
      && r.error == Ok && r.m.context == TagEnd && r.m.uniMax == 0
      && r.m.out == out && r.m.name == name && r.m.atts == atts && r.m.tagType == Single
  {
    hide Run;
    if m.context == InTag {
      ReadsByte(m, '/', Step(m, '/').m);
    } else {
      var n := m.(context := m.oldContext);
      var p := Step(n, '/').m;
      ReadsByte(n, '/', p);
      ReadsAgain(m, '/', n, p);
    }
  }

  /** The end of any tag: the tag is reported. */
  lemma RunGreater(m: Machine)
    requires m.Valid() && m.context == TagEnd && m.uniMax == 0
    ensures Delivers(m, ">", [Tag(m.name, m.atts, m.tagType)])
  {
    hide Run;
    ReadsByte(m, '>', Step(m, '>').m);
  }

  lemma RunSingleEnd(m: Machine, name: string, atts: Attrs, out: seq<Event>)
    requires Between(m, name, atts, out)
    ensures var r := Run(m, "/>");
      r.error == Ok && Idle(r.m) && r.m.out == out + [Tag(name, atts, Single)]
  {
    hide Run, Step;
    RunSlash(m, name, atts, out);
    var p := Run(m, "/").m;
    RunGreater(p);
    ReadsThen(m, "/", p, ">", Run(p, ">").m);
    assert "/" + ">" == "/>";
  }

  /** An opening or single tag, as documents write it: any white space between its parts, none needed behind a value,
      either quote around a value. */
  lemma RunWrittenTag(m: Machine, name: string, ws: seq<Written>, blanks: string, single: bool)
    requires Idle(m) && TagName(name) && AllBlank(blanks) && (forall w :: w in ws ==> WellWritten(w))
    requires ws != [] ==> ws[0].blanks != ""
    ensures Delivers(m, "<" + name + Spell(ws) + blanks + if single then "/>" else ">",
                     [Tag(name, ValuesOf(ws), if single then Single else Open)])
  {
    hide Run, Step, Spell, ValuesOf, WellWritten;
    RunTagStart(m, name);
    var p := Run(m, "<" + name).m;
    RunAttrs(p, name, [], m.out, ws);
    var atts := ValuesOf(ws);
    assert [] + atts == atts;
    var q := Run(p, Spell(ws)).m;
    ReadsThen(m, "<" + name, p, Spell(ws), q);
    RunBlanks(q, name, atts, m.out, blanks);
    var r := Run(q, blanks).m;
    ReadsThen(m, "<" + name + Spell(ws), q, blanks, r);
    if single {
      RunSingleEnd(r, name, atts, m.out);
      ReadsThen(m, "<" + name + Spell(ws) + blanks, r, "/>", Run(r, "/>").m);
    } else {
      RunOpenEnd(r, name, atts, m.out);
      ReadsThen(m, "<" + name + Spell(ws) + blanks, r, ">", Run(r, ">").m);
    }
  }

  /** Attributes as the printer writes them. */
  function Printed(atts: Attrs): seq<Written> {
    if atts == [] then [] else [Written(" ", atts[0].0, '\'', Escape(atts[0].1))] + Printed(atts[1..])
  }

  lemma {:induction false} PrintedIsWritten(atts: Attrs)
    requires PrintableAttrs(atts)
    ensures forall w :: w in Printed(atts) ==> WellWritten(w) && w.blanks != ""
    ensures Spell(Printed(atts)) == PrintAttrs(atts) && ValuesOf(Printed(atts)) == EscapeAttrs(atts)
  {
    if atts != [] {
      hide Escape, AttributeName, WellWritten, SpellOne;
      PrintedIsWritten(atts[1..]);
      PrintedOne(atts[0].0, atts[0].1);
      assert Printed(atts)[1..] == Printed(atts[1..]);
    }
  }

  lemma PrintedOne(att: string, value: string)
    requires AttributeName(att) && AllAscii(value)
    ensures var w := Written(" ", att, '\'', Escape(value));
      WellWritten(w) && w.blanks != "" && SpellOne(w) == " " + att + "='" + Escape(value) + "'"
  {
    hide Escape, AttributeName;
    EscapeClean(value);
  }

  /** A printed opening or single tag delivers its tag event. */
  lemma RunTag(m: Machine, name: string, atts: Attrs, single: bool)
    requires Idle(m) && TagName(name) && PrintableAttrs(atts)
    ensures Delivers(m, "<" + name + PrintAttrs(atts) + if single then "/>" else ">",
                     [Tag(name, EscapeAttrs(atts), if single then Single else Open)])
  {
    hide *;
    PrintedIsWritten(atts);
    BlankNothing();
    RunWrittenTag(m, name, Printed(atts), "", single);
    assert "<" + name + PrintAttrs(atts) + "" == "<" + name + PrintAttrs(atts);
  }

  lemma BlankNothing()
    ensures AllBlank("")
  {
  }

  lemma RunCloseStart(m: Machine)
    requires Idle(m)
    ensures var r := Run(m, "</");
      && r.error == Ok && r.m.context == InTag && r.m.uniMax == 0 && r.m.tagType == Close
      && r.m.cur == "" && r.m.atts == [] && r.m.out == m.out
  {
    hide Run;
    var p := Step(m, '<').m;
    ReadsByte(m, '<', p);
    var q := Step(p, '/').m;
    ReadsByte(p, '/', q);
    ReadsThen(m, "<", p, "/", q);
    assert "<" + "/" == "</";
  }

  lemma RunCloseEnd(m: Machine)
    requires m.Valid() && m.context == InTag && m.uniMax == 0 && m.tagType == Close
    ensures Delivers(m, ">", [Tag(m.cur, [], Close)])
  {
    hide Run;
    var p := EndName(m).(context := TagEnd);
    var q := Step(p, '>').m;
    ReadsByte(p, '>', q);
    ReadsAgain(m, '>', p, q);
  }

  lemma RunClose(m: Machine, name: string)
    requires Idle(m) && TagName(name)
    ensures Delivers(m, "</" + name + ">", [Tag(name, [], Close)])
  {
    hide Run, Step;
    RunCloseStart(m);
    var p := Run(m, "</").m;
    Collect(p, name);
    var q := Run(p, name).m;
    assert "" + name == name;
    ReadsThen(m, "</", p, name, q);
    RunCloseEnd(q);
    ReadsThen(m, "</" + name, q, ">", Run(q, ">").m);
  }

  // ----- trees

  /** The parser on the printed form of a tree delivers the events of the tree, with attribute
      values still escaped. */
  lemma {:induction false} RunPrint(m: Machine, t: Tree)
    requires Idle(m) && Printable(t)
    ensures Delivers(m, Print(t), Flat(Events(EscapeValues(t))))
    decreases t, 1
  {
    hide Run, Step;
    match t
    case Cdata(text) =>
      RunText(m, text);
      Dom.FlatOne(Text(text));
    case Element(name, atts, kids) =>
      RunTag(m, name, atts, kids == []);
      if kids == [] {
        Dom.FlatOne(Tag(name, EscapeAttrs(atts), Single));
      } else {
        var p := Run(m, "<" + name + PrintAttrs(atts) + ">").m;
        RunPrintAll(p, kids);
        RunElement(m, name, atts, kids);
      }
  }

  lemma RunElement(m: Machine, name: string, atts: Attrs, kids: seq<Tree>)
    requires Idle(m) && TagName(name) && kids != []
    requires Delivers(m, "<" + name + PrintAttrs(atts) + ">", [Tag(name, EscapeAttrs(atts), Open)])
    requires Delivers(Run(m, "<" + name + PrintAttrs(atts) + ">").m, PrintAll(kids), Flat(EventsAll(EscapeAll(kids))))
    ensures Delivers(m, Print(Element(name, atts, kids)), Flat(Events(EscapeValues(Element(name, atts, kids)))))
  {
    hide Run, Step, PrintAttrs, PrintAll, EscapeAttrs, EscapeAll, Flat, EventsAll;
    var start, body, end := "<" + name + PrintAttrs(atts) + ">", PrintAll(kids), "</" + name + ">";
    var open, es, close := Tag(name, EscapeAttrs(atts), Open), EventsAll(EscapeAll(kids)), Tag(name, [], Close);
    DeliversThen(m, start, [open], body, Flat(es));
    RunClose(Run(m, start + body).m, name);
    DeliversThen(m, start + body, [open] + Flat(es), end, [close]);
    assert Print(Element(name, atts, kids)) == start + body + end by {
      var head := "<" + name + PrintAttrs(atts);
      assert head + (">" + body + "</" + name + ">") == (head + ">") + body + end;
    }
    FlatConcat([open] + es, [close]);
    FlatConcat([open], es);
    Dom.FlatOne(open);
    Dom.FlatOne(close);
  }

  lemma {:induction false} RunPrintAll(m: Machine, ts: seq<Tree>)
    requires Idle(m) && forall t :: t in ts ==> Printable(t)
    ensures Delivers(m, PrintAll(ts), Flat(EventsAll(EscapeAll(ts))))
    decreases ts, 0
  {
    hide Step;
    if ts == [] {
      assert m.out + [] == m.out;
    } else {
      hide Run;
      RunPrint(m, ts[0]);
      var es, rest := Events(EscapeValues(ts[0])), EventsAll(EscapeAll(ts[1..]));
      RunPrintAll(Run(m, Print(ts[0])).m, ts[1..]);
      DeliversThen(m, Print(ts[0]), Flat(es), PrintAll(ts[1..]), Flat(rest));
      FlatConcat(es, rest);
      assert EscapeAll(ts)[0] == EscapeValues(ts[0]) && EscapeAll(ts)[1..] == EscapeAll(ts[1..]);
    }
  }

  lemma {:induction false} EscapeKeepsNames(atts: Attrs)
    ensures |EscapeAttrs(atts)| == |atts|
    ensures forall i :: 0 <= i < |atts| ==> EscapeAttrs(atts)[i] == (atts[i].0, Escape(atts[i].1))
  {
    if atts != [] {
      EscapeKeepsNames(atts[1..]);
    }
  }

  lemma {:induction false} EscapeKeepsDistinct(t: Tree)
    requires Dom.DistinctNames(t)
    ensures Dom.DistinctNames(EscapeValues(t))
    decreases t, 1
  {
    if t.Element? {
      EscapeKeepsNames(t.atts);
      EscapeAllKeepsDistinct(t.kids);
    }
  }

  lemma {:induction false} EscapeAllKeepsDistinct(ts: seq<Tree>)
    requires forall t :: t in ts ==> Dom.DistinctNames(t)
    ensures forall t :: t in EscapeAll(ts) ==> Dom.DistinctNames(t)
    decreases ts, 0
  {
    if ts != [] {
      EscapeKeepsDistinct(ts[0]);
      EscapeAllKeepsDistinct(ts[1..]);
    }
  }

  /** What a tree becomes when it is printed and parsed. */
  function Reread(t: Tree): Tree {
    Dom.Merged(EscapeValues(t))
  }

  /** The round trip: the printed form of every printable element is accepted by parser and hooks,
      and rebuilds the element with adjacent texts joined, empty texts dropped and attribute values escaped. */
  lemma RoundTrip(t: Tree)
    requires t.Element? && Printable(t) && Dom.DistinctNames(t)
    ensures var r := Run(START, Print(t));
      && r.error == Ok
      && Dom.Build(Dom.EMPTY, r.m.out) == Dom.Verdict(Dom.State([], Some(Reread(t))), Ok)
  {
    hide Run, Step, Printable, Print;
    RunPrint(START, t);
    EscapeKeepsDistinct(t);
    var es := Flat(Events(EscapeValues(t)));
    assert [] + es == es;
    Dom.BuildTree(Dom.EMPTY, EscapeValues(t));
  }

  // ----- exactly which trees come back unchanged

  predicate Clean(s: string) {
    forall i :: 0 <= i < |s| ==> s[i] !in {'&', '<', '>', '\'', '"'}
  }

  predicate CleanAttrs(atts: Attrs) {
    forall i :: 0 <= i < |atts| ==> Clean(atts[i].1)
  }

  /** No empty text and no text behind a text. */
  predicate Tidy(afterText: bool, ts: seq<Tree>)
    decreases |ts|
  {
    ts == [] || if ts[0].Cdata? then !afterText && ts[0].text != "" && Tidy(true, ts[1..])
                else Tidy(false, ts[1..])
  }

  predicate Canonical(t: Tree) {
    t.Element? ==> CleanAttrs(t.atts) && Tidy(false, t.kids) && forall k :: k in t.kids ==> Canonical(k)
  }

  lemma {:induction false} EscapeIdentityIff(s: string)
    ensures |Escape(s)| >= |s|
    ensures Clean(s) ==> Escape(s) == s
    ensures !Clean(s) ==> |Escape(s)| > |s|
  {
    if s != "" {
      EscapeIdentityIff(s[1..]);
      assert s == [s[0]] + s[1..];
      assert Clean(s) <==> s[0] !in {'&', '<', '>', '\'', '"'} && Clean(s[1..]);
    }
  }

  lemma EscapeAttrsIdentityIff(atts: Attrs)
    ensures EscapeAttrs(atts) == atts <==> CleanAttrs(atts)
  {
    EscapeKeepsNames(atts);
    forall i | 0 <= i < |atts|
      ensures EscapeAttrs(atts)[i] == atts[i] <==> Clean(atts[i].1)
    {
      EscapeIdentityIff(atts[i].1);
      assert atts[i] == (atts[i].0, atts[i].1);
    }
    if EscapeAttrs(atts) == atts {
      assert forall i :: 0 <= i < |atts| ==> EscapeAttrs(atts)[i] == atts[i];
    }
  }

  predicate EndsInText(ts: seq<Tree>) {
    ts != [] && ts[|ts| - 1].Cdata?
  }

  function MergeEach(ts: seq<Tree>): (r: seq<Tree>)
    ensures |r| == |ts|
  {
    if ts == [] then [] else [Dom.Merged(ts[0])] + MergeEach(ts[1..])
  }

  /** A tree behind others stays by itself unless it is an empty text or a text behind a text. */
  lemma JoinTidy(acc: seq<Tree>, t: Tree)
    ensures var next, tidy := Dom.Join(acc, t), t.Element? || (t.text != "" && !EndsInText(acc));
      && (tidy ==> next == acc + [Dom.Merged(t)] && (EndsInText(next) <==> t.Cdata?))
      && |next| == if tidy then |acc| + 1 else |acc|
  {
    hide Dom.Merged;
    MergedText(t);
  }

  lemma {:induction false} MergeTidy(acc: seq<Tree>, ts: seq<Tree>)
    requires Tidy(EndsInText(acc), ts)
    ensures Dom.MergeOnto(acc, ts) == acc + MergeEach(ts)
    decreases |ts|
  {
    hide Dom.Merged, Dom.Join, EndsInText;
    if ts == [] {
      assert acc + [] == acc;
    } else {
      JoinTidy(acc, ts[0]);
      MergeTidy(Dom.Join(acc, ts[0]), ts[1..]);
      assert acc + [Dom.Merged(ts[0])] + MergeEach(ts[1..]) == acc + MergeEach(ts);
    }
  }

  lemma {:induction false} MergeShortens(acc: seq<Tree>, ts: seq<Tree>)
    ensures |Dom.MergeOnto(acc, ts)| <= |acc| + |ts|
    ensures !Tidy(EndsInText(acc), ts) ==> |Dom.MergeOnto(acc, ts)| < |acc| + |ts|
    decreases |ts|
  {
    hide Dom.Merged, Dom.Join, EndsInText;
    if ts != [] {
      JoinTidy(acc, ts[0]);
      MergeShortens(Dom.Join(acc, ts[0]), ts[1..]);
    }
  }

  lemma MergedText(t: Tree)
    ensures Dom.Merged(t).Cdata? <==> t.Cdata?
    ensures t.Cdata? ==> Dom.Merged(t) == t
  {
  }

  lemma {:induction false} TidyEscaped(after: bool, ts: seq<Tree>)
    ensures Tidy(after, EscapeAll(ts)) <==> Tidy(after, ts)
    decreases |ts|
  {
    if ts != [] {
      assert EscapeAll(ts)[1..] == EscapeAll(ts[1..]);
      TidyEscaped(ts[0].Cdata?, ts[1..]);
    }
  }

  /** A tree comes back unchanged from print and parse exactly when its attribute values hold
      none of the five escaped characters and its texts are neither empty nor adjacent. */
  lemma {:induction false} RereadIdentityIff(t: Tree)
    ensures Reread(t) == t <==> Canonical(t)
    decreases t, 1
  {
    match t
    case Cdata(_) =>
    case Element(name, atts, kids) =>
      EscapeAttrsIdentityIff(atts);
      var es := EscapeAll(kids);
      MergeShortens([], es);
      TidyEscaped(false, kids);
      if Tidy(false, es) {
        MergeTidy([], es);
      }
      RereadAllIff(kids);
      assert [] + MergeEach(es) == MergeEach(es);
      assert Reread(t) == Element(name, EscapeAttrs(atts), Dom.MergeOnto([], es));
  }

  lemma {:induction false} RereadAllIff(ts: seq<Tree>)
    ensures MergeEach(EscapeAll(ts)) == ts <==> forall t :: t in ts ==> Canonical(t)
    decreases ts, 0
  {
    hide Canonical, Dom.Merged, EscapeValues;
    if ts != [] {
      RereadIdentityIff(ts[0]);
      RereadAllIff(ts[1..]);
      var r := MergeEach(EscapeAll(ts));
      assert EscapeAll(ts)[1..] == EscapeAll(ts[1..]);
      assert r[0] == Reread(ts[0]) && r[1..] == MergeEach(EscapeAll(ts[1..]));
      assert r == [r[0]] + r[1..] && ts == [ts[0]] + ts[1..];
    }
  }
}

/** A stream from its bytes to its deliveries: the parser of sax.c with the hooks of stream.c. */
module StreamParse {
  import opened Xml
  import opened Iks
  import opened Stream
  import Dom
  import DomHooks
  import RoundTrip
  import Sax
  import SaxLaws
  import SaxMachine

  // ----- how a text is cut does not matter

  lemma AppendTextTwice(s: State, x: string, y: string)
    ensures Appended(Appended(s, x), y) == Appended(s, x + y)
  {
    Dom.AppendTextTwice(Dom.State(s.open, None), x, y);
  }

  function Appended(s: State, text: string): State {
    s.(open := Dom.AppendText(Dom.State(s.open, None), text).open)
  }

  lemma {:induction false} HearChars(s: State, text: string, answer: seq<Delivery> -> Error)
    ensures Hear(s, Chars(text), answer) == Verdict(if text == "" then s else Appended(s, text), Ok)
    decreases |text|
  {
    if text != "" {
      var next := Appended(s, [text[0]]);
      HearChars(next, text[1..], answer);
      assert text == [text[0]] + text[1..];
      if text[1..] == "" {
        assert text == [text[0]];
      } else {
        AppendTextTwice(s, [text[0]], text[1..]);
      }
    }
  }

  /** The hooks hear the same in a call history and in its flat form. */
  lemma {:induction false} HearFlat(s: State, es: seq<Event>, answer: seq<Delivery> -> Error)
    requires Dom.NonEmptyTexts(es)
    ensures Hear(s, Flat(es), answer) == Hear(s, es, answer)
    decreases |es|
  {
    hide React;
    if es != [] {
      HearConcat(s, FlatEvent(es[0]), Flat(es[1..]), answer);
      HearEvent(s, es[0], answer);
      var v := React(s, es[0], answer);
      if v.error == Ok {
        HearFlat(v.s, es[1..], answer);
      }
    }
  }

  lemma HearEvent(s: State, e: Event, answer: seq<Delivery> -> Error)
    requires e.Text? ==> e.text != ""
    ensures Hear(s, FlatEvent(e), answer) == React(s, e, answer)
  {
    match e
    case Text(text) => HearChars(s, text, answer);
    case Tag(_, _, _) => HearOne(s, e, answer);
  }

  // ----- the answers of the user's hook

  /** What the user's hook returns: replies(k) to the k-th delivery. */
  function Answers(replies: nat -> Error): seq<Delivery> -> Error {
    (out: seq<Delivery>) => if out == [] then Ok else replies(|out| - 1)
  }

  const NEW := State([], [])

  /** The answer of the stream's hooks to the last of these calls. */
  function Reaction(replies: nat -> Error): seq<Event> -> Error {
    (calls: seq<Event>) => Hear(NEW, calls, Answers(replies)).error
  }

  /** One event makes at most one delivery, so one reply decides. */
  lemma ReplyDecides(s: State, e: Event, replies: nat -> Error)
    ensures var reply := replies(|s.out|); React(s, e, Answers(replies)) == React(s, e, out => reply)
  {
    hide Dom.SetAttrs, Dom.AppendText, Dom.CloseTag, Finished;
  }

  // ----- what a run of the parser makes the hooks do

  /** What the hooks make of everything a run of the parser delivers. */
  function Told(r: SaxMachine.Result, replies: nat -> Error): Verdict {
    Hear(NEW, r.m.out, Answers(replies))
  }

  /** The first error, of a hook or of the parser. */
  function FirstError(r: SaxMachine.Result, replies: nat -> Error): Error {
    if Told(r, replies).error != Ok then Told(r, replies).error else r.error
  }

  lemma AcceptedMeans(calls: seq<Event>, replies: nat -> Error)
    requires Sax.Accepted(Reaction(replies), [], calls)
    ensures Hear(NEW, calls, Answers(replies)).error == Ok
  {
    assert calls[..|calls|] == calls;
    assert calls != [] ==> Reaction(replies)(calls) == Ok;
  }

  lemma HearBehind(flat: seq<Event>, text: string, replies: nat -> Error)
    requires Hear(NEW, flat, Answers(replies)).error == Ok
    ensures var v, w := Hear(NEW, flat, Answers(replies)), Hear(NEW, flat + Chars(text), Answers(replies));
      w.error == Ok && w.s.out == v.s.out
  {
    hide Hear, Chars, Dom.AppendText;
    HearConcat(NEW, flat, Chars(text), Answers(replies));
    HearChars(Hear(NEW, flat, Answers(replies)).s, text, Answers(replies));
  }

  /** What the calls made of the hooks say about the run r. */
  lemma CallsTell(r: SaxMachine.Result, calls: seq<Report>, err: Error, refused: bool, replies: nat -> Error)
    requires
      if refused then Sax.Refused(Reaction(replies), [], calls, err) && Flat(calls) <= r.m.out
      else err == r.error && Sax.Accepted(Reaction(replies), [], calls) && Sax.TextBehind(calls, r.m.out)
    ensures err == FirstError(r, replies)
    ensures Hear(NEW, calls, Answers(replies)).s.out == Told(r, replies).s.out
  {
    hide Hear, Flat, Chars, Sax.Accepted, Answers;
    var out := r.m.out;
    DomHooks.ReportsNonEmpty(calls);
    HearFlat(NEW, calls, Answers(replies));
    if refused {
      HearConcat(NEW, Flat(calls), out[|Flat(calls)|..], Answers(replies));
      assert Flat(calls) + out[|Flat(calls)|..] == out;
    } else {
      AcceptedMeans(calls, replies);
      var text :| out == Flat(calls) + Chars(text);
      HearBehind(Flat(calls), text, replies);
    }
  }

  /** The parser's runs over the pieces a stream comes in. */
  method ParseEach(pieces: seq<string>, replies: nat -> Error) returns (err: Error, calls: seq<Report>)
    ensures var r := SaxLaws.RunPieces(SaxMachine.START, pieces);
      err == FirstError(r, replies) && Hear(NEW, calls, Answers(replies)).s.out == Told(r, replies).s.out
  {
    hide Hear, SaxMachine.Run, Flat, Chars, Sax.Accepted, Sax.Refused, Sax.Parser.Ready, Sax.TextBehind,
      SaxLaws.Join, SaxLaws.RunPieces, SaxLaws.CutsHarmlessly, Answers, Reaction;
    var hooks := new Sax.Hooks(Reaction(replies));
    var parser := new Sax.Parser(hooks);
    DomHooks.NoCallsYet();
    ghost var refused;
    err, refused := parser.ParsePieces(pieces);
    calls := hooks.calls;
    ghost var r := SaxLaws.RunPieces(SaxMachine.START, pieces);
    if !refused && err == Ok {
      DomHooks.FlatBehind(calls, r.m.out);
    }
    CallsTell(r, calls, err, refused, replies);
  }

  // ----- the hooks on linked nodes

  /** What has been handed over is at hand: the k-th node stands for the k-th delivery, in a stack that the hooks do
      not touch any more. */
  ghost predicate AtHand(sent: seq<Sent>, out: seq<Delivery>, doc: Doc?)
    reads set p | p in sent :: p.doc
  {
    && |sent| == |out|
    && forall k :: 0 <= k < |sent| ==> HandedOver(sent[k], out[k]) && (sent[k].doc != null ==> sent[k].doc != doc)
  }

  lemma AtHandMore(sent: seq<Sent>, before: seq<Delivery>, more: Sent, after: seq<Delivery>, doc: Doc?)
    requires |sent| == |before| && OneMore(before, after, true) && HandedOver(more, Dom.Last(after))
    requires forall k :: 0 <= k < |sent| ==> HandedOver(sent[k], before[k])
    requires doc == null
    ensures AtHand(sent + [more], after, doc)
  {
    hide HandedOver;
    forall k | 0 <= k < |sent|
      ensures HandedOver((sent + [more])[k], after[k])
    {
      assert after[..|before|][k] == before[k];
    }
  }

  /** Tells the stream's hooks the calls a parser has made, up to the first one they refuse. */
  method Replay(calls: seq<Event>, replies: nat -> Error) returns (stream: StreamData, sent: seq<Sent>)
    ensures fresh(stream) && stream.Valid() && stream.state == Hear(NEW, calls, Answers(replies)).s
    ensures AtHand(sent, stream.state.out, stream.doc)
  {
    hide StreamData.Valid, React, HandedOver, Answers;
    stream := new StreamData();
    sent := [];
    var i, error := 0, Ok;
    assert calls[0..] == calls && AtHand([], [], null) by { NothingAtHand(); }
    while i < |calls| && error == Ok
      invariant i <= |calls| && fresh(stream) && stream.Valid() && (stream.doc == null || fresh(stream.doc))
      invariant forall p :: p in sent && p.doc != null ==> fresh(p.doc)
      invariant AtHand(sent, stream.state.out, stream.doc)
      invariant Hear(NEW, calls, Answers(replies))
             == if error == Ok then Hear(stream.state, calls[i..], Answers(replies)) else Verdict(stream.state, error)
    {
      ghost var before, rest := stream.state, calls[i..];
      assert rest[0] == calls[i] && rest[1..] == calls[i + 1..];
      ReplyDecides(before, calls[i], replies);
      var more;
      error, more := stream.Call(calls[i], replies(|sent|));
      if more.Some? {
        AtHandMore(sent, before.out, more.value, stream.state.out, stream.doc);
        sent := sent + [more.value];
      }
      i := i + 1;
    }
    if error == Ok {
      assert calls[i..] == [];
    }
  }

  lemma NothingAtHand()
    ensures AtHand([], [], null)
  {
  }

  /** iks_recv, as often as data comes: the first error and everything handed out are those of the pieces, and
      those of the whole stream in one piece unless a boundary splits a character of a name or a value. */
  method Receive(pieces: seq<string>, replies: nat -> Error)
    returns (err: Error, stream: StreamData, sent: seq<Sent>)
    ensures fresh(stream) && stream.Valid() && AtHand(sent, stream.state.out, stream.doc)
    ensures var r := SaxLaws.RunPieces(SaxMachine.START, pieces);
      err == FirstError(r, replies) && stream.state.out == Told(r, replies).s.out
    ensures pieces != [] && SaxLaws.CutsHarmlessly(SaxMachine.START, pieces) ==>
      var r := SaxMachine.Run(SaxMachine.START, SaxLaws.Join(pieces));
      err == FirstError(r, replies) && stream.state.out == Told(r, replies).s.out
  {
    hide Hear, SaxMachine.Run, SaxLaws.RunPieces, SaxLaws.CutsHarmlessly, Answers, StreamData.Valid, HandedOver;
    var calls;
    err, calls := ParseEach(pieces, replies);
    stream, sent := Replay(calls, replies);
    if pieces != [] && SaxLaws.CutsHarmlessly(SaxMachine.START, pieces) {
      assert SaxLaws.NewBuffer(SaxMachine.START) == SaxMachine.START;
      SaxLaws.ChunkIndependence(SaxMachine.START, pieces);
    }
  }

  // ----- a printed session

  lemma AsciiConcat(x: string, y: string)
    requires SaxLaws.AllAscii(x) && SaxLaws.AllAscii(y)
    ensures SaxLaws.AllAscii(x + y)
  {
  }

  lemma {:induction false} AttrsAscii(atts: Attrs)
    requires RoundTrip.PrintableAttrs(atts)
    ensures SaxLaws.AllAscii(PrintAttrs(atts))
  {
    if atts != [] {
      RoundTrip.EscapeClean(atts[0].1);
      AttrsAscii(atts[1..]);
    }
  }

  lemma {:induction false} PrintAscii(t: Tree)
    requires RoundTrip.Printable(t)
    ensures SaxLaws.AllAscii(Print(t))
    decreases t, 1
  {
    hide SaxLaws.AllAscii, PrintAttrs, PrintAll, Escape;
    match t
    case Cdata(text) => EscapeAscii(text);
    case Element(name, atts, kids) =>
      NameAscii(name);
      AttrsAscii(atts);
      PrintAllAscii(kids);
      PunctuationAscii();
      AsciiConcat("<", name);
      AsciiConcat("<" + name, PrintAttrs(atts));
      AsciiConcat(">", PrintAll(kids));
      AsciiConcat(">" + PrintAll(kids), "</");
      AsciiConcat(">" + PrintAll(kids) + "</", name);
      AsciiConcat(">" + PrintAll(kids) + "</" + name, ">");
      AsciiConcat("<" + name + PrintAttrs(atts), if kids == [] then "/>" else ">" + PrintAll(kids) + "</" + name + ">");
  }

  lemma EscapeAscii(s: string)
    requires SaxLaws.AllAscii(s)
    ensures SaxLaws.AllAscii(Escape(s))
  {
    RoundTrip.EscapeClean(s);
  }

  lemma NameAscii(name: string)
    requires RoundTrip.TagName(name)
    ensures SaxLaws.AllAscii(name)
  {
  }

  lemma PunctuationAscii()
    ensures SaxLaws.AllAscii("<") && SaxLaws.AllAscii(">") && SaxLaws.AllAscii("/>") && SaxLaws.AllAscii("</")
  {
  }

  lemma {:induction false} PrintAllAscii(ts: seq<Tree>)
    requires forall t :: t in ts ==> RoundTrip.Printable(t)
    ensures SaxLaws.AllAscii(PrintAll(ts))
    decreases ts, 0
  {
    hide RoundTrip.Printable, Print;
    if ts != [] {
      PrintAscii(ts[0]);
      PrintAllAscii(ts[1..]);
    }
  }

  lemma SessionAscii(atts: Attrs, ts: seq<Tree>)
    requires RoundTrip.PrintableAttrs(atts) && forall t :: t in ts ==> RoundTrip.Printable(t)
    ensures SaxLaws.AllAscii(SessionText(atts, ts)) && SessionText(atts, ts) != ""
  {
    hide SaxLaws.AllAscii, PrintAttrs, PrintAll, RoundTrip.Printable;
    AttrsAscii(atts);
    PrintAllAscii(ts);
    PunctuationAscii();
    StreamName();
    NameAscii(NAME);
    AsciiConcat("<", NAME);
    AsciiConcat("<" + NAME, PrintAttrs(atts));
    AsciiConcat("<" + NAME + PrintAttrs(atts), ">");
    AsciiConcat("<" + NAME + PrintAttrs(atts) + ">", PrintAll(ts));
    AsciiConcat("</", NAME);
    AsciiConcat("</" + NAME, ">");
    AsciiConcat("<" + NAME + PrintAttrs(atts) + ">" + PrintAll(ts), "</" + NAME + ">");
  }

  /** What is handed over is the tree t as linked nodes, as an error exactly when it is named "stream:error", as a
      challenge exactly when it is named "challenge", else as a normal element. */
  ghost predicate SentAs(sent: Sent, t: Tree)
    reads sent.doc
  {
    && t.Element? && sent.doc != null && sent.doc.Valid() && DomHooks.Finished(sent.doc.Value(), sent.node, t)
    && (sent.kind == IsError <==> t.name == "stream:error") && (sent.kind == IsChallenge <==> t.name == "challenge")
    && sent.kind != IsStart && sent.kind != IsStop
  }

  lemma HandedSentAs(sent: Sent, d: Delivery, t: Tree)
    requires HandedOver(sent, d) && IsDelivery(d, t)
    ensures SentAs(sent, t)
  {
    hide DomHooks.Finished, Doc.Valid;
  }

  lemma SessionSent(sent: seq<Sent>, atts: Attrs, ts: seq<Tree>, doc: Doc?)
    requires AtHand(sent, SessionDeliveries(atts, ts), doc)
    ensures var es := Elements(RoundTrip.EscapeAll(ts));
      && |sent| == |es| + 2 && sent[0].kind == IsStart && sent[|es| + 1].kind == IsStop
      && forall k :: 0 <= k < |es| ==> SentAs(sent[k + 1], es[k])
  {
    hide SessionDeliveries, HandedOver, SentAs, IsDelivery, Elements;
    var out, es := SessionDeliveries(atts, ts), Elements(RoundTrip.EscapeAll(ts));
    SessionKinds(atts, ts);
    KindsOf(sent[0], out[0]);
    KindsOf(sent[|es| + 1], out[|es| + 1]);
    forall k | 0 <= k < |es|
      ensures SentAs(sent[k + 1], es[k])
    {
      HandedSentAs(sent[k + 1], out[k + 1], es[k]);
    }
  }

  lemma KindsOf(sent: Sent, d: Delivery)
    requires HandedOver(sent, d)
    ensures (sent.kind == IsStart <==> d.NodeStart?) && (sent.kind == IsStop <==> d.NodeStop?)
  {
    hide DomHooks.Finished, Doc.Valid;
  }

  /** A printed session, however it is cut into pieces, through parser and hooks to linked nodes: no error, the start,
      every printed element once and in order, the stop. */
  method ReceiveSession(pieces: seq<string>, ghost atts: Attrs, ghost ts: seq<Tree>)
    returns (err: Error, stream: StreamData, sent: seq<Sent>)
    requires RoundTrip.PrintableAttrs(atts) && Dom.Distinct(atts)
    requires forall t :: t in ts ==> RoundTrip.Printable(t) && Dom.DistinctNames(t) && NotAStream(t)
    requires SaxLaws.Join(pieces) == SessionText(atts, ts) && forall i :: 0 <= i < |pieces| ==> pieces[i] != ""
    ensures err == Ok && fresh(stream) && stream.Valid()
    ensures stream.state.out == SessionDeliveries(atts, ts) && AtHand(sent, SessionDeliveries(atts, ts), stream.doc)
    ensures var es := Elements(RoundTrip.EscapeAll(ts));
      && |sent| == |es| + 2 && sent[0].kind == IsStart && sent[|es| + 1].kind == IsStop
      && forall k :: 0 <= k < |es| ==> SentAs(sent[k + 1], es[k])
  {
    hide Hear, SaxMachine.Run, SaxLaws.RunPieces, SaxLaws.CutsHarmlessly, Answers, StreamData.Valid, AtHand, SentAs,
      RoundTrip.PrintableAttrs, RoundTrip.Printable, Dom.DistinctNames, SessionText, SessionDeliveries, NotAStream,
      SaxLaws.AllAscii, SaxLaws.Join;
    var replies := (k: nat) => Ok;
    err, stream, sent := Receive(pieces, replies);
    AlwaysAnswersOk(replies);
    PrintedSession(atts, ts, Answers(replies));
    SessionAscii(atts, ts);
    assert pieces != [] by { DomHooks.NothingJoined(); }
    SaxLaws.AsciiPieces(pieces);
    SaxLaws.CharacterCuts(SaxMachine.START, pieces);
    SessionSent(sent, atts, ts, stream.doc);
  }

  lemma AlwaysAnswersOk(replies: nat -> Error)
    requires forall k :: replies(k) == Ok
    ensures AlwaysOk(Answers(replies))
  {
  }
}

/** Laws of the parser machine: cutting a document into pieces, and CDATA sections. */
module SaxLaws {
  import opened Xml
  import opened SaxMachine

  lemma {:induction false} RunConcat(m: Machine, x: string, y: string)
    requires m.Valid()
    ensures var r := Run(m, x);
      Run(m, x + y) == if r.error == Ok then Run(r.m, y) else r
    decreases |x|, Rank(m.context)
  {
    hide Step;
    if x == "" {
      assert x + y == y;
    } else {
      StepSound(m, x[0]);
      assert (x + y)[0] == x[0];
      var o := Step(m, x[0]);
      if o.Go? && o.again {
        RunConcat(o.m, x, y);
      } else if o.Go? {
        assert (x + y)[1..] == x[1..] + y;
        RunConcat(o.m, x[1..], y);
      }
    }
  }

  // ----- composing runs

  /** From m the input s is read without error and ends in state p. */
  predicate Reads(m: Machine, s: string, p: Machine)
    requires m.Valid()
  {
    Run(m, s) == Result(p, Ok)
  }

  lemma ReadsThen(m: Machine, s: string, p: Machine, t: string, q: Machine)
    requires m.Valid() && Reads(m, s, p) && p.Valid() && Reads(p, t, q)
    ensures Reads(m, s + t, q)
  {
    RunConcat(m, s, t);
  }

  lemma RunOne(m: Machine, c: char)
    requires m.Valid() && Step(m, c).Go? && !Step(m, c).again
    ensures Step(m, c).m.Valid()
    ensures Run(m, [c]) == Result(Step(m, c).m, Ok)
  {
    StepSound(m, c);
    assert [c][1..] == "";
  }

  lemma ReadsByte(m: Machine, c: char, p: Machine)
    requires m.Valid() && Step(m, c) == Go(p, false)
    ensures Reads(m, [c], p) && p.Valid()
  {
    RunOne(m, c);
  }

  /** A byte looked at again in state p. */
  lemma ReadsAgain(m: Machine, c: char, p: Machine, q: Machine)
    requires m.Valid() && Step(m, c) == Go(p, true)
    requires p.Valid() && Reads(p, [c], q)
    ensures Reads(m, [c], q)
  {
    StepSound(m, c);
  }

  /** Between tags, nothing pending. */
  predicate Idle(m: Machine) {
    m.Valid() && m.context == InText && m.uniMax == 0
  }

  // ----- chunk independence

  /** A new call of iks_parse starts with no marked position. */
  function NewBuffer(m: Machine): Machine {
    m.(armed := false)
  }

  function Join(pieces: seq<string>): string {
    if pieces == [] then "" else pieces[0] + Join(pieces[1..])
  }

  /** Feeding a document in pieces, one call of iks_parse each, up to the first error. */
  function RunPieces(m: Machine, pieces: seq<string>): (r: Result)
    requires m.Valid()
    ensures r.m.Valid()
    decreases |pieces|
  {
    if pieces == [] then Result(m, Ok)
    else
      var r := Run(NewBuffer(m), pieces[0]);
      if r.error == Ok then RunPieces(r.m, pieces[1..]) else r
  }

  /** Everything but the position mark, which is never reported, is the same. */
  predicate Same(a: Machine, b: Machine) {
    b == a.(armed := b.armed)
  }

  predicate SameMark(a: Machine, b: Machine) {
    a.uniMax != 0 && Naming(a.context) ==> a.armed == b.armed
  }

  predicate SameOutcome(a: Outcome, b: Outcome) {
    match (a, b)
    case (Stop, Stop) => true
    case (Go(m, again), Go(n, again')) => again == again' && Same(m, n) && SameMark(m, n)
    case _ => false
  }

  lemma SwitchSame(a: Machine, b: Machine, c: char)
    requires a.Valid() && b.Valid() && Same(a, b) && a.uniMax == 0
    ensures SameOutcome(Switch(a, c), Switch(b, c))
  {
    if a.context in {TagStart, InTag, TagEnd} {
      assert SameOutcome(StepTag(a, c), StepTag(b, c));
    } else if InsideTag(a.context) {
      assert SameOutcome(StepAttribute(a, c), StepAttribute(b, c));
    } else {
      assert a == b;
    }
  }

  lemma LookSame(a: Machine, b: Machine, c: char)
    requires a.Valid() && b.Valid() && Same(a, b)
    requires SameMark(a, b) || !IsContinuation(c)
    ensures SameOutcome(Look(a, c), Look(b, c))
  {
    hide Switch;
    if !(c == '\0' || c as int >= 0xFE) && a.uniMax == 0 && c as int < 0x80 {
      SwitchSame(a, b, c);
    }
  }

  lemma StepSame(a: Machine, b: Machine, c: char)
    requires a.Valid() && b.Valid() && Same(a, b)
    requires SameMark(a, b) || !IsContinuation(c)
    ensures SameOutcome(Step(a, c), Step(b, c))
  {
    hide Look;
    LookSame(a, b, c);
  }

  lemma {:induction false} RunSame(a: Machine, b: Machine, input: string)
    requires a.Valid() && b.Valid() && Same(a, b)
    requires SameMark(a, b) || input == "" || !IsContinuation(input[0])
    ensures Same(Run(a, input).m, Run(b, input).m)
    ensures Run(a, input).error == Run(b, input).error
    decreases |input|, Rank(a.context)
  {
    hide Step;
    if input != "" {
      var c := input[0];
      StepSame(a, b, c);
      StepSound(a, c);
      StepSound(b, c);
      var o := Step(a, c);
      if o.Go? {
        RunSame(o.m, Step(b, c).m, if o.again then input else input[1..]);
      }
    }
  }

  /** A call boundary at state m, before byte c, falls inside a character that is being collected
      into a name or a value. */
  predicate SplitsCollectedCharacter(m: Machine, c: char) {
    m.uniMax != 0 && Naming(m.context) && m.armed && IsContinuation(c)
  }

  /** No call boundary splits a character of a name or a value. Inside any other character, of a text, a
      comment or a section, a boundary may fall. */
  predicate CutsHarmlessly(m: Machine, pieces: seq<string>)
    requires m.Valid()
    decreases |pieces|
  {
    |pieces| <= 1 ||
      var r := Run(NewBuffer(m), pieces[0]);
      pieces[1] != "" && (r.error == Ok ==> !SplitsCollectedCharacter(r.m, pieces[1][0]) && CutsHarmlessly(r.m, pieces[1..]))
  }

  predicate SameResult(r: Result, s: Result) {
    Same(r.m, s.m) && r.error == s.error
  }

  /** Chunk independence: however a document is cut, as long as no boundary splits a character of a name or a
      value, the calls end with the same verdict, counts, tag events, attribute strings and text between the
      tags as one call. */
  lemma {:induction false} ChunkIndependence(m: Machine, pieces: seq<string>)
    requires m.Valid() && CutsHarmlessly(m, pieces)
    ensures pieces != [] ==> SameResult(Run(NewBuffer(m), Join(pieces)), RunPieces(m, pieces))
    decreases |pieces|
  {
    if pieces != [] {
      var rest := pieces[1..];
      RunConcat(NewBuffer(m), pieces[0], Join(rest));
      var r := Run(NewBuffer(m), pieces[0]);
      if r.error == Ok && rest != [] {
        assert Join(rest) == rest[0] + Join(rest[1..]);
        RunSame(r.m, NewBuffer(r.m), Join(rest));
        ChunkIndependence(r.m, rest);
      }
    }
  }

  /** A piece starts at a character when its first byte does not continue a multi-byte sequence. */
  predicate StartsAtCharacter(piece: string) {
    piece != "" && !IsContinuation(piece[0])
  }

  /** Cuts between characters are harmless in any state. */
  lemma {:induction false} CharacterCuts(m: Machine, pieces: seq<string>)
    requires m.Valid() && forall i :: 1 <= i < |pieces| ==> StartsAtCharacter(pieces[i])
    ensures CutsHarmlessly(m, pieces)
    decreases |pieces|
  {
    if |pieces| > 1 {
      assert StartsAtCharacter(pieces[1]);
      CharacterCuts(Run(NewBuffer(m), pieces[0]).m, pieces[1..]);
    }
  }

  // ----- CDATA sections

  predicate AllAscii(s: string) {
    forall i :: 0 <= i < |s| ==> IsAscii(s[i])
  }

  /** The length of the run of ']' at the end of s. */
  function TailRun(s: string): (n: nat)
    ensures n <= |s|
  {
    if s == "" || s[|s| - 1] != ']' then 0 else 1 + TailRun(s[..|s| - 1])
  }

  /** Where the parser ends a section: a '>' behind 2, 5, 8, ... brackets. */
  predicate Ends(s: string, k: nat)
    requires k < |s|
  {
    s[k] == '>' && TailRun(s[..k]) % 3 == 2
  }

  predicate FirstEnd(s: string, k: nat) {
    k < |s| && Ends(s, k) && forall j: nat :: j < k ==> !Ends(s, j)
  }

  predicate InSection(m: Machine, n: nat) {
    m.context == (if n % 3 == 0 then SectText else if n % 3 == 1 then SectEnd else SectEnd2)
  }

  lemma CharsSnoc(s: string, c: char)
    ensures Chars(s + [c]) == Chars(s) + [Text([c])]
  {
    CharsConcat(s, [c]);
    assert [c][1..] == "";
  }

  /** The brackets in doubt, when byte c settles that they were text. */
  function Doubt(n: nat): seq<Event> {
    if n == 0 then [] else if n == 1 then [Text("]")] else [Text("]"), Text("]")]
  }

  predicate SectionMove(m: Machine, n: nat, c: char, o: Outcome) {
    && o.Go? && !o.again && o.m.uniMax == 0 && o.m.Valid()
    && InSection(o.m, if c == ']' && n < 2 then n + 1 else 0)
    && o.m.out == m.out + if c == ']' && n < 2 then [] else Doubt(n) + [Text([c])]
  }

  lemma SectionSwitch(m: Machine, n: nat, c: char)
    requires m.Valid() && m.uniMax == 0 && n < 3 && InSection(m, n)
    requires IsAscii(c) && !(c == '>' && n == 2)
    ensures SectionMove(m, n, c, Switch(m, c))
  {
    assert Switch(m, c) == StepSection(m, c);
  }

  lemma SectionByte(m: Machine, n: nat, c: char)
    requires m.Valid() && m.uniMax == 0 && n < 3 && InSection(m, n)
    requires IsAscii(c) && !(c == '>' && n == 2)
    ensures SectionMove(m, n, c, Step(m, c))
    ensures Run(m, [c]) == Result(Step(m, c).m, Ok)
  {
    SectionSwitch(m, n, c);
    hide Switch, Run, Step;
    StepAscii(m, c);
    RunOne(m, c);
  }

  /** What a section with content s so far has delivered. */
  function Settled(s: string): string {
    s[..|s| - TailRun(s) % 3]
  }

  lemma SettledSplit(s: string)
    ensures Chars(s) == Chars(Settled(s)) + Doubt(TailRun(s) % 3)
  {
    var n, done := TailRun(s) % 3, Settled(s);
    TailIsBrackets(s);
    if n == 0 {
      assert s == done;
    } else if n == 1 {
      assert s == done + "]";
      CharsSnoc(done, ']');
    } else {
      assert s == (done + "]") + "]";
      CharsSnoc(done, ']');
      CharsSnoc(done + "]", ']');
    }
  }

  /** What has been delivered after one more byte that does not end the section. */
  lemma SettledSnoc(s: string, c: char)
    ensures var t, n := s + [c], TailRun(s) % 3;
      && TailRun(t) % 3 == (if c == ']' && n < 2 then n + 1 else 0)
      && Chars(Settled(t)) == Chars(Settled(s)) + if c == ']' && n < 2 then [] else Doubt(n) + [Text([c])]
  {
    var t, n := s + [c], TailRun(s) % 3;
    assert t[..|t| - 1] == s;
    if c == ']' && n < 2 {
      assert Settled(t) == Settled(s);
    } else {
      assert Settled(t) == t;
      CharsSnoc(s, c);
      SettledSplit(s);
    }
  }

  lemma {:induction false} TailIsBrackets(s: string)
    ensures forall i :: |s| - TailRun(s) <= i < |s| ==> s[i] == ']'
  {
    if s != "" && s[|s| - 1] == ']' {
      TailIsBrackets(s[..|s| - 1]);
    }
  }

  /** Inside a section, everything is delivered but up to two brackets still in doubt. */
  predicate SectionState(m: Machine, s: string, r: Result) {
    && r.error == Ok && r.m.uniMax == 0 && r.m.Valid()
    && InSection(r.m, TailRun(s) % 3) && r.m.out == m.out + Chars(Settled(s))
  }

  lemma SectionExtend(m: Machine, s: string, c: char, p: Machine, q: Machine)
    requires SectionState(m, s, Result(p, Ok))
    requires SectionMove(p, TailRun(s) % 3, c, Go(q, false))
    ensures SectionState(m, s + [c], Result(q, Ok))
  {
    SettledSnoc(s, c);
  }

  lemma {:induction false} SectionOpen(m: Machine, s: string)
    requires m.Valid() && m.context == SectText && m.uniMax == 0 && AllAscii(s)
    requires forall j: nat :: j < |s| ==> !Ends(s, j)
    ensures SectionState(m, s, Run(m, s))
    decreases |s|
  {
    if s == "" {
      assert m.out + [] == m.out && Settled(s) == "";
    } else {
      var init, c := s[..|s| - 1], s[|s| - 1];
      hide Step, Run, SectionState;
      hide TailRun;
      EndsPrefix(s, |s| - 1);
      SectionOpen(m, init);
      assert !Ends(s, |s| - 1);
      assert s == init + [c];
      RunConcat(m, init, [c]);
      var p := Run(m, init).m;
      SectionByte(p, TailRun(init) % 3, c);
      SectionExtend(m, init, c, p, Run(p, [c]).m);
    }
  }

  lemma EndsPrefix(s: string, k: nat)
    requires k <= |s|
    ensures forall j: nat :: j < k ==> (Ends(s[..k], j) <==> Ends(s, j))
  {
    forall j: nat | j < k
      ensures Ends(s[..k], j) <==> Ends(s, j)
    {
      assert s[..k][..j] == s[..j];
    }
  }

  lemma SectionLast(m: Machine)
    requires m.Valid() && m.context == SectEnd2 && m.uniMax == 0
    ensures var r := Run(m, ">");
      r.error == Ok && Idle(r.m) && r.m.out == m.out
  {
    hide Run;
    RunOne(m, '>');
  }

  /** The content of a section, from behind its opener. */
  lemma SectionContent(m: Machine, s: string, k: nat)
    requires m.Valid() && m.context == SectText && m.uniMax == 0 && AllAscii(s) && FirstEnd(s, k)
    ensures 2 <= k
    ensures var r := Run(m, s[..k + 1]);
      r.error == Ok && Idle(r.m) && r.m.out == m.out + Chars(s[..k - 2])
  {
    hide Step, Run, TailRun;
    var init := s[..k];
    EndsPrefix(s, k);
    SectionOpen(m, init);
    assert TailRun(init) % 3 == 2;
    assert Settled(init) == s[..k - 2];
    var p := Run(m, init).m;
    SectionLast(p);
    assert s[..k + 1] == init + ">";
    assert Run(p, ">").m.Valid();
    RunConcat(m, init, ">");
  }

  const OPENER := "<![CDATA["

  const OPENING: seq<Context> :=
    [InText, TagStart, Markup, Sect, SectCdata, SectCdata1, SectCdata2, SectCdata3, SectCdata4, SectText]

  predicate Opened(m: Machine, i: nat, p: Machine)
    requires i <= 9
  {
    p == m.(context := OPENING[i], bytes := p.bytes, lines := p.lines)
  }

  lemma OpenerSwitch(m: Machine, i: nat)
    requires i < 9 && m.uniMax == 0 && m.context == OPENING[i]
    ensures IsAscii(OPENER[i]) && Switch(m, OPENER[i]) == Go(m.(context := OPENING[i + 1]), false)
  {
  }

  lemma OpenerByte(m: Machine, i: nat, p: Machine)
    requires i < 9 && m.uniMax == 0 && Opened(m, i, p)
    ensures var o := Step(p, OPENER[i]); o.Go? && !o.again && Opened(m, i + 1, o.m)
  {
    hide Switch, Step;
    OpenerSwitch(p, i);
    StepAscii(p, OPENER[i]);
  }

  /** The nine bytes that open a section only move the context. */
  lemma {:induction false} OpenerMoves(m: Machine, i: nat)
    requires Idle(m) && i <= 9
    ensures Run(m, OPENER[..i]).error == Ok && Opened(m, i, Run(m, OPENER[..i]).m)
  {
    hide Run, Step, Opened;
    if i == 0 {
      RunNothing(m);
      assert OPENER[..0] == "" && Opened(m, 0, m) by { NotOpened(m); }
    } else {
      OpenerMoves(m, i - 1);
      var p, c := Run(m, OPENER[..i - 1]).m, OPENER[i - 1];
      OpenerByte(m, i - 1, p);
      ReadsByte(p, c, Step(p, c).m);
      ReadsThen(m, OPENER[..i - 1], p, [c], Step(p, c).m);
      assert OPENER[..i] == OPENER[..i - 1] + [c];
    }
  }

  lemma NotOpened(m: Machine)
    requires m.context == InText
    ensures Opened(m, 0, m)
  {
  }

  lemma RunNothing(m: Machine)
    requires m.Valid()
    ensures Run(m, "") == Result(m, Ok)
  {
  }

  lemma OpenerOpens(m: Machine)
    requires Idle(m)
    ensures var r := Run(m, OPENER);
      r.error == Ok && r.m.context == SectText && r.m.uniMax == 0 && r.m.out == m.out
  {
    hide Run, Step;
    OpenerMoves(m, 9);
    assert OPENER[..9] == OPENER;
  }

  /** A CDATA section ends at the first '>' whose directly preceding run of ']' has length
      2 modulo 3, and exactly the bytes before the final "]]>" are delivered. */
  lemma CdataSection(m: Machine, s: string, k: nat)
    requires Idle(m) && AllAscii(s) && FirstEnd(s, k)
    ensures 2 <= k
    ensures var r := Run(m, OPENER + s[..k + 1]);
      r.error == Ok && Idle(r.m) && r.m.out == m.out + Chars(s[..k - 2])
  {
    hide Step, Run, TailRun, FirstEnd;
    OpenerOpens(m);
    SectionContent(Run(m, OPENER).m, s, k);
    FirstEndIn(s, k);
    RunConcat(m, OPENER, s[..k + 1]);
  }

  lemma FirstEndIn(s: string, k: nat)
    requires FirstEnd(s, k)
    ensures k < |s|
  {
  }

  /** The same for every cut of the section into pieces. */
  lemma CdataSectionInPieces(m: Machine, s: string, k: nat, pieces: seq<string>)
    requires Idle(m) && AllAscii(s) && FirstEnd(s, k)
    requires Join(pieces) == OPENER + s[..k + 1] && forall i :: 0 <= i < |pieces| ==> pieces[i] != ""
    ensures 2 <= k
    ensures var r := RunPieces(m, pieces);
      r.error == Ok && Idle(r.m) && r.m.out == m.out + Chars(s[..k - 2])
  {
    hide Step, Run, RunPieces, TailRun, FirstEnd, CutsHarmlessly;
    var n := NewBuffer(m);
    CdataSection(n, s, k);
    FirstEndIn(s, k);
    assert pieces != [] by {
      assert |OPENER + s[..k + 1]| > 0;
    }
    AsciiPieces(pieces);
    CharacterCuts(m, pieces);
    ChunkIndependence(m, pieces);
  }

  /** Pieces of an ASCII text are cut between characters. */
  lemma {:induction false} AsciiPieces(pieces: seq<string>)
    requires AllAscii(Join(pieces)) && forall i :: 0 <= i < |pieces| ==> pieces[i] != ""
    ensures forall i :: 0 <= i < |pieces| ==> StartsAtCharacter(pieces[i])
  {
    if pieces != [] {
      var whole := Join(pieces);
      assert forall i :: 0 <= i < |Join(pieces[1..])| ==> Join(pieces[1..])[i] == whole[i + |pieces[0]|];
      AsciiPieces(pieces[1..]);
      assert whole[0] == pieces[0][0];
    }
  }

  /** As long as no end has been seen, the parser stays inside the section. */
  lemma SectionGoesOn(m: Machine, s: string)
    requires Idle(m) && AllAscii(s) && forall j: nat :: j < |s| ==> !Ends(s, j)
    ensures var r := Run(m, OPENER + s);
      r.error == Ok && InSection(r.m, TailRun(s) % 3) && r.m.out == m.out + Chars(Settled(s))
  {
    hide Step, Run, TailRun, Ends;
    OpenerOpens(m);
    SectionOpen(Run(m, OPENER).m, s);
    RunConcat(m, OPENER, s);
  }

  /** Section 2.7 of XML 1.0: a section ends at the first "]]>". */
  predicate XmlEnds(s: string, k: nat)
    requires k < |s|
  {
    2 <= k && s[k - 2..k + 1] == "]]>"
  }

  predicate FirstXmlEnd(s: string, k: nat) {
    k < |s| && XmlEnds(s, k) && forall j: nat :: j < k ==> !XmlEnds(s, j)
  }

  lemma XmlEndsIsTailRun(s: string, k: nat)
    requires k < |s|
    ensures XmlEnds(s, k) <==> s[k] == '>' && TailRun(s[..k]) >= 2
  {
    var init := s[..k];
    if k >= 1 {
      assert init[..k - 1] == s[..k - 1];
      if k >= 2 {
        assert init[..k - 1][..k - 2] == s[..k - 2];
        assert s[k - 2..k + 1] == [s[k - 2], s[k - 1], s[k]];
      }
    }
  }

  /** Whether the parser ends a section where XML 1.0 does: exactly when the brackets before the first "]]>"
      number 2 modulo 3. It then has delivered the section's content. Otherwise it takes the "]]>" for text
      and reads on inside the section. It never ends one earlier. */
  lemma SameEndAsXmlIff(m: Machine, s: string, k: nat)
    requires Idle(m) && AllAscii(s) && FirstXmlEnd(s, k)
    ensures 2 <= k < |s|
    ensures var r := Run(m, OPENER + s[..k + 1]);
      && r.error == Ok && (r.m.context == InText <==> TailRun(s[..k]) % 3 == 2) && r.m.context in {InText, SectText}
      && r.m.out == m.out + Chars(if r.m.context == InText then s[..k - 2] else s[..k + 1])
    ensures forall j: nat :: j <= k ==> Run(m, OPENER + s[..j]).m.context != InText
  {
    hide Run, Step, TailRun;
    NoEarlierEnd(s, k);
    forall j: nat | j <= k
      ensures Run(m, OPENER + s[..j]).m.context != InText
    {
      AsciiPrefix(s, j);
      EndsPrefix(s, j);
      SectionGoesOn(m, s[..j]);
    }
    if TailRun(s[..k]) % 3 == 2 {
      CdataSection(m, s, k);
    } else {
      AsciiPrefix(s, k + 1);
      EndsPrefix(s, k + 1);
      SectionGoesOn(m, s[..k + 1]);
      AllSettled(s[..k + 1]);
    }
  }

  lemma AsciiPrefix(s: string, k: nat)
    requires AllAscii(s) && k <= |s|
    ensures AllAscii(s[..k])
  {
  }

  lemma AllSettled(s: string)
    requires s != "" && s[|s| - 1] != ']'
    ensures TailRun(s) == 0 && Settled(s) == s
  {
  }

  lemma NoEarlierEnd(s: string, k: nat)
    requires FirstXmlEnd(s, k)
    ensures s[k] == '>' && (Ends(s, k) <==> TailRun(s[..k]) % 3 == 2)
    ensures forall j: nat :: j < k ==> !Ends(s, j)
  {
    XmlEndsIsTailRun(s, k);
    forall j: nat | j < k
      ensures !Ends(s, j)
    {
      XmlEndsIsTailRun(s, j);
    }
  }

  lemma Brackets()
    ensures TailRun("]]]") == 3
  {
    var s := "]]]";
    assert s[..2] == "]]" && s[..2][..1] == "]" && s[..1][..0] == "";
    assert TailRun("]") == 1 && TailRun("]]") == 2;
  }

  lemma FirstXmlEndHere()
    ensures FirstXmlEnd("]]]>", 3) && TailRun("]]]>"[..3]) == 3
  {
    hide TailRun;
    var s := "]]]>";
    Brackets();
    assert s[..3] == "]]]" && s[3 - 2..3 + 1] == "]]>";
  }

  /** Such a document: the section "]" is well-formed in XML 1.0, here it does not end, and all that follows
      its opener is taken for text. */
  lemma SectionReadOn()
    ensures FirstXmlEnd("]]]>", 3)
    ensures var r := Run(START, "<![CDATA[" + "]]]>");
      r.error == Ok && r.m.context == SectText && r.m.out == Chars("]]]>")
  {
    hide Run, Step, TailRun, FirstXmlEnd, Chars;
    var s := "]]]>";
    FirstXmlEndHere();
    SameEndAsXmlIff(START, s, 3);
    assert s[..3 + 1] == s && [] + Chars(s) == Chars(s);
  }
}

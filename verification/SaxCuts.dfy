/** Which boundaries between two calls of iks_parse do harm: exactly those that split a character of a name
    or a value. */
module SaxCuts {
  import opened Xml
  import opened SaxMachine
  import opened SaxLaws

  /** What the caller and the hooks are told. */
  predicate SameReports(r: Result, s: Result) {
    r.error == s.error && r.m.bytes == s.m.bytes && r.m.lines == s.m.lines && r.m.out == s.m.out
  }

  /** The rest of a multi-byte character. */
  function Continuations(n: nat): (s: string)
    ensures |s| == n && forall i :: 0 <= i < n ==> IsContinuation(s[i])
  {
    if n == 0 then "" else [0x80 as char] + Continuations(n - 1)
  }

  /** One more byte of a character in a name or a value. */
  lemma ContinuationStep(m: Machine, c: char)
    requires m.Valid() && m.uniMax != 0 && Naming(m.context) && IsContinuation(c)
    ensures Step(m, c) == Go(m.(uniLen := m.uniLen + 1, uniMax := if m.uniLen + 1 == m.uniMax then 0 else m.uniMax,
                                bytes := m.bytes + 1, cur := m.cur + if m.armed then [c] else ""), false)
  {
    hide Switch;
    assert m.cur + "" == m.cur;
  }

  /** A multi-byte character ends: its bytes are counted, and collected if a position is marked. */
  lemma {:induction false} CharacterEnds(m: Machine, s: string)
    requires m.Valid() && m.uniMax != 0 && |s| == m.uniMax - m.uniLen && Naming(m.context)
    requires forall i :: 0 <= i < |s| ==> IsContinuation(s[i])
    ensures var r := Run(m, s);
      && r.error == Ok
      && r.m == m.(uniMax := 0, uniLen := m.uniMax, bytes := m.bytes + |s|, cur := m.cur + if m.armed then s else "")
    decreases |s|
  {
    hide Run, Step;
    var c := s[0];
    ContinuationStep(m, c);
    var next := Step(m, c).m;
    ReadsByte(m, c, next);
    if |s| > 1 {
      CharacterEnds(next, s[1..]);
      assert (m.cur + if m.armed then [c] else "") + (if m.armed then s[1..] else "") == m.cur + if m.armed then s else "";
      ReadsThen(m, [c], next, s[1..], Run(next, s[1..]).m);
      assert s == [c] + s[1..];
    } else {
      assert s == [c];
    }
  }

  /** The shortest way from the end of a name or value to the end of its tag. */
  function Ending(context: Context): string {
    match context
    case InTag => ">"
    case AttName => "=''>"
    case ValueApos => "'>"
    case _ => "\">"
  }

  function EndedTag(m: Machine): Event {
    match m.context
    case InTag => Tag(m.cur, m.atts, m.tagType)
    case AttName => Tag(m.name, m.atts + [(m.cur, "")], m.tagType)
    case _ => Tag(m.name, m.atts + [(m.attName, m.cur)], m.tagType)
  }

  lemma TagEndTells(m: Machine)
    requires m.Valid() && m.uniMax == 0 && m.context == TagEnd
    ensures var r := Run(m, ">"); r.error == Ok && r.m.out == m.out + [Tag(m.name, m.atts, m.tagType)]
  {
    hide Run;
    ReadsByte(m, '>', Step(m, '>').m);
  }

  lemma NameEndTells(m: Machine)
    requires m.Valid() && m.uniMax == 0 && m.context == InTag
    ensures var r := Run(m, ">"); r.error == Ok && r.m.out == m.out + [EndedTag(m)]
  {
    hide Run;
    var p := EndName(m).(context := TagEnd);
    TagEndTells(p);
    ReadsAgain(m, '>', p, Run(p, ">").m);
  }

  lemma BehindValueTells(m: Machine)
    requires m.Valid() && m.uniMax == 0 && m.context == Whitespace && m.oldContext == AttNext
    ensures var r := Run(m, ">"); r.error == Ok && r.m.out == m.out + [Tag(m.name, m.atts, m.tagType)]
  {
    hide Run;
    var p := m.(context := AttNext);
    var q := m.(context := TagEnd);
    TagEndTells(q);
    ReadsAgain(p, '>', q, Run(q, ">").m);
    ReadsAgain(m, '>', p, Run(p, ">").m);
  }

  lemma ValueEndTells(m: Machine)
    requires m.Valid() && m.uniMax == 0 && m.context in {ValueApos, ValueQuot}
    ensures var r := Run(m, Ending(m.context)); r.error == Ok && r.m.out == m.out + [EndedTag(m)]
  {
    hide Run;
    var c := Ending(m.context)[0];
    var p := Count(EndValue(m), c);
    ReadsByte(m, c, p);
    BehindValueTells(p);
    ReadsThen(m, [c], p, ">", Run(p, ">").m);
    assert Ending(m.context) == [c] + ">";
  }

  lemma AttNameEndTells(m: Machine)
    requires m.Valid() && m.uniMax == 0 && m.context == AttName
    ensures var r := Run(m, "=''>"); r.error == Ok && r.m.out == m.out + [EndedTag(m)]
  {
    hide Run;
    var p := Step(m, '=').m;
    ReadsByte(m, '=', p);
    var q := Step(p, '\'').m;
    ReadsByte(p, '\'', q);
    ReadsThen(m, "=", p, "'", q);
    assert "=" + "'" == "='";
    ValueEndTells(q);
    ReadsThen(m, "='", q, "'>", Run(q, "'>").m);
    assert "='" + "'>" == "=''>";
  }

  /** What is collected is told to the tag hook in the end. */
  lemma EndingTells(m: Machine)
    requires m.Valid() && m.uniMax == 0 && Naming(m.context)
    ensures var r := Run(m, Ending(m.context)); r.error == Ok && r.m.out == m.out + [EndedTag(m)]
  {
    hide Run, EndedTag;
    match m.context
    case InTag => NameEndTells(m);
    case AttName => AttNameEndTells(m);
    case _ => ValueEndTells(m);
  }

  /** A document goes on from the middle of a collected character to the end of its tag: the tag that is told
      has the bytes s of the character when a position is marked, and none of them when it is not. */
  lemma RestTells(m: Machine, s: string)
    requires m.Valid() && m.uniMax != 0 && |s| == m.uniMax - m.uniLen && Naming(m.context)
    requires forall i :: 0 <= i < |s| ==> IsContinuation(s[i])
    ensures var r := Run(m, s + Ending(m.context));
      r.error == Ok && r.m.out == m.out + [EndedTag(m.(cur := m.cur + if m.armed then s else ""))]
  {
    hide Run, Ending;
    CharacterEnds(m, s);
    var p := Run(m, s).m;
    EndingTells(p);
    RunConcat(m, s, Ending(m.context));
  }

  lemma EndedTagTells(m: Machine, cur: string)
    requires cur != m.cur
    ensures EndedTag(m.(cur := cur)) != EndedTag(m)
  {
    if m.context == AttName {
      assert (m.atts + [(cur, "")])[|m.atts|] != (m.atts + [(m.cur, "")])[|m.atts|];
    } else if m.context != InTag {
      assert (m.atts + [(m.attName, cur)])[|m.atts|] != (m.atts + [(m.attName, m.cur)])[|m.atts|];
    }
  }

  /** A boundary inside a collected character, before byte c: with the same bytes to come, the tag hook is told
      a tag with the whole character when they come in one call, and one without c and the bytes of the
      character behind it when a new call starts with c. */
  lemma SplitLosesBytes(m: Machine, c: char)
    requires m.Valid() && SplitsCollectedCharacter(m, c)
    ensures var s := [c] + Continuations(m.uniMax - m.uniLen - 1);
      var one, two := Run(m, s + Ending(m.context)), Run(NewBuffer(m), s + Ending(m.context));
      && one.error == Ok && one.m.out == m.out + [EndedTag(m.(cur := m.cur + s))]
      && two.error == Ok && two.m.out == m.out + [EndedTag(m)]
      && one.m.out != two.m.out
  {
    hide Run, Ending;
    var s := [c] + Continuations(m.uniMax - m.uniLen - 1);
    RestTells(m, s);
    RestTells(NewBuffer(m), s);
    assert m.cur + "" == m.cur;
    assert |m.cur + s| > |m.cur|;
    EndedTagTells(m, m.cur + s);
    assert (m.out + [EndedTag(m.(cur := m.cur + s))])[|m.out|] != (m.out + [EndedTag(m)])[|m.out|];
  }

  lemma SplitIsHeard(m: Machine, c: char)
    requires m.Valid() && SplitsCollectedCharacter(m, c)
    ensures exists rest: string :: !SameReports(Run(m, [c] + rest), Run(NewBuffer(m), [c] + rest))
  {
    hide Run, Ending, EndedTag;
    SplitLosesBytes(m, c);
    var rest := Continuations(m.uniMax - m.uniLen - 1) + Ending(m.context);
    assert [c] + rest == ([c] + Continuations(m.uniMax - m.uniLen - 1)) + Ending(m.context);
    assert !SameReports(Run(m, [c] + rest), Run(NewBuffer(m), [c] + rest));
  }

  lemma HarmlessBoundary(m: Machine, c: char, rest: string)
    requires m.Valid() && !SplitsCollectedCharacter(m, c)
    ensures SameReports(Run(m, [c] + rest), Run(NewBuffer(m), [c] + rest))
  {
    hide Run;
    RunSame(m, NewBuffer(m), [c] + rest);
  }

  /** Exactly when a call boundary is harmless: for every continuation of the input the verdict, the counts, the
      tag events and the text are the same, unless the boundary splits a character of a name or a value. */
  lemma BoundaryIsHarmlessIff(m: Machine, c: char)
    requires m.Valid()
    ensures !SplitsCollectedCharacter(m, c)
       <==> forall rest: string :: SameReports(Run(m, [c] + rest), Run(NewBuffer(m), [c] + rest))
  {
    hide Run, SameReports, SplitsCollectedCharacter;
    if SplitsCollectedCharacter(m, c) {
      SplitIsHeard(m, c);
    } else {
      forall rest: string
        ensures SameReports(Run(m, [c] + rest), Run(NewBuffer(m), [c] + rest))
      {
        HarmlessBoundary(m, c, rest);
      }
    }
  }

  const LEAD := 0xC3 as char
  const TRAIL := 0xA9 as char

  lemma LeadRead()
    ensures var r := Run(START, "<a" + [LEAD]);
      && r.error == Ok && r.m.context == InTag && r.m.tagType == Open && r.m.cur == ['a', LEAD] && r.m.atts == []
      && r.m.armed && r.m.uniMax == 2 && r.m.uniLen == 1 && r.m.out == []
  {
    hide Run;
    var p := Step(START, '<').m;
    ReadsByte(START, '<', p);
    var q := Step(p, 'a').m;
    ReadsByte(p, 'a', q);
    ReadsThen(START, "<", p, "a", q);
    assert "<" + "a" == "<a";
    var r := Step(q, LEAD).m;
    ReadsByte(q, LEAD, r);
    ReadsThen(START, "<a", q, [LEAD], r);
  }

  /** Such a document: an element with the name "a" and U+00E9 in two pieces, cut in the middle of the second
      character. The hook is told half of that character. */
  lemma SplitDocument()
    ensures var whole := Run(START, "<a" + [LEAD] + ([TRAIL] + ">"));
      whole.error == Ok && whole.m.out == [Tag(['a', LEAD, TRAIL], [], Open)]
    ensures var cut := RunPieces(START, ["<a" + [LEAD], [TRAIL] + ">"]);
      cut.error == Ok && cut.m.out == [Tag(['a', LEAD], [], Open)]
  {
    hide Run, RunPieces;
    LeadRead();
    var m := Run(START, "<a" + [LEAD]).m;
    SplitLosesBytes(m, TRAIL);
    assert [TRAIL] + Continuations(0) == [TRAIL] && Ending(InTag) == ">";
    RunConcat(START, "<a" + [LEAD], [TRAIL] + ">");
    TwoPieces("<a" + [LEAD], [TRAIL] + ">");
    assert m.cur + [TRAIL] == ['a', LEAD, TRAIL];
  }

  lemma TwoPieces(x: string, y: string)
    requires Run(START, x).error == Ok
    ensures RunPieces(START, [x, y]) == Run(NewBuffer(Run(START, x).m), y)
  {
    hide Run;
    assert NewBuffer(START) == START && [x, y][1..] == [y] && [y][1..] == [];
    var r := Run(START, x).m;
    assert RunPieces(r, [y]) == Run(NewBuffer(r), y) by {
      assert RunPieces(Run(NewBuffer(r), y).m, []) == Result(Run(NewBuffer(r), y).m, Ok);
    }
  }
}

/** What the parser makes of documents as people write them: laws about literal text, which say nothing of the
    contexts the machine goes through. */
module SaxText {
  import opened Xml
  import opened SaxMachine
  import opened SaxLaws
  import opened RoundTrip

  // ----- counters

  function Newlines(s: string): nat {
    if s == "" then 0 else (if s[0] == '\n' then 1 else 0) + Newlines(s[1..])
  }

  lemma StepCounts(m: Machine, c: char)
    requires m.Valid()
    ensures var o := Step(m, c);
      o.Go? ==> if o.again then o.m.bytes == m.bytes && o.m.lines == m.lines
                else o.m.bytes == m.bytes + 1 && o.m.lines == m.lines + if c == '\n' then 1 else 0
  {
    hide Switch, Pass;
    SwitchCounts(m, c);
    PassCounts(m, c);
    PassCounts(m.(uniMax := LeadLength(c), uniLen := 1, armed := m.armed || Naming(m.context)), c);
  }

  lemma PassCounts(m: Machine, c: char)
    ensures Pass(m, c).bytes == m.bytes && Pass(m, c).lines == m.lines
  {
  }

  lemma SwitchCounts(m: Machine, c: char)
    ensures var o := Switch(m, c); o.Go? ==> o.m.bytes == m.bytes && o.m.lines == m.lines
  {
  }

  /** Without an error every byte and every line end is counted. */
  lemma {:induction false} AllCounted(m: Machine, s: string)
    requires m.Valid()
    ensures var r := Run(m, s);
      r.error == Ok ==> r.m.bytes == m.bytes + |s| && r.m.lines == m.lines + Newlines(s)
    decreases |s|, Rank(m.context)
  {
    hide Step;
    if s != "" {
      StepSound(m, s[0]);
      StepCounts(m, s[0]);
      var o := Step(m, s[0]);
      if o.Go? {
        AllCounted(o.m, if o.again then s else s[1..]);
      }
    }
  }

  /** With one, the bytes counted are those in front of the first byte in error. */
  lemma {:induction false} ErrorIsAt(m: Machine, s: string) returns (k: nat)
    requires m.Valid() && Run(m, s).error != Ok
    ensures k < |s| && Run(m, s[..k]).error == Ok && Run(m, s[..k + 1]).error == BadXml
    ensures Run(m, s).m.bytes == m.bytes + k && Run(m, s).m.lines == m.lines + Newlines(s[..k])
    decreases |s|
  {
    hide Run, Step;
    RunNothing(m);
    var front, last := s[..|s| - 1], s[|s| - 1];
    assert s == front + [last];
    RunConcat(m, front, [last]);
    if Run(m, front).error == Ok {
      k := |front|;
      AllCounted(m, front);
      assert s[..k] == front && s[..k + 1] == s;
      LastInError(Run(m, front).m, last);
    } else {
      k := ErrorIsAt(m, front);
      assert front[..k] == s[..k] && front[..k + 1] == s[..k + 1];
    }
  }

  lemma {:induction false} LastInError(m: Machine, c: char)
    requires m.Valid() && Run(m, [c]).error != Ok
    ensures Run(m, [c]).error == BadXml
    ensures Run(m, [c]).m.bytes == m.bytes && Run(m, [c]).m.lines == m.lines
    decreases Rank(m.context)
  {
    hide Step;
    StepSound(m, c);
    StepCounts(m, c);
    var o := Step(m, c);
    assert [c][1..] == "";
    if o.Go? && o.again {
      LastInError(o.m, c);
    }
  }

  // ----- text

  /** Text without '&' and '<' is delivered as it is. */
  lemma {:induction false} PlainText(m: Machine, s: string)
    requires Idle(m) && AllAscii(s) && '&' !in s && '<' !in s
    ensures Delivers(m, s, Chars(s))
    decreases |s|
  {
    hide Run, Step;
    if s == "" {
      RunNothing(m);
      assert m.out + [] == m.out;
    } else {
      RunPlain(m, s[0]);
      PlainText(Run(m, [s[0]]).m, s[1..]);
      DeliversThen(m, [s[0]], [Text([s[0]])], s[1..], Chars(s[1..]));
      assert [s[0]] + s[1..] == s;
    }
  }

  /** The five entities that are known, each by itself. */
  lemma KnownEntities(m: Machine)
    requires Idle(m)
    ensures Delivers(m, "&lt;", [Text("<")]) && Delivers(m, "&gt;", [Text(">")])
    ensures Delivers(m, "&amp;", [Text("&")]) && Delivers(m, "&apos;", [Text("'")]) && Delivers(m, "&quot;", [Text("\"")])
  {
    hide Delivers, Run;
    RunEntity(m, "lt");
    assert "&" + "lt" + ";" == "&lt;";
    RunEntity(m, "gt");
    assert "&" + "gt" + ";" == "&gt;";
    RunEntity(m, "amp");
    assert "&" + "amp" + ";" == "&amp;";
    RunEntity(m, "apos");
    assert "&" + "apos" + ";" == "&apos;";
    RunEntity(m, "quot");
    assert "&" + "quot" + ";" == "&quot;";
  }

  /** Any other name of up to seven bytes is delivered as a question mark. */
  lemma UnknownEntity(m: Machine, name: string)
    requires Idle(m) && AllAscii(name) && ';' !in name && |name| <= 7
    requires name !in {"lt", "gt", "amp", "apos", "quot"}
    ensures Delivers(m, "&" + name + ";", [Text("?")])
  {
    hide Run, Step;
    RunEntity(m, name);
  }

  /** A longer one is an error. */
  lemma LongEntity(m: Machine, name: string)
    requires Idle(m) && AllAscii(name) && ';' !in name && |name| == 8
    ensures Run(m, "&" + name).error == BadXml
  {
    hide Run, Step;
    EntityStart(m);
    var p, first := Run(m, "&").m, name[..7];
    EntityBytes(p, first);
    var q := Run(p, first).m;
    assert "" + first == first;
    ReadsThen(m, "&", p, first, q);
    EntityFull(q, name[7]);
    RunConcat(m, "&" + first, [name[7]]);
    assert "&" + name == ("&" + first) + [name[7]];
  }

  lemma EntityFull(m: Machine, c: char)
    requires m.Valid() && m.context == Entity && m.uniMax == 0 && |m.entity| == 7 && IsAscii(c) && c != ';'
    ensures Run(m, [c]).error == BadXml
  {
  }

  /** A multi-byte character as the parser knows it: a first byte that announces the length, and so many others. */
  predicate MultiByte(s: string) {
    && s != "" && (forall i :: 1 <= i < |s| ==> 0x80 <= s[i] as int <= 0xBF)
    && var n := s[0] as int;
       (|s| == 2 && 0xC1 <= n <= 0xDF) || (|s| == 3 && 0xE1 <= n <= 0xEF) || (|s| == 4 && 0xF1 <= n <= 0xF7)
       || (|s| == 5 && 0xF9 <= n <= 0xFB) || (|s| == 6 && n == 0xFD)
  }

  /** What it does: it is part of a text or of what is being read; anywhere else it is passed over. */
  predicate Took(m: Machine, s: string, r: Machine) {
    && r == m.(uniMax := r.uniMax, uniLen := r.uniLen, armed := r.armed, bytes := r.bytes, lines := r.lines,
               cur := if Naming(m.context) then m.cur + s else m.cur,
               out := if m.context in {InText, SectText} then m.out + Chars(s) else m.out)
    && (Naming(m.context) ==> r.armed)
  }

  lemma TookThen(m: Machine, c: char, p: Machine, s: string, q: Machine)
    requires Took(m, [c], p) && Took(p, s, q)
    ensures Took(m, [c] + s, q)
  {
    assert Chars([c]) == [Text([c])];
    assert (m.cur + [c]) + s == m.cur + ([c] + s);
    assert (m.out + [Text([c])]) + Chars(s) == m.out + Chars([c] + s);
  }

  lemma {:induction false} OtherBytes(m: Machine, s: string)
    requires m.Valid() && m.uniMax != 0 && (Naming(m.context) ==> m.armed) && |s| == m.uniMax - m.uniLen
    requires forall i :: 0 <= i < |s| ==> 0x80 <= s[i] as int <= 0xBF
    ensures var r := Run(m, s); r.error == Ok && r.m.uniMax == 0 && Took(m, s, r.m)
    decreases |s|
  {
    hide Run, Step, Took;
    OtherByte(m, s[0]);
    var p := Step(m, s[0]).m;
    ReadsByte(m, s[0], p);
    assert s == [s[0]] + s[1..];
    if |s| > 1 {
      OtherBytes(p, s[1..]);
      ReadsThen(m, [s[0]], p, s[1..], Run(p, s[1..]).m);
      TookThen(m, s[0], p, s[1..], Run(p, s[1..]).m);
    } else {
      assert s == [s[0]] && s[1..] == "";
    }
  }

  lemma OtherByte(m: Machine, c: char)
    requires m.Valid() && m.uniMax != 0 && (Naming(m.context) ==> m.armed) && 0x80 <= c as int <= 0xBF
    ensures var o := Step(m, c);
      && o.Go? && !o.again && o.m.Valid() && Took(m, [c], o.m) && (Naming(o.m.context) ==> o.m.armed)
      && o.m.uniLen == m.uniLen + 1 && o.m.uniMax == if m.uniLen + 1 == m.uniMax then 0 else m.uniMax
  {
    StepSound(m, c);
    assert Chars([c]) == [Text([c])];
  }

  lemma LeadIn(m: Machine, s: string)
    requires m.Valid() && m.uniMax == 0 && MultiByte(s)
    ensures var o := Step(m, s[0]);
      && o.Go? && !o.again && o.m.Valid() && Took(m, [s[0]], o.m) && (Naming(o.m.context) ==> o.m.armed)
      && o.m.uniLen == 1 && o.m.uniMax == |s|
  {
    StepSound(m, s[0]);
    assert Chars([s[0]]) == [Text([s[0]])];
  }

  lemma MultiByteAnywhere(m: Machine, s: string)
    requires m.Valid() && m.uniMax == 0 && MultiByte(s)
    ensures var r := Run(m, s); r.error == Ok && r.m.uniMax == 0 && Took(m, s, r.m)
  {
    hide Run, Step, Took;
    LeadIn(m, s);
    var p := Step(m, s[0]).m;
    ReadsByte(m, s[0], p);
    OtherBytes(p, s[1..]);
    ReadsThen(m, [s[0]], p, s[1..], Run(p, s[1..]).m);
    TookThen(m, s[0], p, s[1..], Run(p, s[1..]).m);
    assert s == [s[0]] + s[1..];
  }

  /** A character of one byte or of several. */
  predicate Character(x: string) {
    MultiByte(x) || (|x| == 1 && IsAscii(x[0]))
  }

  lemma TextCharacter(m: Machine, x: string)
    requires Idle(m) && Character(x) && x != "&" && x != "<"
    ensures Delivers(m, x, Chars(x))
  {
    hide Run, Step;
    if MultiByte(x) {
      MultiByteAnywhere(m, x);
    } else {
      RunPlain(m, x[0]);
      assert x == [x[0]];
    }
  }

  /** Text of any characters but '&' and '<' is delivered as it is. */
  lemma {:induction false} TextOfCharacters(m: Machine, xs: seq<string>)
    requires Idle(m) && forall x :: x in xs ==> Character(x) && x != "&" && x != "<"
    ensures Delivers(m, Join(xs), Chars(Join(xs)))
    decreases |xs|
  {
    hide Run, Step, Character, Delivers;
    if xs == [] {
      DeliversNothing(m);
    } else {
      TextCharacter(m, xs[0]);
      DeliveredIdle(m, xs[0], Chars(xs[0]));
      assert forall x :: x in xs[1..] ==> x in xs;
      TextOfCharacters(Run(m, xs[0]).m, xs[1..]);
      DeliversThen(m, xs[0], Chars(xs[0]), Join(xs[1..]), Chars(Join(xs[1..])));
      CharsConcat(xs[0], Join(xs[1..]));
    }
  }

  lemma DeliversNothing(m: Machine)
    requires Idle(m)
    ensures Delivers(m, "", [])
  {
    assert m.out + [] == m.out;
  }

  /** Inside a section, none of its last brackets held back. */
  predicate Section(m: Machine, s: string, out: seq<Event>)
    requires m.Valid()
  {
    var r := Run(m, s);
    r.error == Ok && r.m.context == SectText && r.m.uniMax == 0 && r.m.out == out
  }

  lemma SectionCharacter(m: Machine, x: string)
    requires m.Valid() && m.context == SectText && m.uniMax == 0 && Character(x) && x != "]"
    ensures Section(m, x, m.out + Chars(x))
  {
    if MultiByte(x) {
      hide Run, Step;
      MultiByteAnywhere(m, x);
    } else {
      hide Run;
      assert x == [x[0]] && Chars(x) == [Text(x)];
      SectionByte(m, 0, x[0]);
    }
  }

  lemma {:induction false} SectionCharacters(m: Machine, xs: seq<string>)
    requires m.Valid() && m.context == SectText && m.uniMax == 0
    requires forall x :: x in xs ==> Character(x) && x != "]"
    ensures Section(m, Join(xs), m.out + Chars(Join(xs)))
    decreases |xs|
  {
    hide Run, Step, Character;
    if xs == [] {
      RunNothing(m);
      assert m.out + [] == m.out;
    } else {
      SectionCharacter(m, xs[0]);
      var p := Run(m, xs[0]).m;
      assert forall x :: x in xs[1..] ==> x in xs;
      SectionCharacters(p, xs[1..]);
      ReadsThen(m, xs[0], p, Join(xs[1..]), Run(p, Join(xs[1..])).m);
      CharsConcat(xs[0], Join(xs[1..]));
      assert m.out + Chars(xs[0]) + Chars(Join(xs[1..])) == m.out + Chars(Join(xs));
    }
  }

  /** So is a section of any characters but ']'. */
  lemma SectionOfCharacters(m: Machine, xs: seq<string>)
    requires Idle(m) && forall x :: x in xs ==> Character(x) && x != "]"
    ensures Delivers(m, OPENER + Join(xs) + "]]>", Chars(Join(xs)))
  {
    hide Run, Step, Character;
    OpenerOpens(m);
    var p := Run(m, OPENER).m;
    SectionCharacters(p, xs);
    var q := Run(p, Join(xs)).m;
    ReadsThen(m, OPENER, p, Join(xs), q);
    SectionCloses(q);
    ReadsThen(m, OPENER + Join(xs), q, "]]>", Run(q, "]]>").m);
  }

  lemma SectionCloses(m: Machine)
    requires m.Valid() && m.context == SectText && m.uniMax == 0
    ensures Delivers(m, "]]>", [])
  {
    hide Run, Step;
    SectionByte(m, 0, ']');
    var p := Run(m, "]").m;
    SectionByte(p, 1, ']');
    ReadsThen(m, "]", p, "]", Run(p, "]").m);
    assert "]" + "]" == "]]";
    var q := Run(m, "]]").m;
    SectionLast(q);
    ReadsThen(m, "]]", q, ">", Run(q, ">").m);
    assert "]]" + ">" == "]]>";
    assert m.out + [] == m.out;
  }

  /** A multi-byte character behind a bracket of a section is lost. */
  lemma LostInSection(m: Machine, x: string, c: char)
    requires Idle(m) && MultiByte(x) && IsAscii(c) && c != ']'
    ensures Delivers(m, OPENER + "]" + x + [c] + "]]>", [Text("]"), Text([c])])
  {
    hide Run, Step, MultiByte;
    OpenerOpens(m);
    var p := Run(m, OPENER).m;
    SectionByte(p, 0, ']');
    var q := Run(p, "]").m;
    ReadsThen(m, OPENER, p, "]", q);
    MultiByteAnywhere(q, x);
    var r := Run(q, x).m;
    ReadsThen(m, OPENER + "]", q, x, r);
    SectionByte(r, 1, c);
    var t := Run(r, [c]).m;
    ReadsThen(m, OPENER + "]" + x, r, [c], t);
    SectionCloses(t);
    ReadsThen(m, OPENER + "]" + x + [c], t, "]]>", Run(t, "]]>").m);
  }

  /** A multi-byte character in a tag name is part of it, unless it is the first: then it is lost. */
  lemma CharacterInName(m: Machine, front: string, x: string, rest: string)
    requires Idle(m) && MultiByte(x) && TagName(front + rest)
    ensures Delivers(m, "<" + front + x + rest + "/>", [Tag((if front == "" then "" else front + x) + rest, [], Single)])
  {
    hide Run, Step, MultiByte;
    var name := (if front == "" then "" else front + x) + rest;
    NameRead(m, front, x, rest, name);
    var p := Run(m, "<" + front + x + rest).m;
    RunSingleEnd(p, name, [], m.out);
    ReadsThen(m, "<" + front + x + rest, p, "/>", Run(p, "/>").m);
  }

  lemma NameRead(m: Machine, front: string, x: string, rest: string, name: string)
    requires Idle(m) && MultiByte(x) && TagName(front + rest)
    requires name == (if front == "" then "" else front + x) + rest
    ensures var r := Run(m, "<" + front + x + rest); r.error == Ok && Between(r.m, name, [], m.out)
  {
    hide Run, Step, MultiByte;
    if front == "" {
      RunLess(m);
      var p := Run(m, "<").m;
      MultiByteAnywhere(p, x);
      var q := Run(p, x).m;
      ReadsThen(m, "<", p, x, q);
      assert front + rest == rest && name == rest;
      RunName(q, rest);
      ReadsThen(m, "<" + x, q, rest, Run(q, rest).m);
      assert "<" + front + x == "<" + x;
    } else {
      NameSplits(front, rest);
      RunTagStart(m, front);
      var p := Run(m, "<" + front).m;
      MultiByteAnywhere(p, x);
      var q := Run(p, x).m;
      ReadsThen(m, "<" + front, p, x, q);
      Collect(q, rest);
      ReadsThen(m, "<" + front + x, q, rest, Run(q, rest).m);
    }
  }

  lemma NameSplits(front: string, rest: string)
    requires TagName(front + rest) && front != ""
    ensures TagName(front) && forall i :: 0 <= i < |rest| ==> TagByte(rest[i])
  {
    assert forall i :: 0 <= i < |front| ==> (front + rest)[i] == front[i];
    assert forall i :: 0 <= i < |rest| ==> (front + rest)[|front| + i] == rest[i];
  }

  /** A byte that starts no character is an error anywhere between characters: a NUL, one of the others, a first byte
      without payload bits, and what is above all first bytes. */
  lemma RefusedByte(m: Machine, c: char)
    requires m.Valid() && m.uniMax == 0
    requires c == '\0' || 0x80 <= c as int <= 0xBF || c as int in {0xC0, 0xE0, 0xF0, 0xF8, 0xFC} || c as int >= 0xFE
    ensures Run(m, [c]).error == BadXml
  {
    hide Switch, Pass;
  }

  // ----- comments, instructions, declarations

  /** No two hyphens in a row, and none at the end. */
  predicate CommentText(x: string) {
    AllAscii(x) && forall i :: 0 <= i < |x| && x[i] == '-' ==> i + 1 < |x| && x[i + 1] != '-'
  }

  predicate Skips(m: Machine, s: string, context: Context)
    requires m.Valid()
  {
    var r := Run(m, s);
    r.error == Ok && r.m.uniMax == 0 && r.m.out == m.out && r.m.context == context
  }

  lemma SkipsThen(m: Machine, s: string, context: Context, t: string, next: Context)
    requires m.Valid() && Skips(m, s, context) && Skips(Run(m, s).m, t, next)
    ensures Skips(m, s + t, next)
  {
    hide Run, Step;
    RunConcat(m, s, t);
  }

  lemma SkipsByte(m: Machine, c: char)
    requires m.Valid() && m.uniMax == 0
    requires Step(m, c).Go? && !Step(m, c).again && Step(m, c).m.out == m.out && Step(m, c).m.uniMax == 0
    ensures Skips(m, [c], Step(m, c).m.context)
  {
    hide Run, Step;
    ReadsByte(m, c, Step(m, c).m);
  }

  lemma SkippedDelivers(m: Machine, s: string)
    requires m.Valid() && Skips(m, s, InText)
    ensures Delivers(m, s, [])
  {
    hide Run;
    assert m.out + [] == m.out;
  }

  lemma CommentOpens(m: Machine)
    requires Idle(m)
    ensures Skips(m, "<!--", Comment1)
  {
    hide Run;
    MarkupOpens(m);
    var q := Run(m, "<!").m;
    SkipsByte(q, '-');
    var p := Run(q, "-").m;
    SkipsByte(p, '-');
    SkipsThen(q, "-", Comment, "-", Comment1);
    SkipsThen(m, "<!", Markup, "-" + "-", Comment1);
    assert "<!" + ("-" + "-") == "<!--";
  }

  lemma MarkupOpens(m: Machine)
    requires Idle(m)
    ensures Skips(m, "<!", Markup)
  {
    hide Run;
    SkipsByte(m, '<');
    SkipsByte(Run(m, "<").m, '!');
    SkipsThen(m, "<", TagStart, "!", Markup);
    assert "<" + "!" == "<!";
  }

  lemma CommentByte(m: Machine, c: char)
    requires m.Valid() && m.uniMax == 0 && m.context in {Comment1, Comment2} && IsAscii(c) && (m.context == Comment2 ==> c != '-')
    ensures Skips(m, [c], if c == '-' then Comment2 else Comment1)
  {
    hide Run;
    SkipsByte(m, c);
  }

  lemma {:induction false} CommentBytes(m: Machine, x: string)
    requires m.Valid() && m.uniMax == 0 && CommentText(x)
    requires m.context == Comment1 || (m.context == Comment2 && x != "" && x[0] != '-')
    ensures Skips(m, x, Comment1)
    decreases |x|
  {
    hide Run, Step;
    if x == "" {
      RunNothing(m);
    } else {
      CommentByte(m, x[0]);
      var p := Run(m, [x[0]]).m;
      assert CommentText(x[1..]) && (x[0] == '-' ==> x[1..] != "" && x[1..][0] != '-');
      CommentBytes(p, x[1..]);
      SkipsThen(m, [x[0]], p.context, x[1..], Comment1);
      assert [x[0]] + x[1..] == x;
    }
  }

  lemma TwoHyphens(m: Machine)
    requires m.Valid() && m.uniMax == 0 && m.context == Comment1
    ensures Skips(m, "--", Comment3)
  {
    hide Run;
    SkipsByte(m, '-');
    SkipsByte(Run(m, "-").m, '-');
    SkipsThen(m, "-", Comment2, "-", Comment3);
    assert "-" + "-" == "--";
  }

  lemma CommentUpToHyphens(m: Machine, x: string)
    requires Idle(m) && CommentText(x)
    ensures Skips(m, "<!--" + x + "--", Comment3)
  {
    hide Run, Step;
    CommentOpens(m);
    CommentBytes(Run(m, "<!--").m, x);
    SkipsThen(m, "<!--", Comment1, x, Comment1);
    TwoHyphens(Run(m, "<!--" + x).m);
    SkipsThen(m, "<!--" + x, Comment1, "--", Comment3);
  }

  /** A comment delivers nothing. */
  lemma CommentSkipped(m: Machine, x: string)
    requires Idle(m) && CommentText(x)
    ensures Delivers(m, "<!--" + x + "-->", [])
  {
    hide Run;
    var s := "<!--" + x + "--";
    CommentUpToHyphens(m, x);
    SkipsByte(Run(m, s).m, '>');
    SkipsThen(m, s, Comment3, ">", InText);
    assert s + ">" == "<!--" + x + "-->" by { assert "--" + ">" == "-->"; }
    SkippedDelivers(m, s + ">");
  }

  /** Two hyphens inside one are an error. */
  lemma HyphensInComment(m: Machine, x: string, c: char)
    requires Idle(m) && CommentText(x) && IsAscii(c) && c != '>'
    ensures Run(m, "<!--" + x + "--" + [c]).error == BadXml
  {
    hide Run;
    var s := "<!--" + x + "--";
    CommentUpToHyphens(m, x);
    RunConcat(m, s, [c]);
    AfterHyphens(Run(m, s).m, c);
  }

  lemma AfterHyphens(m: Machine, c: char)
    requires m.Valid() && m.uniMax == 0 && m.context == Comment3 && IsAscii(c) && c != '>'
    ensures Run(m, [c]).error == BadXml
  {
  }

  /** So is a comment that opens with one hyphen. */
  lemma HalfOpenedComment(m: Machine, c: char)
    requires Idle(m) && IsAscii(c) && c != '-'
    ensures Run(m, "<!-" + [c]).error == BadXml
  {
    hide Run;
    MarkupOpens(m);
    SkipsByte(Run(m, "<!").m, '-');
    SkipsThen(m, "<!", Markup, "-", Comment);
    assert "<!" + "-" == "<!-";
    RunConcat(m, "<!-", [c]);
    NoSecondHyphen(Run(m, "<!-").m, c);
  }

  lemma NoSecondHyphen(m: Machine, c: char)
    requires m.Valid() && m.uniMax == 0 && m.context == Comment && IsAscii(c) && c != '-'
    ensures Run(m, [c]).error == BadXml
  {
  }

  lemma {:induction false} UpToGreater(m: Machine, x: string)
    requires m.Valid() && m.uniMax == 0 && m.context in {Instruction, Markup1} && AllAscii(x) && '>' !in x
    ensures Skips(m, x, m.context)
    decreases |x|
  {
    hide Run, Step;
    if x == "" {
      RunNothing(m);
    } else {
      NotGreater(m, x[0]);
      UpToGreater(Run(m, [x[0]]).m, x[1..]);
      SkipsThen(m, [x[0]], m.context, x[1..], m.context);
      assert [x[0]] + x[1..] == x;
    }
  }

  lemma NotGreater(m: Machine, c: char)
    requires m.Valid() && m.uniMax == 0 && m.context in {Instruction, Markup1} && IsAscii(c)
    ensures Skips(m, [c], if c == '>' then InText else m.context)
  {
    hide Run;
    SkipsByte(m, c);
  }

  /** A processing instruction delivers nothing; it ends at the first '>'. */
  lemma InstructionSkipped(m: Machine, x: string)
    requires Idle(m) && AllAscii(x) && '>' !in x
    ensures Delivers(m, "<?" + x + ">", [])
  {
    hide Run;
    SkipsByte(m, '<');
    SkipsByte(Run(m, "<").m, '?');
    SkipsThen(m, "<", TagStart, "?", Instruction);
    assert "<" + "?" == "<?";
    UpToGreater(Run(m, "<?").m, x);
    SkipsThen(m, "<?", Instruction, x, Instruction);
    NotGreater(Run(m, "<?" + x).m, '>');
    SkipsThen(m, "<?" + x, Instruction, ">", InText);
    SkippedDelivers(m, "<?" + x + ">");
  }

  lemma MarkupByte(m: Machine, c: char)
    requires m.Valid() && m.uniMax == 0 && m.context == Markup && IsAscii(c) && c != '-' && c != '['
    ensures Skips(m, [c], if c == '>' then InText else Markup1)
  {
    hide Run;
    SkipsByte(m, c);
  }

  /** A declaration delivers nothing; it ends at the first '>'. */
  lemma DeclarationSkipped(m: Machine, x: string)
    requires Idle(m) && AllAscii(x) && '>' !in x && (x != "" ==> x[0] != '-' && x[0] != '[')
    ensures Delivers(m, "<!" + x + ">", [])
  {
    hide Run, Step;
    MarkupOpens(m);
    var p := Run(m, "<!").m;
    if x == "" {
      MarkupByte(p, '>');
      SkipsThen(m, "<!", Markup, ">", InText);
      assert "<!" + x + ">" == "<!" + ">";
    } else {
      MarkupByte(p, x[0]);
      var q := Run(p, [x[0]]).m;
      UpToGreater(q, x[1..]);
      SkipsThen(p, [x[0]], Markup1, x[1..], Markup1);
      assert [x[0]] + x[1..] == x;
      SkipsThen(m, "<!", Markup, x, Markup1);
      NotGreater(Run(m, "<!" + x).m, '>');
      SkipsThen(m, "<!" + x, Markup1, ">", InText);
    }
    SkippedDelivers(m, "<!" + x + ">");
  }

  // ----- tags

  /** The bytes that end a name as white space: exactly four; any other is part of the name. */
  lemma WhiteSpaceIff(m: Machine, name: string, c: char)
    requires Idle(m) && TagName(name) && IsAscii(c) && c != '/' && c != '>'
    ensures var doc := "<" + name + [c] + "/>";
      if c in {' ', '\t', '\r', '\n'} then Delivers(m, doc, [Tag(name, [], Single)])
      else Delivers(m, doc, [Tag(name + [c], [], Single)])
  {
    hide Run, Step, Spell, ValuesOf, WellWritten, Delivers;
    var ws: seq<Written> := [];
    NothingWritten();
    if IsSpace(c) {
      assert AllBlank([c]);
      RunWrittenTag(m, name, ws, [c], true);
      assert "<" + name + Spell(ws) + [c] == "<" + name + [c];
    } else {
      BlankNothing();
      RunWrittenTag(m, name + [c], ws, "", true);
      assert "<" + (name + [c]) + Spell(ws) + "" == "<" + name + [c];
    }
  }

  lemma NothingWritten()
    ensures Spell([]) == "" && ValuesOf([]) == []
  {
  }

  /** A closing tag with white space behind its name. */
  lemma CloseWithBlanks(m: Machine, name: string, blanks: string)
    requires Idle(m) && TagName(name) && AllBlank(blanks)
    ensures Delivers(m, "</" + name + blanks + ">", [Tag(name, [], Close)])
  {
    hide Run, Step;
    if blanks == "" {
      RunClose(m, name);
      assert "</" + name + blanks + ">" == "</" + name + ">";
    } else {
      RunCloseStart(m);
      var p := Run(m, "</").m;
      Collect(p, name);
      var q := Run(p, name).m;
      assert "" + name == name;
      ReadsThen(m, "</", p, name, q);
      CloseBlanks(q, name, m.out, blanks);
      var r := Run(q, blanks).m;
      ReadsThen(m, "</" + name, q, blanks, r);
      CloseEnd(r, name);
      ReadsThen(m, "</" + name + blanks, r, ">", Run(r, ">").m);
    }
  }

  /** Behind the name of a closing tag. */
  predicate Closing(m: Machine, name: string, out: seq<Event>) {
    && m.Valid() && m.uniMax == 0 && m.tagType == Close && m.out == out && m.atts == []
    && if m.context == InTag then m.cur == name else m.context == Whitespace && m.oldContext == TagEnd && m.name == name
  }

  lemma CloseBlank(m: Machine, name: string, out: seq<Event>, c: char)
    requires Closing(m, name, out) && IsSpace(c)
    ensures Run(m, [c]).error == Ok && Closing(Run(m, [c]).m, name, out) && Run(m, [c]).m.context == Whitespace
  {
    hide Run;
    ReadsByte(m, c, Step(m, c).m);
  }

  lemma {:induction false} CloseBlanks(m: Machine, name: string, out: seq<Event>, blanks: string)
    requires Closing(m, name, out) && AllBlank(blanks) && (m.context == Whitespace || blanks != "")
    ensures Run(m, blanks).error == Ok && Closing(Run(m, blanks).m, name, out) && Run(m, blanks).m.context == Whitespace
    decreases |blanks|
  {
    hide Run, Step;
    if blanks == "" {
      RunNothing(m);
    } else {
      CloseBlank(m, name, out, blanks[0]);
      var p := Run(m, [blanks[0]]).m;
      CloseBlanks(p, name, out, blanks[1..]);
      ReadsThen(m, [blanks[0]], p, blanks[1..], Run(p, blanks[1..]).m);
      assert [blanks[0]] + blanks[1..] == blanks;
    }
  }

  lemma CloseEnd(m: Machine, name: string)
    requires Closing(m, name, m.out) && m.context == Whitespace
    ensures Delivers(m, ">", [Tag(name, [], Close)])
  {
    hide Run;
    var p := m.(context := TagEnd);
    var q := Step(p, '>').m;
    ReadsByte(p, '>', q);
    ReadsAgain(m, '>', p, q);
  }

  // ----- what is refused inside tags and at the start of a section

  /** A value without a quote. */
  lemma NoQuote(m: Machine, name: string, ws: seq<Written>, blanks: string, att: string, c: char)
    requires Idle(m) && TagName(name) && (forall w :: w in ws ==> WellWritten(w)) && (ws != [] ==> ws[0].blanks != "")
    requires blanks != "" && AllBlank(blanks) && AttributeName(att) && IsAscii(c) && c != '\'' && c != '"'
    ensures Run(m, "<" + name + Spell(ws) + (blanks + att) + "=" + [c]).error == BadXml
  {
    hide Run, Step, Spell, ValuesOf, WellWritten;
    RunTagStart(m, name);
    var p := Run(m, "<" + name).m;
    RunAttrs(p, name, [], m.out, ws);
    var q := Run(p, Spell(ws)).m;
    ReadsThen(m, "<" + name, p, Spell(ws), q);
    RunAttrName(q, name, [] + ValuesOf(ws), m.out, blanks, att);
    var r := Run(q, blanks + att).m;
    ReadsThen(m, "<" + name + Spell(ws), q, blanks + att, r);
    ValueWithoutQuote(r, c);
    RunConcat(m, "<" + name + Spell(ws) + (blanks + att), "=" + [c]);
    assert "<" + name + Spell(ws) + (blanks + att) + "=" + [c] == "<" + name + Spell(ws) + (blanks + att) + ("=" + [c]);
  }

  lemma ValueWithoutQuote(m: Machine, c: char)
    requires m.Valid() && m.uniMax == 0 && m.context == AttName && IsAscii(c) && c != '\'' && c != '"'
    ensures Run(m, "=" + [c]).error == BadXml
  {
    hide Run;
    var p := Step(m, '=').m;
    ReadsByte(m, '=', p);
    RunConcat(m, "=", [c]);
    NotAQuote(p, c);
  }

  lemma NotAQuote(m: Machine, c: char)
    requires m.Valid() && m.uniMax == 0 && m.context == ValueStart && IsAscii(c) && c != '\'' && c != '"'
    ensures Run(m, [c]).error == BadXml
  {
  }

  /** A slash that is not followed by '>'. */
  lemma SlashAlone(m: Machine, name: string, c: char)
    requires Idle(m) && TagName(name) && IsAscii(c) && c != '>'
    ensures Run(m, "<" + name + "/" + [c]).error == BadXml
  {
    hide Run, Step;
    RunTagStart(m, name);
    var p := Run(m, "<" + name).m;
    RunSlash(p, name, [], m.out);
    ReadsThen(m, "<" + name, p, "/", Run(p, "/").m);
    RunConcat(m, "<" + name + "/", [c]);
    NotTheEnd(Run(p, "/").m, c);
  }

  lemma NotTheEnd(m: Machine, c: char)
    requires m.Valid() && m.uniMax == 0 && m.context == TagEnd && IsAscii(c) && c != '>'
    ensures Run(m, [c]).error == BadXml
  {
  }

  /** A slash at the end of a closing tag. */
  lemma SlashInClosingTag(m: Machine, name: string)
    requires Idle(m) && TagName(name)
    ensures Run(m, "</" + name + "/").error == BadXml
  {
    hide Run, Step;
    RunCloseStart(m);
    var p := Run(m, "</").m;
    Collect(p, name);
    ReadsThen(m, "</", p, name, Run(p, name).m);
    RunConcat(m, "</" + name, "/");
    ClosedTwice(Run(p, name).m);
  }

  lemma ClosedTwice(m: Machine)
    requires m.Valid() && m.uniMax == 0 && m.context == InTag && m.tagType == Close
    ensures Run(m, "/").error == BadXml
  {
  }

  /** The opener of a section with a wrong byte behind the first bracket. */
  lemma OtherSection(m: Machine, i: nat, c: char)
    requires Idle(m) && 3 <= i < 9 && IsAscii(c) && c != OPENER[i]
    ensures Run(m, OPENER[..i] + [c]).error == BadXml
  {
    hide Run, Step;
    OpenerMoves(m, i);
    RunConcat(m, OPENER[..i], [c]);
    NotTheOpener(Run(m, OPENER[..i]).m, i, c);
  }

  lemma NotTheOpener(m: Machine, i: nat, c: char)
    requires m.Valid() && m.uniMax == 0 && 3 <= i < 9 && m.context == OPENING[i] && IsAscii(c) && c != OPENER[i]
    ensures Run(m, [c]).error == BadXml
  {
    hide Switch, Run;
    assert Switch(m, c).Stop? by { OpenerStops(m, i, c); }
    StoppedAt(m, c);
  }

  lemma OpenerStops(m: Machine, i: nat, c: char)
    requires 3 <= i < 9 && m.context == OPENING[i] && c != OPENER[i]
    ensures Switch(m, c).Stop?
  {
  }

  lemma StoppedAt(m: Machine, c: char)
    requires m.Valid() && m.uniMax == 0 && IsAscii(c) && Switch(m, c).Stop?
    ensures Run(m, [c]).error == BadXml
  {
    hide Switch;
    StepAscii(m, c);
  }

  // ----- a document

  lemma TestAttributes()
    ensures var ws := [Written(" ", "abc", '\'', "123"), Written(" ", "id", '"', "XC72")];
      && (forall w :: w in ws ==> WellWritten(w))
      && Spell(ws) == " abc='123'" + " id=\"XC72\"" && ValuesOf(ws) == [("abc", "123"), ("id", "XC72")]
  {
    hide SpellOne, WellWritten;
    var v, w := Written(" ", "abc", '\'', "123"), Written(" ", "id", '"', "XC72");
    FirstAttribute();
    SecondAttribute();
    assert [v, w][1..] == [w] && [w][1..] == [];
    assert Spell([w]) == SpellOne(w) + "" == SpellOne(w);
  }

  lemma FirstAttribute()
    ensures var w := Written(" ", "abc", '\'', "123"); WellWritten(w) && SpellOne(w) == " abc='123'"
  {
  }

  lemma SecondAttribute()
    ensures var w := Written(" ", "id", '"', "XC72"); WellWritten(w) && SpellOne(w) == " id=\"XC72\""
  {
  }

  /** A document of the repository's own parser test, with both quotes. */
  lemma TestDocument(m: Machine)
    requires Idle(m)
    ensures Delivers(m, "<mytag" + (" abc='123'" + " id=\"XC72\"") + ">" + "</mytag>",
                     [Tag("mytag", [("abc", "123"), ("id", "XC72")], Open), Tag("mytag", [], Close)])
  {
    hide Run, Step, Spell, ValuesOf, WellWritten, TagName, AllBlank, Delivers;
    var ws := [Written(" ", "abc", '\'', "123"), Written(" ", "id", '"', "XC72")];
    var atts := [("abc", "123"), ("id", "XC72")];
    TestAttributes();
    TestName();
    BlankNothing();
    RunWrittenTag(m, "mytag", ws, "", false);
    var open := "<mytag" + (" abc='123'" + " id=\"XC72\"") + ">";
    assert "<" + "mytag" == "<mytag";
    assert "<mytag" + (" abc='123'" + " id=\"XC72\"") + "" == "<mytag" + (" abc='123'" + " id=\"XC72\"");
    DeliveredIdle(m, open, [Tag("mytag", atts, Open)]);
    RunClose(Run(m, open).m, "mytag");
    assert "</" + "mytag" + ">" == "</mytag>";
    DeliversThen(m, open, [Tag("mytag", atts, Open)], "</mytag>", [Tag("mytag", [], Close)]);
    assert [Tag("mytag", atts, Open)] + [Tag("mytag", [], Close)] == [Tag("mytag", atts, Open), Tag("mytag", [], Close)];
  }

  lemma TestName()
    ensures TagName("mytag")
  {
  }

  lemma DeliveredIdle(m: Machine, s: string, es: seq<Event>)
    requires m.Valid() && Delivers(m, s, es)
    ensures Idle(Run(m, s).m)
  {
    hide Run;
  }

  // ----- what the printer writes

  lemma PrintedPieces()
    ensures PrintAttrs([("b", "1<2'")]) == " b='1&lt;2&apos;'"
    ensures Print(Cdata("&")) == "&amp;" && Print(Element("c", [], [])) == "<c/>"
  {
    assert "1<2'"[1..] == "<2'" && "<2'"[1..] == "2'" && "2'"[1..] == "'" && "'"[1..] == "";
    assert Escape("'") == "&apos;" && Escape("2'") == "2&apos;" && Escape("<2'") == "&lt;2&apos;";
    assert Escape("1<2'") == "1&lt;2&apos;";
    assert [("b", "1<2'")][1..] == [];
    assert " " + "b" + "='" + "1&lt;2&apos;" + "'" + "" == " b='1&lt;2&apos;'";
    assert Escape("&") == "&amp;" + "";
    assert "<" + "c" + "" + "/>" == "<c/>";
  }

  /** A printed element: apostrophes around values, the five characters escaped, a single tag when there is nothing inside. */
  lemma PrintedElement()
    ensures Print(Element("a", [("b", "1<2'")], [Cdata("&"), Element("c", [], [])]))
         == "<a" + " b='1&lt;2&apos;'" + (">" + ("&amp;" + "<c/>") + "</a" + ">")
  {
    hide Escape, PrintAttrs;
    PrintedPieces();
    var kids := [Cdata("&"), Element("c", [], [])];
    assert kids[1..] == [Element("c", [], [])] && kids[1..][1..] == [];
    assert PrintAll(kids[1..]) == "<c/>" + "";
    assert PrintAll(kids) == "&amp;" + "<c/>";
    assert "<" + "a" == "<a" && "</" + "a" == "</a";
    assert ">" + PrintAll(kids) + "</" + "a" + ">" == ">" + ("&amp;" + "<c/>") + "</a" + ">";
  }
}

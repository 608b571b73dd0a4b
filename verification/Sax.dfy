/** sax.c: the incremental parser, with its positions in the caller's buffer and its own growing
    string buffer. Addresses are integers: a string of the string buffer is the address of its
    first byte, so moving the buffer has to correct every address kept in the parser. */
module Sax {
  import opened Xml
  import opened SaxMachine
  import opened SaxLaws

  /** The user's hooks. `answer` is what they return, given all calls up to and including this one. */
  class Hooks {
    const answer: seq<Event> -> Error
    var calls: seq<Report>

    constructor (answer: seq<Event> -> Error)
      ensures this.answer == answer && calls == []
    {
      this.answer := answer;
      calls := [];
    }

    method Call(e: Report) returns (error: Error)
      modifies this
      ensures calls == old(calls) + [e] && error == answer(calls)
    {
      calls := calls + [e];
      error := answer(calls);
    }
  }

  // ----- strings in memory

  /** A C string at offset o. */
  ghost predicate StrAt(mem: string, o: int, s: string) {
    0 <= o && o + |s| < |mem| && mem[o..o + |s|] == s && mem[o + |s|] == '\0' && '\0' !in s
  }

  lemma StrAtGrow(mem: string, more: string, o: int, s: string)
    requires StrAt(mem, o, s)
    ensures StrAt(mem + more, o, s)
  {
    assert (mem + more)[o..o + |s|] == mem[o..o + |s|];
  }

  /** A string just ended. */
  lemma StrAtEnd(mem: string, o: int, s: string)
    requires 0 <= o <= |mem| && mem[o..] == s && '\0' !in s
    ensures StrAt(mem + "\0", o, s)
  {
    assert |mem| == o + |s|;
    assert (mem + "\0")[o..o + |s|] == mem[o..];
  }

  // ----- the fields of a parser as a value

  /** What a parser's fields hold: `mem` is the used part of the string buffer, `base` its address,
      `entity` the used part of the entity buffer, `calls` the history of the hooks. */
  datatype Fields = Fields(
    ready: bool, base: int, mem: string, tagName: int, attCur: nat, attFlag: bool, atts: seq<int>,
    context: Context, oldContext: Context, tagType: TagType, entity: string,
    uniMax: nat, uniLen: nat, calls: seq<Event>)

  /** The fields that are the same in the machine. */
  ghost predicate Agrees(v: Fields, m: Machine) {
    && m.Valid() && v.context == m.context && v.oldContext == m.oldContext && v.tagType == m.tagType
    && v.entity == m.entity && v.uniMax == m.uniMax && v.uniLen == m.uniLen
  }

  /** The attribute strings of a list are in memory, name and value at alternating addresses. */
  ghost predicate AttStrings(mem: string, base: int, atts: seq<int>, list: Attrs) {
    && 2 * |list| <= |atts|
    && forall i :: 0 <= i < |list| ==>
         StrAt(mem, atts[2 * i] - base, list[i].0) && StrAt(mem, atts[2 * i + 1] - base, list[i].1)
  }

  predicate InValue(context: Context) {
    context in {ValueStart, ValueApos, ValueQuot}
  }

  predicate Named(context: Context) {
    InsideTag(context) && context != InTag
  }

  /** The finished strings of the tag being read are in memory where the parser's addresses say. */
  ghost predicate Names(v: Fields, m: Machine) {
    && v.attCur == 2 * |m.atts| && AttStrings(v.mem, v.base, v.atts, m.atts)
    && (Named(m.context) ==> StrAt(v.mem, v.tagName - v.base, m.name))
    && (InValue(m.context) ==> v.attCur < |v.atts| && StrAt(v.mem, v.atts[v.attCur] - v.base, m.attName))
    && (m.context == TagEnd && v.attCur > 0 ==> v.attCur < |v.atts| && v.atts[v.attCur] == 0)
  }

  /** The string being read is what is in memory from its address on, and then `seg`, the bytes
      marked in the caller's buffer. */
  ghost predicate Growing(v: Fields, m: Machine, seg: string) {
    match m.context
    case InTag => GrowsAt(v.mem, v.tagName - v.base, m.cur, seg)
    case AttName => v.attCur < |v.atts| && GrowsAt(v.mem, v.atts[v.attCur] - v.base, m.cur, seg)
    case ValueApos => v.attCur + 1 < |v.atts| && GrowsAt(v.mem, v.atts[v.attCur + 1] - v.base, m.cur, seg)
    case ValueQuot => v.attCur + 1 < |v.atts| && GrowsAt(v.mem, v.atts[v.attCur + 1] - v.base, m.cur, seg)
    case _ => true
  }

  ghost predicate GrowsAt(mem: string, o: int, cur: string, seg: string) {
    0 <= o <= |mem| && mem[o..] + seg == cur && '\0' !in cur
  }

  /** How many addresses of attributes the tag in progress has set, behind the finished ones. */
  function Pending(context: Context): nat {
    match context
    case AttName => 1
    case ValueStart => 1
    case ValueApos => 2
    case ValueQuot => 2
    case _ => 0
  }

  /** The first n attribute addresses are real addresses, and marked for correction. */
  ghost predicate Addressed(v: Fields, n: nat) {
    && 0 < v.base && n <= |v.atts| && (n > 0 ==> v.attFlag)
    && forall i :: 0 <= i < n ==> v.atts[i] >= v.base
  }

  /** The bytes between the mark and the current position. */
  ghost function Segment(buf: string, pos: nat, stackOld: int): string
    requires -1 <= stackOld <= pos <= |buf|
  {
    if stackOld == -1 then "" else buf[stackOld..pos]
  }

  /** Inside a tag, `pos` bytes into buf: the machine is in state m. */
  ghost predicate Inside(v: Fields, m: Machine, buf: string, pos: nat, stackOld: int) {
    && pos <= |buf| && -1 <= stackOld <= pos && (stackOld != -1 <==> m.armed)
    && v.ready && Agrees(v, m) && InsideTag(m.context) && m.out == Flat(v.calls)
    && Names(v, m) && Addressed(v, v.attCur + Pending(m.context))
    && Growing(v, m, Segment(buf, pos, stackOld))
  }

  /** Text passed over but not yet delivered. */
  ghost predicate TextPending(v: Fields, m: Machine, buf: string, pos: nat, old_: int)
    requires pos <= |buf|
  {
    if m.context == InText || m.context == SectText then
      0 <= old_ <= pos && m.out == Flat(v.calls) + Chars(buf[old_..pos])
    else
      m.out == Flat(v.calls)
  }

  /** Outside tags the string buffer is empty. */
  ghost predicate Outside(v: Fields, m: Machine, buf: string, pos: nat, old_: int) {
    && pos <= |buf| && Agrees(v, m) && !InsideTag(m.context) && TextPending(v, m, buf, pos, old_)
    && v.mem == "" && v.attCur == 0 && (v.ready ==> 0 < v.base)
    && (m.context == TagStart ==> v.ready && v.tagName == v.base)
  }

  ghost predicate Related(v: Fields, m: Machine, buf: string, pos: nat, old_: int, stackOld: int) {
    if InsideTag(m.context) then Inside(v, m, buf, pos, stackOld)
    else stackOld == -1 && Outside(v, m, buf, pos, old_)
  }

  // ----- the string buffer grows, and may move

  /** s has been appended to the string buffer. The n current attribute addresses point to the same
      strings as before, a NULL stays NULL, whatever a former tag left is anything. */
  ghost predicate Pushed(v: Fields, n: nat, s: string, w: Fields) {
    && w == v.(base := w.base, mem := v.mem + s, tagName := w.tagName, atts := w.atts)
    && 0 < w.base && w.tagName - w.base == v.tagName - v.base
    && n <= |v.atts| == |w.atts|
    && (forall i :: 0 <= i < |v.atts| && v.atts[i] == 0 ==> w.atts[i] == 0)
    && (forall i :: 0 <= i < n ==> w.atts[i] - w.base == v.atts[i] - v.base)
  }

  lemma PushedMoved(v: Fields, n: nat, base: int, moved: seq<int>)
    requires Addressed(v, n) && 0 < base && |moved| == |v.atts|
    requires forall k :: 0 <= k < |moved| ==>
               moved[k] == if v.attFlag && v.atts[k] != 0 then v.atts[k] + (base - v.base) else v.atts[k]
    ensures var w := v.(base := base, tagName := v.tagName + (base - v.base), atts := moved);
      Pushed(v, n, "", w) && Addressed(w, n)
  {
    assert v.mem + "" == v.mem;
  }

  lemma PushedAppend(v: Fields, n: nat, s: string)
    requires Addressed(v, n)
    ensures Pushed(v, n, s, v.(mem := v.mem + s)) && Addressed(v.(mem := v.mem + s), n)
    ensures v.(mem := v.mem + "") == v
  {
    assert v.mem + "" == v.mem;
  }

  lemma PushedTwice(v: Fields, n: nat, s: string, w: Fields, t: string, x: Fields)
    requires Pushed(v, n, s, w) && Pushed(w, n, t, x)
    ensures Pushed(v, n, s + t, x)
  {
    assert (v.mem + s) + t == v.mem + (s + t);
  }

  lemma AttStringsGrow(v: Fields, n: nat, s: string, w: Fields, list: Attrs)
    requires Pushed(v, n, s, w) && 2 * |list| <= n && AttStrings(v.mem, v.base, v.atts, list)
    ensures AttStrings(w.mem, w.base, w.atts, list)
  {
    hide StrAt;
    forall i | 0 <= i < |list|
      ensures StrAt(w.mem, w.atts[2 * i] - w.base, list[i].0)
      ensures StrAt(w.mem, w.atts[2 * i + 1] - w.base, list[i].1)
    {
      StrAtGrow(v.mem, s, v.atts[2 * i] - v.base, list[i].0);
      StrAtGrow(v.mem, s, v.atts[2 * i + 1] - v.base, list[i].1);
      assert w.atts[2 * i] - w.base == v.atts[2 * i] - v.base;
      assert w.atts[2 * i + 1] - w.base == v.atts[2 * i + 1] - v.base;
    }
  }

  /** Appending to the string buffer, moved or not, keeps the finished strings. */
  lemma NamesGrow(v: Fields, m: Machine, n: nat, s: string, w: Fields)
    requires Names(v, m) && Addressed(v, n) && v.attCur + Pending(m.context) <= n && Pushed(v, n, s, w)
    ensures Names(w, m) && Addressed(w, n)
  {
    hide StrAt, AttStrings, InsideTag;
    AttStringsGrow(v, n, s, w, m.atts);
    if Named(m.context) {
      StrAtGrow(v.mem, s, v.tagName - v.base, m.name);
    }
    if InValue(m.context) {
      StrAtGrow(v.mem, s, v.atts[v.attCur] - v.base, m.attName);
    }
  }

  /** The string that grew at offset o, once it has its NUL. */
  lemma GrownEnds(mem: string, o: int, cur: string, seg: string)
    requires GrowsAt(mem, o, cur, seg)
    ensures StrAt(mem + (seg + "\0"), o, cur)
  {
    assert (mem + seg)[o..] == mem[o..] + seg;
    assert mem + (seg + "\0") == (mem + seg) + "\0";
    StrAtEnd(mem + seg, o, cur);
  }

  // ----- passes inside a tag, on values

  lemma TagContexts()
    ensures InsideTag(Whitespace) && InsideTag(TagEnd) && InsideTag(AttStart) && InsideTag(AttName)
    ensures InsideTag(ValueStart) && InsideTag(ValueApos) && InsideTag(ValueQuot) && InsideTag(AttNext)
    ensures Pending(InTag) == Pending(TagEnd) == Pending(AttStart) == Pending(AttNext) == Pending(Whitespace) == 0
    ensures Pending(AttName) == Pending(ValueStart) == 1 && Pending(ValueApos) == Pending(ValueQuot) == 2
  {
  }

  lemma GatherGrows(v: Fields, m: Machine, seg: string, c: char)
    requires Growing(v, m, seg) && c != '\0' && Naming(m.context)
    ensures Growing(v, m.Gather(c), seg + [c])
  {
    assert forall x :: x + seg == m.cur ==> x + (seg + [c]) == m.cur + [c];
  }

  lemma GatherNames(v: Fields, m: Machine, c: char)
    requires Names(v, m) && Agrees(v, m) && Naming(m.context)
    ensures Names(v, m.Gather(c)) && Agrees(v, m.Gather(c))
  {
    hide StrAt, AttStrings;
  }

  lemma GatherInside(v: Fields, m: Machine, buf: string, pos: nat, stackOld: int, c: char)
    requires Inside(v, m, buf, pos, stackOld) && pos < |buf| && c == buf[pos] && c != '\0' && Naming(m.context)
    ensures Inside(v, m.Gather(c), buf, pos + 1, if stackOld == -1 then pos else stackOld)
  {
    hide Names, Agrees, Growing, Flat, Addressed, Pending, InsideTag, Naming;
    var seg := Segment(buf, pos, stackOld);
    GatherGrows(v, m, seg, c);
    GatherNames(v, m, c);
    assert Segment(buf, pos + 1, if stackOld == -1 then pos else stackOld) == seg + [c];
  }

  lemma TagNameNames(w: Fields, m: Machine, next: Context, after: Context, kind: TagType)
    requires m.context == InTag && Agrees(w, m) && Names(w, m) && StrAt(w.mem, w.tagName - w.base, m.cur)
    requires next in {Whitespace, TagEnd} && (next == Whitespace ==> after in {TagEnd, AttStart})
    ensures var w', m' := w.(context := next, oldContext := after, tagType := kind),
                          EndName(m).(context := next, oldContext := after, tagType := kind);
      Names(w', m') && Agrees(w', m') && Growing(w', m', "")
  {
    hide StrAt, AttStrings, GrowsAt;
  }

  /** Addresses do not depend on the context. */
  lemma AddressedSame(v: Fields, w: Fields, n: nat)
    requires Addressed(v, n) && w.base == v.base && w.atts == v.atts && w.attFlag == v.attFlag
    ensures Addressed(w, n)
  {
  }

  lemma GrowingOffset(v: Fields, m: Machine, seg: string)
    requires Growing(v, m, seg)
    ensures m.context == InTag ==> GrowsAt(v.mem, v.tagName - v.base, m.cur, seg)
    ensures m.context == AttName ==> v.attCur < |v.atts| && GrowsAt(v.mem, v.atts[v.attCur] - v.base, m.cur, seg)
    ensures m.context in {ValueApos, ValueQuot} ==>
      v.attCur + 1 < |v.atts| && GrowsAt(v.mem, v.atts[v.attCur + 1] - v.base, m.cur, seg)
  {
  }

  lemma TagNameEnds(v: Fields, m: Machine, buf: string, pos: nat, stackOld: int, w: Fields,
                    next: Context, after: Context, kind: TagType)
    requires Inside(v, m, buf, pos, stackOld) && m.context == InTag && next in {Whitespace, TagEnd}
    requires next == Whitespace ==> after in {TagEnd, AttStart}
    requires Pushed(v, v.attCur, Segment(buf, pos, stackOld) + "\0", w)
    ensures var w', m' := w.(context := next, oldContext := after, tagType := kind),
                          EndName(m).(context := next, oldContext := after, tagType := kind);
      Inside(w', m', buf, pos, -1) && (pos < |buf| ==> Inside(w', m', buf, pos + 1, -1))
  {
    hide StrAt, Flat, Pending, InsideTag, Names, Agrees, Growing, GrowsAt, Addressed;
    TagContexts();
    var seg := Segment(buf, pos, stackOld);
    GrowingOffset(v, m, seg);
    GrownEnds(v.mem, v.tagName - v.base, m.cur, seg);
    NamesGrow(v, m, v.attCur, seg + "\0", w);
    AgreesSame(v, w, m);
    TagNameNames(w, m, next, after, kind);
    AddressedSame(w, w.(context := next, oldContext := after, tagType := kind), v.attCur);
  }

  lemma AgreesSame(v: Fields, w: Fields, m: Machine)
    requires Agrees(v, m) && w == v.(base := w.base, mem := w.mem, tagName := w.tagName, atts := w.atts)
    ensures Agrees(w, m)
  {
  }

  lemma AttNameNames(w: Fields, m: Machine)
    requires m.Valid() && m.context == AttName && Agrees(w, m) && Names(w, m) && w.attCur < |w.atts|
    requires StrAt(w.mem, w.atts[w.attCur] - w.base, m.cur)
    ensures var w', m' := w.(context := ValueStart), m.(context := ValueStart, attName := m.cur, armed := false);
      Names(w', m') && Agrees(w', m') && Growing(w', m', "")
  {
    hide StrAt, AttStrings, Machine.Valid, GrowsAt;
    AttNameValid(m);
  }

  lemma AttNameValid(m: Machine)
    requires m.Valid() && m.context == AttName
    ensures m.(context := ValueStart, attName := m.cur, armed := false).Valid()
  {
  }

  lemma AttNameEnds(v: Fields, m: Machine, buf: string, pos: nat, stackOld: int, w: Fields)
    requires Inside(v, m, buf, pos, stackOld) && m.context == AttName && pos < |buf|
    requires Pushed(v, v.attCur + 1, Segment(buf, pos, stackOld) + "\0", w)
    ensures Inside(w.(context := ValueStart), m.(context := ValueStart, attName := m.cur, armed := false), buf, pos + 1, -1)
  {
    hide StrAt, Flat, Pending, InsideTag, Names, Growing, GrowsAt, Addressed;
    TagContexts();
    var seg := Segment(buf, pos, stackOld);
    GrowingOffset(v, m, seg);
    GrownEnds(v.mem, v.atts[v.attCur] - v.base, m.cur, seg);
    NamesGrow(v, m, v.attCur + 1, seg + "\0", w);
    AgreesSame(v, w, m);
    assert w.atts[v.attCur] - w.base == v.atts[v.attCur] - v.base && w.mem == v.mem + (seg + "\0");
    AttNameNames(w, m);
    AddressedSame(w, w.(context := ValueStart), v.attCur + 1);
  }

  lemma ValueNames(w: Fields, m: Machine)
    requires m.Valid() && m.context in {ValueApos, ValueQuot} && Names(w, m) && w.attCur + 1 < |w.atts|
    requires StrAt(w.mem, w.atts[w.attCur + 1] - w.base, m.cur)
    ensures Names(w.(attCur := w.attCur + 2, context := Whitespace, oldContext := AttNext), EndValue(m))
  {
    hide StrAt;
    assert EndValue(m).atts == m.atts + [(m.attName, m.cur)];
  }

  lemma EndValueAgrees(w: Fields, m: Machine)
    requires m.context in {ValueApos, ValueQuot} && Agrees(w, m)
    ensures m.Valid() && EndValue(m).armed && EndValue(m).context == Whitespace && EndValue(m).out == m.out
    ensures Agrees(w.(attCur := w.attCur + 2, context := Whitespace, oldContext := AttNext), EndValue(m))
  {
  }

  lemma ValueEnds(v: Fields, m: Machine, buf: string, pos: nat, stackOld: int, w: Fields)
    requires Inside(v, m, buf, pos, stackOld) && m.context in {ValueApos, ValueQuot} && pos < |buf|
    requires Pushed(v, v.attCur + 2, Segment(buf, pos, stackOld) + "\0", w)
    ensures Inside(w.(attCur := v.attCur + 2, context := Whitespace, oldContext := AttNext), EndValue(m), buf, pos + 1, pos)
  {
    hide StrAt, Flat, Pending, InsideTag, Names, GrowsAt, Addressed, Agrees, EndValue;
    TagContexts();
    var seg := Segment(buf, pos, stackOld);
    GrowingOffset(v, m, seg);
    GrownEnds(v.mem, v.atts[v.attCur + 1] - v.base, m.cur, seg);
    NamesGrow(v, m, v.attCur + 2, seg + "\0", w);
    AgreesSame(v, w, m);
    assert w.atts[v.attCur + 1] - w.base == v.atts[v.attCur + 1] - v.base && w.mem == v.mem + (seg + "\0");
    EndValueAgrees(w, m);
    ValueNames(w, m);
    AddressedSame(w, w.(attCur := v.attCur + 2, context := Whitespace, oldContext := AttNext), v.attCur + 2);
  }

  function Put(s: seq<int>, i: nat, v: int): seq<int>
    requires i <= |s|
  {
    if i < |s| then s[i := v] else s + [v]
  }

  lemma AttStartParts(v: Fields, m: Machine, c: char)
    requires m.context == AttStart && Agrees(v, m) && Names(v, m) && c != '\0'
    ensures v.attCur <= |v.atts|
    ensures var w, m' := v.(attFlag := true, atts := Put(v.atts, v.attCur, v.base + |v.mem|), context := AttName),
                         m.(context := AttName, armed := true, cur := [c]);
      Names(w, m') && Agrees(w, m') && Growing(w, m', [c])
  {
    hide StrAt;
    PutKeeps(v.mem, v.base, v.atts, v.attCur, v.base + |v.mem|, m.atts);
    hide AttStrings;
  }

  lemma PutKeeps(mem: string, base: int, atts: seq<int>, n: nat, p: int, list: Attrs)
    requires AttStrings(mem, base, atts, list) && 2 * |list| <= n <= |atts|
    ensures AttStrings(mem, base, Put(atts, n, p), list)
  {
    hide StrAt;
  }

  lemma AddressedPut(v: Fields, n: nat, w: Fields, k: nat)
    requires Addressed(v, n) && w.base == v.base && w.atts == Put(v.atts, n, v.base + k) && w.attFlag
    ensures Addressed(w, n + 1)
  {
  }

  /** An attribute name starts at the end of the string buffer. */
  lemma AttStarts(v: Fields, m: Machine, buf: string, pos: nat, stackOld: int, c: char)
    requires Inside(v, m, buf, pos, stackOld) && m.context == AttStart && pos < |buf| && c == buf[pos] && c != '\0'
    ensures v.attCur <= |v.atts|
    ensures Inside(v.(attFlag := true, atts := Put(v.atts, v.attCur, v.base + |v.mem|), context := AttName),
                   m.(context := AttName, armed := true, cur := [c]), buf, pos + 1, pos)
  {
    hide Flat, Pending, InsideTag, Names, Growing, Addressed, Agrees;
    TagContexts();
    AttStartParts(v, m, c);
    hide Put;
    var w := v.(attFlag := true, atts := Put(v.atts, v.attCur, v.base + |v.mem|), context := AttName);
    AddressedPut(v, v.attCur, w, |v.mem|);
    assert Segment(buf, pos + 1, pos) == [c];
  }

  lemma ValueStartParts(v: Fields, m: Machine, next: Context)
    requires m.context == ValueStart && Agrees(v, m) && Names(v, m) && next in {ValueApos, ValueQuot}
    ensures v.attCur + 1 <= |v.atts|
    ensures var w, m' := v.(attFlag := true, atts := Put(v.atts, v.attCur + 1, v.base + |v.mem|), context := next),
                         m.(context := next, cur := "");
      Names(w, m') && Agrees(w, m') && Growing(w, m', "")
  {
    hide StrAt, AttStrings, Machine.Valid, GrowsAt;
    PutKeeps(v.mem, v.base, v.atts, v.attCur + 1, v.base + |v.mem|, m.atts);
    ValueStartValid(m, next);
    GrowsFromEnd(v.mem);
  }

  lemma ValueStartValid(m: Machine, next: Context)
    requires m.Valid() && m.context == ValueStart && next in {ValueApos, ValueQuot}
    ensures m.(context := next, cur := "").Valid()
  {
  }

  lemma GrowsFromEnd(mem: string)
    ensures GrowsAt(mem, |mem|, "", "")
  {
  }

  /** A value starts at the end of the string buffer. */
  lemma ValueStarts(v: Fields, m: Machine, buf: string, pos: nat, next: Context)
    requires Inside(v, m, buf, pos, -1) && m.context == ValueStart && pos < |buf| && next in {ValueApos, ValueQuot}
    ensures v.attCur + 1 <= |v.atts|
    ensures Inside(v.(attFlag := true, atts := Put(v.atts, v.attCur + 1, v.base + |v.mem|), context := next),
                   m.(context := next, cur := ""), buf, pos + 1, -1)
  {
    hide Flat, Pending, InsideTag, Names, Growing, Addressed, Agrees;
    TagContexts();
    ValueStartParts(v, m, next);
    hide Put;
    var w := v.(attFlag := true, atts := Put(v.atts, v.attCur + 1, v.base + |v.mem|), context := next);
    AddressedPut(v, v.attCur + 1, w, |v.mem|);
  }

  /** A pass that only moves to another context inside the tag. */
  lemma MoveInside(v: Fields, m: Machine, buf: string, pos: nat, stackOld: int, next: Context, kind: TagType)
    requires Inside(v, m, buf, pos, stackOld) && m.context in {AttStart, AttNext, Whitespace}
    requires next in {TagEnd, AttStart, AttNext}
    requires next == TagEnd && v.attCur > 0 ==> v.attCur < |v.atts| && v.atts[v.attCur] == 0
    ensures Inside(v.(context := next, tagType := kind), m.(context := next, tagType := kind), buf, pos, stackOld)
    ensures pos < |buf| ==>
      Inside(v.(context := next, tagType := kind), m.(context := next, tagType := kind), buf, pos + 1, stackOld)
  {
    TagContexts();
    hide AttStrings, StrAt, Flat;
  }

  /** NULL behind the last attribute. */
  lemma NullInside(v: Fields, m: Machine, buf: string, pos: nat, stackOld: int)
    requires Inside(v, m, buf, pos, stackOld) && m.context == AttNext
    ensures v.attCur <= |v.atts|
    ensures Inside(v.(atts := Put(v.atts, v.attCur, 0)), m, buf, pos, stackOld)
  {
    TagContexts();
    hide StrAt, Flat, InsideTag;
  }

  /** The tag is reported and the string buffer emptied. */
  lemma TagEnds(v: Fields, m: Machine, buf: string, pos: nat, stackOld: int, calls: seq<Event>)
    requires Inside(v, m, buf, pos, stackOld) && m.context == TagEnd && pos < |buf|
    requires Flat(calls) == Flat(v.calls) + [Tag(m.name, m.atts, m.tagType)]
    ensures Outside(v.(mem := "", attCur := 0, attFlag := false, context := InText, calls := calls),
                    m.Emit([Tag(m.name, m.atts, m.tagType)]).(atts := [], armed := false, context := InText),
                    buf, pos + 1, pos + 1)
  {
    hide Flat, Names, Growing, Pending;
    assert buf[pos + 1..pos + 1] == "";
  }

  // ----- passes outside tags, on values

  lemma OutsideContexts()
    ensures !InsideTag(Instruction) && !InsideTag(Markup) && !InsideTag(SectEnd2) && !InsideTag(InText)
    ensures InsideTag(InTag)
  {
  }

  predicate TextContext(context: Context) {
    context == InText || context == SectText
  }

  /** A pass that only moves to another context. (old_ matters in the two text contexts only.) */
  lemma MoveOutside(v: Fields, m: Machine, buf: string, pos: nat, old_: int, next: Context)
    requires Outside(v, m, buf, pos, old_) && pos < |buf| && !TextContext(m.context)
    requires !InsideTag(next) && next != TagStart
    ensures Outside(v.(context := next), m.(context := next), buf, pos + 1, pos + 1)
  {
    hide Flat;
    assert buf[pos + 1..pos + 1] == "";
  }

  lemma PendingText(v: Fields, m: Machine, buf: string, pos: nat, old_: int)
    requires Outside(v, m, buf, pos, old_) && TextContext(m.context)
    ensures 0 <= old_ <= pos <= |buf| && m.out == Flat(v.calls) + Chars(buf[old_..pos]) && (v.ready ==> 0 < v.base)
  {
    hide Flat, Chars, Agrees, InsideTag;
  }

  /** A byte of text stays pending. */
  lemma TextStays(v: Fields, m: Machine, buf: string, pos: nat, old_: int)
    requires Outside(v, m, buf, pos, old_) && pos < |buf| && TextContext(m.context)
    ensures Outside(v, m.Emit([Text([buf[pos]])]), buf, pos + 1, old_)
  {
    hide Flat, InsideTag;
    assert buf[old_..pos + 1] == buf[old_..pos] + [buf[pos]];
    CharsSnoc(buf[old_..pos], buf[pos]);
  }

  /** The pending text has been delivered and another context is entered. */
  lemma TextLeft(v: Fields, m: Machine, buf: string, pos: nat, old_: int, calls: seq<Event>, next: Context, w: Fields)
    requires Outside(v, m, buf, pos, old_) && pos < |buf| && TextContext(m.context)
    requires Flat(calls) == Flat(v.calls) + Chars(buf[old_..pos])
    requires next in {SaxMachine.Entity, TagStart, SectEnd}
    requires w == v.(calls := calls, context := next, ready := w.ready, base := w.base, tagName := w.tagName, entity := w.entity)
    requires w.entity == if next == SaxMachine.Entity then "" else v.entity
    requires next == TagStart ==> w.ready && w.tagName == w.base
    requires w.ready ==> 0 < w.base
    ensures Outside(w, if next == SaxMachine.Entity then m.(context := next, entity := "") else m.(context := next),
                    buf, pos + 1, old_)
  {
    hide Flat, Chars;
  }

  /** A text from elsewhere has been delivered; text starts at `start`. */
  lemma TextEntered(v: Fields, m: Machine, buf: string, pos: nat, calls: seq<Event>, es: seq<Event>, next: Context,
                    start: int, entity: string)
    requires Outside(v, m, buf, pos, 0) && pos < |buf| && !TextContext(m.context) && TextContext(next)
    requires Flat(calls) == Flat(v.calls) + es && pos <= start <= pos + 1 && entity == v.entity
    ensures Outside(v.(calls := calls, context := next, entity := entity),
                    m.(context := next).Emit(es + Chars(buf[start..pos + 1])), buf, pos + 1, start)
  {
    hide Flat, Chars;
    assert (Flat(v.calls) + es) + Chars(buf[start..pos + 1]) == Flat(v.calls) + (es + Chars(buf[start..pos + 1]));
  }

  lemma EntityEnds(v: Fields, m: Machine, buf: string, pos: nat, calls: seq<Event>, t: char)
    requires Outside(v, m, buf, pos, 0) && m.context == SaxMachine.Entity && pos < |buf| && t == EntityChar(m.entity)
    requires m.out == Flat(v.calls)
    ensures Flat(calls) == Flat(v.calls) + Chars([t]) ==>
      Outside(v.(calls := calls, context := InText), StepEntity(m, ';').m, buf, pos + 1, pos + 1)
    ensures StepEntity(m, ';').Go? && StepEntity(m, ';').m.out == Flat(v.calls) + Chars([t])
  {
    hide Flat, Chars, Outside;
    OneChar(t);
    if Flat(calls) == Flat(v.calls) + Chars([t]) {
      TextEntered(v, m, buf, pos, calls, [Text([t])], InText, pos + 1, v.entity);
      assert buf[pos + 1..pos + 1] == "";
      NoChars([Text([t])]);
    }
  }

  /** One more byte of an entity name. */
  lemma EntityGrows(v: Fields, m: Machine, buf: string, pos: nat, old_: int, c: char)
    requires Outside(v, m, buf, pos, old_) && pos < |buf| && m.context == SaxMachine.Entity && |m.entity| < 7
    ensures Outside(v.(entity := v.entity + [c]), m.(entity := m.entity + [c]), buf, pos + 1, old_)
  {
    hide Flat, Chars;
  }

  /** The slash of a closing tag. */
  lemma CloseStarts(v: Fields, m: Machine, buf: string, pos: nat, old_: int)
    requires Outside(v, m, buf, pos, old_) && m.context == TagStart && pos < |buf|
    ensures Inside(v.(context := InTag, tagType := Close), m.(context := InTag, tagType := Close, cur := ""), buf, pos + 1, -1)
  {
    hide Flat;
  }

  /** The first byte of a tag name. */
  lemma OpenStarts(v: Fields, m: Machine, buf: string, pos: nat, old_: int, c: char)
    requires Outside(v, m, buf, pos, old_) && m.context == TagStart && pos < |buf| && c == buf[pos] && c != '\0'
    ensures Inside(v.(context := InTag, tagType := Open),
                   m.(context := InTag, tagType := Open, armed := true, cur := [c]), buf, pos + 1, pos)
  {
    hide Flat;
    assert buf[pos..pos + 1] == [c];
  }

  // ----- histories of calls

  /** The calls from `before` to `after` were all answered IKS_OK. */
  ghost predicate Accepted(answer: seq<Event> -> Error, before: seq<Event>, after: seq<Event>) {
    before <= after && forall k :: |before| < k <= |after| ==> answer(after[..k]) == Ok
  }

  /** The last call was refused, all others since `before` were not. */
  ghost predicate Refused(answer: seq<Event> -> Error, before: seq<Event>, after: seq<Event>, error: Error) {
    && |before| < |after| && Accepted(answer, before, after[..|after| - 1])
    && error != Ok && answer(after) == error
  }

  lemma AcceptedNone(answer: seq<Event> -> Error, calls: seq<Event>)
    ensures Accepted(answer, calls, calls)
  {
  }

  lemma AcceptedCall(answer: seq<Event> -> Error, before: seq<Event>, mid: seq<Event>, e: Event)
    requires Accepted(answer, before, mid)
    ensures answer(mid + [e]) == Ok ==> Accepted(answer, before, mid + [e])
    ensures answer(mid + [e]) != Ok ==> Refused(answer, before, mid + [e], answer(mid + [e]))
  {
    assert (mid + [e])[..|mid|] == mid;
    assert (mid + [e])[..|mid| + 1] == mid + [e];
    forall k | |before| < k <= |mid|
      ensures (mid + [e])[..k] == mid[..k]
    {
    }
  }

  lemma AcceptedTrans(answer: seq<Event> -> Error, a: seq<Event>, b: seq<Event>, c: seq<Event>)
    requires Accepted(answer, a, b) && Accepted(answer, b, c)
    ensures Accepted(answer, a, c)
  {
    forall k | |a| < k <= |b|
      ensures answer(c[..k]) == Ok
    {
      assert c[..k] == b[..k];
    }
  }

  lemma RefusedTrans(answer: seq<Event> -> Error, a: seq<Event>, b: seq<Event>, c: seq<Event>, error: Error)
    requires Accepted(answer, a, b) && Refused(answer, b, c, error)
    ensures Refused(answer, a, c, error)
  {
    AcceptedTrans(answer, a, b, c[..|c| - 1]);
  }

  /** What one pass of the loop reports, against the outcome o of the machine's pass: a hook refused,
      or the byte is in error, or both go on. */
  ghost predicate Answered(answer: seq<Event> -> Error, o: Outcome, calls0: seq<Event>, calls: seq<Event>,
                           err: Error, again: bool, refused: bool) {
    if refused then
      err != Ok && Refused(answer, calls0, calls, err) && o.Go? && Flat(calls) <= o.m.out
    else if err != Ok then
      err == BadXml && o.Stop? && calls == calls0
    else
      o.Go? && o.again == again && Accepted(answer, calls0, calls)
  }

  class Parser {
    const hooks: Hooks
    var stack: array?<char>
    var stackBase: int      // the address of stack[0]
    var stackPos: nat
    var stackMax: nat
    var context: Context
    var oldContext: Context
    var tagName: int
    var tagType: TagType
    var attCur: nat
    var attFlag: bool
    var atts: seq<int>      // addresses, 0 for NULL
    var entPos: nat
    const entity: array<char>
    var bytes: nat
    var lines: nat
    var uniMax: nat
    var uniLen: nat
    ghost var machine: Machine  // where the machine is between two calls

    /** Between two calls of iks_parse: the bytes read so far have brought the machine to `machine`. */
    ghost predicate Ready()
      reads this, stack, entity, hooks
    {
      && Buffer() && stack != entity && machine.Valid() && bytes == machine.bytes && lines == machine.lines
      && Related(State(), NewBuffer(machine), "", 0, 0, -1)
      && (machine.context == AttStart ==> machine.atts == [])
    }

    ghost predicate Buffer()
      reads this
    {
      && entity.Length == 8 && entPos <= 7
      && (stack == null ==> stackPos == 0)
      && (stack != null ==> stack != entity && stack.Length == stackMax >= 128 && stackPos <= stackMax && 0 < stackBase)
    }

    ghost function State(): Fields
      requires Buffer()
      reads this, stack, entity, hooks
    {
      Fields(stack != null, stackBase, if stack == null then "" else stack[..stackPos], tagName, attCur, attFlag, atts,
             context, oldContext, tagType, entity[..entPos], uniMax, uniLen, hooks.calls)
    }

    /** iks_sax_new: everything zero, no string buffer yet. */
    constructor (hooks: Hooks)
      ensures this.hooks == hooks && fresh(entity) && stack == null
      ensures Ready() && machine == START.(out := Flat(hooks.calls))
    {
      this.hooks := hooks;
      stack, stackBase, stackPos, stackMax := null, 0, 0, 0;
      context, oldContext, tagName, tagType := InText, InText, 0, Open;
      attCur, attFlag, atts, entPos := 0, false, [], 0;
      entity := new char[8];
      bytes, lines, uniMax, uniLen := 0, 0, 0, 0;
      machine := START.(out := Flat(hooks.calls));
    }

    // ----- the string buffer

    /** The size stack_expand asks for: both growth rules make room for `len` bytes that do not fit. */
    method NewSize(len: nat) returns (size: nat)
      requires 128 <= stackMax && stackPos <= stackMax && stackMax - stackPos <= len
      ensures stackMax < size && len <= size - stackPos
    {
      var need := len - (stackMax - stackPos);
      if need < stackMax {
        size := stackMax * 2;
      } else {
        size := stackMax + need * 6 / 5;
      }
    }

    /** A larger string buffer, with the contents of the old one. */
    method Reallocate(size: nat)
      requires Buffer() && stack != null && stackMax < size
      modifies `stack, `stackBase, `stackMax
      ensures Buffer() && fresh(stack) && stackMax == size && stackBase > 0
      ensures State() == old(State()).(base := stackBase)
    {
      var tmp := new char[size];
      var base: int :| base > 0;  // wherever the allocator puts it
      forall i | 0 <= i < stackMax {
        tmp[i] := stack[i];
      }
      assert tmp[..stackPos] == stack[..stackPos];
      stack, stackBase, stackMax := tmp, base, size;
    }

    /** stack_expand */
    method Expand(len: nat, ghost n: nat)
      requires Buffer() && stack != null && stackMax - stackPos <= len && Addressed(State(), n)
      modifies `stack, `stackBase, `stackMax, `tagName, `atts
      ensures Buffer() && fresh(stack)
      ensures len <= stackMax - stackPos && stackPos < stackMax
      ensures Pushed(old(State()), n, "", State()) && Addressed(State(), n)
    {
      hide Pushed, Addressed;
      ghost var v := State();
      var size := NewSize(len);
      var diff := -stackBase;
      Reallocate(size);
      diff := diff + stackBase;
      tagName := tagName + diff;
      if attFlag {
        atts := Relocated(diff);
      }
      PushedMoved(v, n, stackBase, atts);
    }

    /** The addresses of the attributes, corrected by diff. */
    method Relocated(diff: int) returns (moved: seq<int>)
      ensures |moved| == |atts|
      ensures forall k :: 0 <= k < |atts| ==> moved[k] == if atts[k] == 0 then 0 else atts[k] + diff
    {
      moved := atts;
      var i := 0;
      while i < |moved|
        invariant 0 <= i <= |moved| == |atts|
        invariant forall k :: 0 <= k < |atts| ==>
                    moved[k] == if k < i && atts[k] != 0 then atts[k] + diff else atts[k]
      {
        if moved[i] != 0 {
          moved := moved[i := moved[i] + diff];
        }
        i := i + 1;
      }
    }

    /** memcpy to the end of the used part of the string buffer. */
    method Append(s: string)
      requires Buffer() && stack != null && stackPos + |s| <= stackMax
      modifies `stackPos, stack
      ensures Buffer() && State() == old(State()).(mem := old(State()).mem + s)
    {
      ghost var mem := stack[..stackPos];
      forall i | 0 <= i < |s| {
        stack[stackPos + i] := s[i];
      }
      stackPos := stackPos + |s|;
      assert stack[..stackPos][..|mem|] == mem;
      assert stack[..stackPos] == mem + s;
    }

    /** Makes room for len bytes and one more. */
    method Room(len: nat, ghost n: nat)
      requires Buffer() && stack != null && Addressed(State(), n)
      modifies `stack, `stackBase, `stackPos, `stackMax, `tagName, `atts
      ensures Buffer() && stack != null && (fresh(stack) || stack == old(stack)) && stackPos + len <= stackMax
      ensures Pushed(old(State()), n, "", State()) && Addressed(State(), n)
    {
      hide Pushed, Addressed;
      PushedAppend(State(), n, "");
      if stackMax - stackPos <= len {
        Expand(len, n);
      }
    }

    /** STACK_PUSH */
    method Push(s: string, ghost n: nat)
      requires Buffer() && stack != null && Addressed(State(), n)
      modifies `stack, `stackBase, `stackPos, `stackMax, `tagName, `atts, stack
      ensures Buffer() && stack != null && (fresh(stack) || stack == old(stack))
      ensures Pushed(old(State()), n, s, State()) && Addressed(State(), n)
    {
      hide Pushed, Addressed;
      ghost var v := State();
      Room(|s|, n);
      ghost var w := State();
      Append(s);
      PushedAppend(w, n, s);
      PushedTwice(v, n, "", w, s, State());
      assert "" + s == s;
    }

    /** STACK_PUSH_END */
    method PushEnd(ghost n: nat)
      requires Buffer() && stack != null && Addressed(State(), n)
      modifies `stack, `stackBase, `stackPos, `stackMax, `tagName, `atts, stack
      ensures Buffer() && stack != null && (fresh(stack) || stack == old(stack))
      ensures Pushed(old(State()), n, "\0", State()) && Addressed(State(), n)
    {
      hide Pushed, Addressed;
      ghost var v := State();
      PushedAppend(v, n, "");
      if stackPos >= stackMax {
        Expand(1, n);
      }
      ghost var w := State();
      Append("\0");
      PushedAppend(w, n, "\0");
      PushedTwice(v, n, "", w, "\0", State());
      assert "" + "\0" == "\0";
    }

    /** Ends the string being read: the marked bytes and a NUL go to the string buffer. */
    method EndString(buf: string, pos: nat, stackOld: int, ghost n: nat)
      requires Buffer() && stack != null && -1 <= stackOld <= pos <= |buf| && Addressed(State(), n)
      modifies `stack, `stackBase, `stackPos, `stackMax, `tagName, `atts, stack
      ensures Buffer() && stack != null && (fresh(stack) || stack == old(stack))
      ensures Pushed(old(State()), n, Segment(buf, pos, stackOld) + "\0", State())
    {
      hide Addressed;
      ghost var v := State();
      if stackOld != -1 {
        hide Pushed;
        Push(buf[stackOld..pos], n);
        ghost var w := State();
        PushEnd(n);
        PushedTwice(v, n, Segment(buf, pos, stackOld), w, "\0", State());
      } else {
        assert "" + "\0" == "\0";
        PushEnd(n);
      }
    }

    // ----- one pass of the loop, context by context

    /** Delivers the pending text, if any. */
    method Flush(buf: string, pos: nat, old_: int) returns (err: Error)
      requires Buffer() && 0 <= old_ <= pos <= |buf|
      modifies hooks
      ensures State() == old(State()).(calls := hooks.calls)
      ensures Flat(hooks.calls) == Flat(old(hooks.calls)) + Chars(buf[old_..pos])
      ensures err == Ok ==> Accepted(hooks.answer, old(hooks.calls), hooks.calls)
      ensures err != Ok ==> Refused(hooks.answer, old(hooks.calls), hooks.calls, err)
    {
      err := Ok;
      AcceptedNone(hooks.answer, hooks.calls);
      if old_ < pos {
        err := Deliver(buf[old_..pos]);
      } else {
        assert Flat(hooks.calls) + [] == Flat(hooks.calls);
      }
    }

    /** Delivers a text. */
    method Deliver(text: string) returns (err: Error)
      requires Buffer() && text != ""
      modifies hooks
      ensures State() == old(State()).(calls := hooks.calls)
      ensures Flat(hooks.calls) == Flat(old(hooks.calls)) + Chars(text)
      ensures err == Ok ==> Accepted(hooks.answer, old(hooks.calls), hooks.calls)
      ensures err != Ok ==> Refused(hooks.answer, old(hooks.calls), hooks.calls, err)
    {
      hide Flat, Chars, Accepted, Refused;
      ghost var calls := hooks.calls;
      err := hooks.Call(Text(text));
      FlatSnoc(calls, Text(text));
      AcceptedNone(hooks.answer, calls);
      AcceptedCall(hooks.answer, calls, calls, Text(text));
    }

    method TextByte(buf: string, pos: nat, c: char, old_: int, ghost m: Machine)
      returns (err: Error, ghost refused: bool)
      requires Buffer() && pos < |buf| && c == buf[pos] && Outside(State(), m, buf, pos, old_) && m.context == InText
      modifies `context, `entPos, `tagName, `stack, `stackBase, `stackPos, `stackMax, hooks
      ensures stack == old(stack) || fresh(stack)
      ensures Answered(hooks.answer, StepText(m, c), old(hooks.calls), hooks.calls, err, false, refused)
      ensures err == Ok ==> Buffer() && Outside(State(), StepText(m, c).m, buf, pos + 1, old_)
    {
      hide Flat, Chars, Accepted, Refused, Agrees, InsideTag;
      ghost var v := State();
      if c == '&' {
        err := Flush(buf, pos, old_);
        refused := err != Ok;
        if err == Ok {
          context := SaxMachine.Entity;
          entPos := 0;
          assert State() == v.(calls := hooks.calls, context := SaxMachine.Entity, entity := "");
          TextLeft(v, m, buf, pos, old_, hooks.calls, SaxMachine.Entity, State());
        }
      } else if c == '<' {
        err := Flush(buf, pos, old_);
        refused := err != Ok;
        if err == Ok {
          StackInit();
          tagName := stackBase + stackPos;
          context := TagStart;
          TextLeft(v, m, buf, pos, old_, hooks.calls, TagStart, State());
        }
      } else {
        err, refused := Ok, false;
        TextStays(v, m, buf, pos, old_);
        AcceptedNone(hooks.answer, hooks.calls);
      }
    }

    /** STACK_INIT */
    method StackInit()
      requires Buffer()
      modifies `stack, `stackBase, `stackMax, `stackPos
      ensures Buffer() && stack != null && (stack == old(stack) || fresh(stack)) && stackPos == old(stackPos)
      ensures State() == old(State()).(ready := true, base := stackBase)
    {
      if stack == null {
        var base: int :| base > 0;  // wherever the allocator puts it
        stack, stackBase, stackMax, stackPos := new char[128], base, 128, 0;
      }
    }

    /** ';' of an entity: its character is delivered. */
    method EndEntity(buf: string, pos: nat, ghost m: Machine) returns (err: Error, old_: int, ghost refused: bool)
      requires Buffer() && pos < |buf| && stack != entity
      requires Outside(State(), m, buf, pos, 0) && m.context == SaxMachine.Entity
      modifies `context, entity, hooks
      ensures Answered(hooks.answer, StepEntity(m, ';'), old(hooks.calls), hooks.calls, err, false, refused)
      ensures err == Ok ==> Buffer() && Outside(State(), StepEntity(m, ';').m, buf, pos + 1, old_)
    {
      hide Flat, Chars, Accepted, Refused, Outside;
      EntityMatches(m, buf, pos, 0);
      ghost var v := State();
      entity[entPos] := '\0';
      assert State() == v;
      var t := EntityValue();
      old_ := pos + 1;
      err := Deliver([t]);
      refused := err != Ok;
      EntityEnds(v, m, buf, pos, hooks.calls, t);
      if err == Ok {
        context := InText;
        assert State() == v.(calls := hooks.calls, context := InText);
      }
    }

    method EntityByte(buf: string, pos: nat, c: char, old0: int, ghost m: Machine)
      returns (err: Error, old_: int, ghost refused: bool)
      requires Buffer() && pos < |buf| && c == buf[pos] && stack != entity
      requires Outside(State(), m, buf, pos, old0) && m.context == SaxMachine.Entity
      modifies `context, `entPos, entity, hooks
      ensures stack == old(stack)
      ensures Answered(hooks.answer, StepEntity(m, c), old(hooks.calls), hooks.calls, err, false, refused)
      ensures err == Ok ==> Buffer() && Outside(State(), StepEntity(m, c).m, buf, pos + 1, old_)
    {
      EntityMatches(m, buf, pos, old0);
      hide Flat, Chars, Accepted, Refused, Outside;
      ghost var v := State();
      if c == ';' {
        err, old_, refused := EndEntity(buf, pos, m);
      } else {
        err, old_, refused := Ok, old0, false;
        AcceptedNone(hooks.answer, hooks.calls);
        entity[entPos] := c;
        assert entity[..entPos + 1] == v.entity + [c];
        entPos := entPos + 1;
        if entPos > 7 {
          err := BadXml;
          return;
        }
        EntityGrows(v, m, buf, pos, old0, c);
        assert State() == v.(entity := v.entity + [c]);
      }
    }

    lemma EntityMatches(m: Machine, buf: string, pos: nat, old_: int)
      requires Buffer() && Outside(State(), m, buf, pos, old_) && m.context == SaxMachine.Entity
      ensures m.entity == entity[..entPos] && Outside(State(), m, buf, pos, 0) && m.out == Flat(hooks.calls)
    {
      hide Flat, Chars, InsideTag, Machine.Valid;
    }

    /** strcmp against the five names. */
    method EntityValue() returns (t: char)
      requires Buffer()
      ensures t == EntityChar(entity[..entPos])
    {
      var name := entity[..entPos];
      t := '?';
      if name == "amp" {
        t := '&';
      } else if name == "quot" {
        t := '"';
      } else if name == "apos" {
        t := '\'';
      } else if name == "lt" {
        t := '<';
      } else if name == "gt" {
        t := '>';
      }
    }

    /** A pass that only moves to another context, outside tags. */
    method Accept(buf: string, pos: nat, old0: int, next: Context, ghost m: Machine) returns (old_: int)
      requires Buffer() && pos < |buf| && Outside(State(), m, buf, pos, old0) && !TextContext(m.context)
      requires !InsideTag(next) && next != TagStart
      modifies `context
      ensures Buffer() && Outside(State(), m.(context := next), buf, pos + 1, old_)
    {
      hide Outside, InsideTag;
      MoveOutside(State(), m, buf, pos, old0, next);
      context := next;
      old_ := pos + 1;  // it matters in the two text contexts only
    }

    /** A context in which one byte only is right. */
    method Want(buf: string, pos: nat, c: char, old0: int, want: char, next: Context, ghost m: Machine)
      returns (err: Error, old_: int)
      requires Buffer() && pos < |buf| && Outside(State(), m, buf, pos, old0) && !TextContext(m.context)
      requires !InsideTag(next) && next != TagStart
      modifies `context
      ensures Answered(hooks.answer, Expect(m, c, want, next), hooks.calls, hooks.calls, err, false, false)
      ensures err == Ok ==> Buffer() && Outside(State(), Expect(m, c, want, next).m, buf, pos + 1, old_)
    {
      hide Outside, InsideTag, Accepted, Flat;
      AcceptedNone(hooks.answer, hooks.calls);
      err, old_ := Ok, old0;
      if want != c {
        err := BadXml;
      } else {
        old_ := Accept(buf, pos, old0, next, m);
      }
    }

    /** Comments, other markup declarations and processing instructions. */
    method MarkupByte(buf: string, pos: nat, c: char, old0: int, ghost m: Machine) returns (err: Error, old_: int)
      requires Buffer() && pos < |buf| && Outside(State(), m, buf, pos, old0) && context == m.context
      requires context in {Comment, Comment1, Comment2, Comment3, Markup, Markup1, Instruction}
      modifies `context
      ensures Answered(hooks.answer, StepMarkup(m, c), hooks.calls, hooks.calls, err, false, false)
      ensures err == Ok ==> Buffer() && Outside(State(), StepMarkup(m, c).m, buf, pos + 1, old_)
    {
      hide Outside, Flat, Accepted;
      AcceptedNone(hooks.answer, hooks.calls);
      err := Ok;
      if context == Comment {
        err, old_ := Want(buf, pos, c, old0, '-', Comment1, m);
      } else if context == Comment1 {
        old_ := Accept(buf, pos, old0, if '-' == c then Comment2 else Comment1, m);
      } else if context == Comment2 {
        old_ := Accept(buf, pos, old0, if '-' == c then Comment3 else Comment1, m);
      } else if context == Comment3 {
        err, old_ := Want(buf, pos, c, old0, '>', InText, m);
      } else if context == Markup && '[' == c {
        old_ := Accept(buf, pos, old0, Sect, m);
      } else if context == Markup && '-' == c {
        old_ := Accept(buf, pos, old0, Comment, m);
      } else if context == Markup || context == Markup1 {
        old_ := Accept(buf, pos, old0, if '>' == c then InText else Markup1, m);
      } else {
        old_ := Accept(buf, pos, old0, if '>' == c then InText else Instruction, m);
      }
    }

    /** The letters that open a CDATA section. */
    method SectionStartByte(buf: string, pos: nat, c: char, old0: int, ghost m: Machine) returns (err: Error, old_: int)
      requires Buffer() && pos < |buf| && Outside(State(), m, buf, pos, old0) && context == m.context
      requires context in {Sect, SectCdata, SectCdata1, SectCdata2, SectCdata3, SectCdata4}
      modifies `context
      ensures Answered(hooks.answer, StepSection(m, c), hooks.calls, hooks.calls, err, false, false)
      ensures err == Ok ==> Buffer() && Outside(State(), StepSection(m, c).m, buf, pos + 1, old_)
    {
      hide Outside, Flat, Accepted, Answered;
      if context == Sect {
        err, old_ := Want(buf, pos, c, old0, 'C', SectCdata, m);
      } else if context == SectCdata {
        err, old_ := Want(buf, pos, c, old0, 'D', SectCdata1, m);
      } else if context == SectCdata1 {
        err, old_ := Want(buf, pos, c, old0, 'A', SectCdata2, m);
      } else if context == SectCdata2 {
        err, old_ := Want(buf, pos, c, old0, 'T', SectCdata3, m);
      } else if context == SectCdata3 {
        err, old_ := Want(buf, pos, c, old0, 'A', SectCdata4, m);
      } else {
        err, old_ := Want(buf, pos, c, old0, '[', SectText, m);
      }
    }

    /** Brackets that turned out to be text are delivered, and the section goes on with this byte. */
    method BackToSection(buf: string, pos: nat, brackets: string, ghost m: Machine)
      returns (err: Error, old_: int, ghost refused: bool)
      requires brackets != "" && Buffer() && pos < |buf| && Outside(State(), m, buf, pos, 0) && m.context in {SectEnd, SectEnd2}
      modifies `context, hooks
      ensures var m' := m.(context := SectText).Emit(Chars(brackets) + [Text([buf[pos]])]);
        && Answered(hooks.answer, Go(m', false), old(hooks.calls), hooks.calls, err, false, refused)
        && (err == Ok ==> Buffer() && Outside(State(), m', buf, pos + 1, old_))
    {
      hide Flat, Chars, Accepted, Refused, InsideTag, Machine.Valid, Agrees;
      ghost var v := State();
      err := Deliver(brackets);
      refused := err != Ok;
      old_ := pos;
      assert m.out + (Chars(brackets) + [Text([buf[pos]])]) == (m.out + Chars(brackets)) + [Text([buf[pos]])];
      if err == Ok {
        context := SectText;
        TextEntered(v, m, buf, pos, hooks.calls, Chars(brackets), SectText, pos, v.entity);
        OneChar(buf[pos]);
        assert buf[pos..pos + 1] == [buf[pos]];
      }
    }

    method SectionTextByte(buf: string, pos: nat, c: char, old_: int, ghost m: Machine)
      returns (err: Error, ghost refused: bool)
      requires Buffer() && pos < |buf| && c == buf[pos] && Outside(State(), m, buf, pos, old_) && m.context == SectText
      modifies `context, hooks
      ensures Answered(hooks.answer, StepSection(m, c), old(hooks.calls), hooks.calls, err, false, refused)
      ensures err == Ok ==> Buffer() && Outside(State(), StepSection(m, c).m, buf, pos + 1, old_)
    {
      hide Flat, Chars, Accepted, Refused, Outside, Machine.Valid;
      PendingText(State(), m, buf, pos, old_);
      ghost var v := State();
      if ']' == c {
        context := SectEnd;
        err := Flush(buf, pos, old_);
        refused := err != Ok;
        assert State() == v.(calls := hooks.calls, context := SectEnd);
        TextLeft(v, m, buf, pos, old_, hooks.calls, SectEnd, State());
      } else {
        err, refused := Ok, false;
        AcceptedNone(hooks.answer, hooks.calls);
        TextStays(v, m, buf, pos, old_);
      }
    }

    method SectionByte(buf: string, pos: nat, c: char, old0: int, ghost m: Machine)
      returns (err: Error, old_: int, ghost refused: bool)
      requires Buffer() && pos < |buf| && c == buf[pos] && Outside(State(), m, buf, pos, old0) && context == m.context
      requires context in {SectText, SectEnd, SectEnd2}
      modifies `context, hooks
      ensures Answered(hooks.answer, StepSection(m, c), old(hooks.calls), hooks.calls, err, false, refused)
      ensures err == Ok ==> Buffer() && Outside(State(), StepSection(m, c).m, buf, pos + 1, old_)
    {
      hide Flat, Chars, Accepted, Refused, InsideTag, Outside;
      OutsideContexts();
      old_, refused := old0, false;
      if context == SectText {
        err, refused := SectionTextByte(buf, pos, c, old0, m);
      } else if ']' == c && context == SectEnd {
        err := Ok;
        AcceptedNone(hooks.answer, hooks.calls);
        old_ := Accept(buf, pos, old0, SectEnd2, m);
      } else if '>' == c && context == SectEnd2 {
        err := Ok;
        AcceptedNone(hooks.answer, hooks.calls);
        old_ := Accept(buf, pos, old0, InText, m);
      } else {
        SectionGoesOn(m, c);
        OutsideAnyOld(m, buf, pos, old0);
        hide Answered, StepSection;
        err, old_, refused := BackToSection(buf, pos, if context == SectEnd then "]" else "]]", m);
      }
    }

    lemma SectionGoesOn(m: Machine, c: char)
      requires (m.context == SectEnd && c != ']') || (m.context == SectEnd2 && c != '>')
      ensures StepSection(m, c)
           == Go(m.(context := SectText).Emit(Chars(if m.context == SectEnd then "]" else "]]") + [Text([c])]), false)
    {
      OneChar(']');
      TwoBrackets();
    }

    lemma OutsideAnyOld(m: Machine, buf: string, pos: nat, old_: int)
      requires Buffer() && Outside(State(), m, buf, pos, old_)
      ensures !TextContext(m.context) ==> Outside(State(), m, buf, pos, 0)
    {
      hide Flat, Chars, InsideTag, Machine.Valid, Agrees;
    }

    // ----- inside a tag

    /** The first byte behind '<'. */
    method TagStartByte(buf: string, pos: nat, c: char, old0: int, ghost m: Machine)
      returns (old_: int, stackOld: int)
      requires Buffer() && pos < |buf| && c == buf[pos] && c != '\0'
      requires Outside(State(), m, buf, pos, old0) && m.context == TagStart
      modifies `context, `tagType
      ensures Answered(hooks.answer, StepTag(m, c), hooks.calls, hooks.calls, Ok, false, false)
      ensures Buffer() && Related(State(), StepTag(m, c).m, buf, pos + 1, old_, stackOld)
    {
      hide Flat, Accepted, InsideTag, Outside, Inside;
      OutsideContexts();
      CloseStarts(State(), m, buf, pos, old0);
      OpenStarts(State(), m, buf, pos, old0, c);
      AcceptedNone(hooks.answer, hooks.calls);
      old_, stackOld := old0, -1;
      if c == '?' {
        old_ := Accept(buf, pos, old0, Instruction, m);
      } else if c == '!' {
        old_ := Accept(buf, pos, old0, Markup, m);
      } else if c == '/' {
        context, tagType := InTag, Close;
      } else {
        context, tagType := InTag, Open;
        stackOld := pos;
      }
    }

    /** A byte of a name or a value: the first one in a buffer marks its position. */
    method GatherByte(buf: string, pos: nat, c: char, stackOld0: int, ghost m: Machine) returns (stackOld: int)
      requires Buffer() && pos < |buf| && c == buf[pos] && c != '\0'
      requires Inside(State(), m, buf, pos, stackOld0) && Naming(m.context)
      ensures Answered(hooks.answer, Go(m.Gather(c), false), hooks.calls, hooks.calls, Ok, false, false)
      ensures Inside(State(), m.Gather(c), buf, pos + 1, stackOld)
    {
      GatherInside(State(), m, buf, pos, stackOld0, c);
      AcceptedNone(hooks.answer, hooks.calls);
      stackOld := stackOld0;
      hide Inside, Flat, Accepted;
      if stackOld == -1 {
        stackOld := pos;
      }
    }

    /** Ends the tag name and moves on. */
    method EndTagName(buf: string, pos: nat, stackOld: int, next: Context, after: Context, kind: TagType, ghost m: Machine)
      requires Buffer() && Inside(State(), m, buf, pos, stackOld) && m.context == InTag && next in {Whitespace, TagEnd}
      requires next == Whitespace ==> after in {TagEnd, AttStart}
      modifies `stack, `stackBase, `stackPos, `stackMax, `tagName, `atts, `context, `oldContext, `tagType, stack
      ensures stack == old(stack) || fresh(stack)
      ensures hooks.calls == old(hooks.calls) && Buffer()
      ensures var m' := EndName(m).(context := next, oldContext := after, tagType := kind);
        Inside(State(), m', buf, pos, -1) && (pos < |buf| ==> Inside(State(), m', buf, pos + 1, -1))
    {
      hide Inside, Addressed, Pushed, EndName, Segment, Machine.Valid, InsideTag;
      InsideParts(m, buf, pos, stackOld);
      ghost var v := State();
      EndString(buf, pos, stackOld, attCur);
      ghost var w := State();
      TagNameEnds(v, m, buf, pos, stackOld, w, next, after, kind);
      MoveOn(next, after, kind);
    }

    method MoveOn(next: Context, after: Context, kind: TagType)
      requires Buffer()
      modifies `context, `oldContext, `tagType
      ensures Buffer() && State() == old(State()).(context := next, oldContext := after, tagType := kind)
    {
      context, oldContext, tagType := next, after, kind;
    }

    lemma InsideParts(m: Machine, buf: string, pos: nat, stackOld: int)
      requires Buffer() && Inside(State(), m, buf, pos, stackOld)
      ensures stack != null && context == m.context && tagType == m.tagType && oldContext == m.oldContext
      ensures m.context in {InTag, TagEnd, AttStart, AttNext, Whitespace} ==> Addressed(State(), attCur)
      ensures m.context in {AttName, ValueStart} ==> Addressed(State(), attCur + 1)
      ensures m.context in {ValueApos, ValueQuot} ==> Addressed(State(), attCur + 2)
      ensures m.out == Flat(hooks.calls) && (m.context == ValueStart ==> stackOld == -1)
      ensures -1 <= stackOld <= pos <= |buf|
    {
      hide Flat, Names, Growing, Addressed;
    }

    method TagByte(buf: string, pos: nat, c: char, stackOld0: int, ghost m: Machine)
      returns (err: Error, again: bool, stackOld: int)
      requires Buffer() && pos < |buf| && c == buf[pos] && c != '\0'
      requires Inside(State(), m, buf, pos, stackOld0) && m.context == InTag
      modifies `stack, `stackBase, `stackPos, `stackMax, `tagName, `atts, `context, `oldContext, `tagType, stack
      ensures stack == old(stack) || fresh(stack)
      ensures Answered(hooks.answer, StepTag(m, c), old(hooks.calls), hooks.calls, err, again, false)
      ensures err == Ok ==> Buffer() && Inside(State(), StepTag(m, c).m, buf, if again then pos else pos + 1, stackOld)
    {
      hide Flat, Accepted, Refused, Inside;
      InsideParts(m, buf, pos, stackOld0);
      AcceptedNone(hooks.answer, hooks.calls);
      hide Buffer;
      err, again, stackOld := Ok, false, -1;
      if IsSpace(c) {
        EndTagName(buf, pos, stackOld0, Whitespace, if Close == tagType then TagEnd else AttStart, tagType, m);
      } else if c == '/' {
        if Close == tagType {
          err := BadXml;
        } else {
          EndTagName(buf, pos, stackOld0, TagEnd, oldContext, Single, m);
        }
      } else if c == '>' {
        EndTagName(buf, pos, stackOld0, TagEnd, oldContext, tagType, m);
        again := true;
      } else {
        stackOld := GatherByte(buf, pos, c, stackOld0, m);
      }
    }

    /** The C string at address p. */
    method ReadString(p: int, ghost want: string) returns (s: string)
      requires Buffer() && StrAt(State().mem, p - stackBase, want)
      ensures s == want
    {
      s := "";
      var i := p - stackBase;
      ghost var o := i;
      while stack[i] != '\0'
        invariant stack != null && 0 <= o <= i <= o + |want| < stackPos
        invariant s == want[..i - o]
        invariant stack[..stackPos][o..o + |want|] == want && stack[o + |want|] == '\0' && '\0' !in want
        decreases o + |want| - i
      {
        assert stack[i] == stack[..stackPos][o..o + |want|][i - o];
        s := s + [stack[i]];
        i := i + 1;
      }
    }

    /** The NULL-terminated list of names and values, as a hook reads it. */
    method ReadAtts(ghost list: Attrs) returns (read: Attrs)
      requires Buffer() && attCur == 2 * |list| < |atts| && atts[attCur] == 0
      requires AttStrings(State().mem, stackBase, atts, list) && Addressed(State(), attCur)
      ensures read == list
    {
      hide StrAt;
      read := [];
      var i := 0;
      while atts[i] != 0
        invariant 0 <= i <= attCur && i % 2 == 0 && read == list[..i / 2]
        decreases attCur - i
      {
        ghost var k := i / 2;
        assert i == 2 * k && k < |list|;
        var name := ReadString(atts[i], list[k].0);
        var value := ReadString(atts[i + 1], list[k].1);
        assert list[..k + 1] == list[..k] + [list[k]];
        read := read + [(name, value)];
        i := i + 2;
      }
    }

    /** What the tag hook is called with. */
    method ReadTag(buf: string, pos: nat, stackOld: int, ghost m: Machine) returns (e: Event)
      requires Buffer() && Inside(State(), m, buf, pos, stackOld) && m.context == TagEnd
      ensures e == Tag(m.name, m.atts, m.tagType)
    {
      hide StrAt, AttStrings, Flat, Growing, Addressed, Machine.Valid, Pending;
      TagContexts();
      var name := ReadString(tagName, m.name);
      var list: Attrs := [];
      if attCur != 0 {
        list := ReadAtts(m.atts);
      }
      e := Tag(name, list, tagType);
    }

    method TagEndByte(buf: string, pos: nat, c: char, stackOld: int, ghost m: Machine)
      returns (err: Error, old_: int, ghost refused: bool)
      requires Buffer() && pos < |buf| && c == buf[pos]
      requires Inside(State(), m, buf, pos, stackOld) && m.context == TagEnd
      modifies `stackPos, `attCur, `attFlag, `context, hooks
      ensures stack == old(stack)
      ensures Answered(hooks.answer, StepTag(m, c), old(hooks.calls), hooks.calls, err, false, refused)
      ensures err == Ok ==> Buffer() && Outside(State(), StepTag(m, c).m, buf, pos + 1, old_)
    {
      hide Flat, Accepted, Refused, Inside, Outside;
      ghost var v := State();
      old_, refused := pos + 1, false;
      if c != '>' {
        err := BadXml;
        return;
      }
      InsideParts(m, buf, pos, stackOld);
      var e := ReadTag(buf, pos, stackOld, m);
      err := hooks.Call(e);
      AcceptedNone(hooks.answer, v.calls);
      AcceptedCall(hooks.answer, v.calls, v.calls, e);
      FlatTag(v.calls, e);
      refused := err != Ok;
      if err == Ok {
        TagEnds(v, m, buf, pos, stackOld, hooks.calls);
        stackPos, attCur, attFlag, context := 0, 0, false, InText;
        assert State() == v.(mem := "", attCur := 0, attFlag := false, context := InText, calls := hooks.calls);
      }
    }

    lemma FlatTag(calls: seq<Event>, e: Event)
      requires e.Tag?
      ensures Flat(calls + [e]) == Flat(calls) + [e]
    {
      FlatSnoc(calls, e);
    }

    /** The first byte of an attribute, or the end of the tag. */
    method AttStartByte(buf: string, pos: nat, c: char, stackOld0: int, ghost m: Machine)
      returns (again: bool, stackOld: int)
      requires Buffer() && pos < |buf| && c == buf[pos] && c != '\0'
      requires Inside(State(), m, buf, pos, stackOld0) && m.context == AttStart && (c == '/' || c == '>' ==> attCur == 0)
      modifies `context, `tagType, `atts, `attFlag
      ensures Answered(hooks.answer, StepAttribute(m, c), hooks.calls, hooks.calls, Ok, again, false)
      ensures Buffer() && Inside(State(), StepAttribute(m, c).m, buf, if again then pos else pos + 1, stackOld)
    {
      hide Flat, Accepted, Refused, Inside;
      ghost var v := State();
      again, stackOld := false, stackOld0;
      AcceptedNone(hooks.answer, hooks.calls);
      InsideParts(m, buf, pos, stackOld0);
      if '/' == c {
        MoveInside(v, m, buf, pos, stackOld, TagEnd, Single);
        tagType := Single;
        context := TagEnd;
      } else if '>' == c {
        MoveInside(v, m, buf, pos, stackOld, TagEnd, tagType);
        context := TagEnd;
        again := true;
      } else {
        AttStarts(v, m, buf, pos, stackOld, c);
        attFlag := true;
        atts := Put(atts, attCur, stackBase + stackPos);  // STACK_PUSH_START
        context := AttName;
        assert State() == v.(attFlag := true, atts := Put(v.atts, v.attCur, v.base + |v.mem|), context := AttName);
        stackOld := pos;
      }
    }

    method AttNameByte(buf: string, pos: nat, c: char, stackOld0: int, ghost m: Machine) returns (stackOld: int)
      requires Buffer() && pos < |buf| && c == buf[pos] && c != '\0'
      requires Inside(State(), m, buf, pos, stackOld0) && m.context == AttName
      modifies `stack, `stackBase, `stackPos, `stackMax, `tagName, `atts, `context, stack
      ensures stack == old(stack) || fresh(stack)
      ensures Answered(hooks.answer, StepAttribute(m, c), old(hooks.calls), hooks.calls, Ok, false, false)
      ensures Buffer() && Inside(State(), StepAttribute(m, c).m, buf, pos + 1, stackOld)
    {
      hide Flat, Accepted, Refused, Inside, Addressed, Pushed;
      AcceptedNone(hooks.answer, hooks.calls);
      InsideParts(m, buf, pos, stackOld0);
      if '=' == c {
        ghost var v := State();
        EndString(buf, pos, stackOld0, attCur + 1);
        AttNameEnds(v, m, buf, pos, stackOld0, State());
        ghost var w := State();
        context := ValueStart;
        assert State() == w.(context := ValueStart);
        stackOld := -1;
      } else {
        stackOld := GatherByte(buf, pos, c, stackOld0, m);
      }
    }

    /** Behind an attribute. */
    method AttNextByte(buf: string, pos: nat, c: char, stackOld: int, ghost m: Machine) returns (again: bool)
      requires Buffer() && pos < |buf| && Inside(State(), m, buf, pos, stackOld) && m.context == AttNext
      modifies `context, `tagType, `atts
      ensures Answered(hooks.answer, StepAttribute(m, c), hooks.calls, hooks.calls, Ok, again, false)
      ensures Buffer() && Inside(State(), StepAttribute(m, c).m, buf, if again then pos else pos + 1, stackOld)
    {
      hide Flat, Accepted, Refused, Inside, Machine.Valid, Addressed;
      ghost var v := State();
      AcceptedNone(hooks.answer, hooks.calls);
      InsideParts(m, buf, pos, stackOld);
      NullInside(v, m, buf, pos, stackOld);
      if '/' == c {
        tagType := Single;
        atts := Put(atts, attCur, 0);
        context := TagEnd;
        again := false;
        MoveInside(v.(atts := Put(v.atts, v.attCur, 0)), m, buf, pos, stackOld, TagEnd, Single);
      } else if '>' == c {
        atts := Put(atts, attCur, 0);
        context := TagEnd;
        again := true;
        MoveInside(v.(atts := Put(v.atts, v.attCur, 0)), m, buf, pos, stackOld, TagEnd, tagType);
      } else {
        MoveInside(v, m, buf, pos, stackOld, AttStart, tagType);
        context := AttStart;
        again := true;
      }
    }

    /** The quote that opens a value. */
    method ValueStartByte(buf: string, pos: nat, c: char, stackOld: int, ghost m: Machine) returns (err: Error)
      requires Buffer() && pos < |buf| && Inside(State(), m, buf, pos, stackOld) && m.context == ValueStart
      modifies `context, `atts, `attFlag
      ensures Answered(hooks.answer, StepAttribute(m, c), hooks.calls, hooks.calls, err, false, false)
      ensures err == Ok ==> Buffer() && Inside(State(), StepAttribute(m, c).m, buf, pos + 1, -1)
    {
      hide Flat, Accepted, Refused, Inside;
      ghost var v := State();
      AcceptedNone(hooks.answer, hooks.calls);
      InsideParts(m, buf, pos, stackOld);
      err := Ok;
      if '\'' == c || '"' == c {
        ValueStarts(v, m, buf, pos, if '\'' == c then ValueApos else ValueQuot);
        attFlag := true;  // it is set already
        atts := Put(atts, attCur + 1, stackBase + stackPos);  // STACK_PUSH_START
        context := if '\'' == c then ValueApos else ValueQuot;
        assert State() == v.(attFlag := true, atts := Put(v.atts, v.attCur + 1, v.base + |v.mem|), context := context);
      } else {
        err := BadXml;
      }
    }

    /** The closing quote: the mark is set at it. */
    method EndValueByte(buf: string, pos: nat, c: char, stackOld0: int, ghost m: Machine) returns (stackOld: int)
      requires Buffer() && pos < |buf| && c == buf[pos] && c != '\0'
      requires Inside(State(), m, buf, pos, stackOld0) && m.context in {ValueApos, ValueQuot}
      requires c == if m.context == ValueApos then '\'' else '"'
      modifies `stack, `stackBase, `stackPos, `stackMax, `tagName, `atts, `context, `oldContext, `attCur, stack
      ensures stack == old(stack) || fresh(stack)
      ensures Buffer() && Inside(State(), EndValue(m), buf, pos + 1, stackOld)
    {
      hide Flat, Accepted, Refused, Inside, Addressed, Pushed, Machine.Valid;
      InsideParts(m, buf, pos, stackOld0);
      ghost var v := State();
      EndString(buf, pos, stackOld0, attCur + 2);
      ValueEnds(v, m, buf, pos, stackOld0, State());
      ghost var w := State();
      oldContext := AttNext;
      context := Whitespace;
      attCur := attCur + 2;
      assert State() == w.(attCur := w.attCur + 2, context := Whitespace, oldContext := AttNext);
      stackOld := pos;
    }

    method ValueByte(buf: string, pos: nat, c: char, stackOld0: int, ghost m: Machine) returns (stackOld: int)
      requires Buffer() && pos < |buf| && c == buf[pos] && c != '\0'
      requires Inside(State(), m, buf, pos, stackOld0) && m.context in {ValueApos, ValueQuot}
      modifies `stack, `stackBase, `stackPos, `stackMax, `tagName, `atts, `context, `oldContext, `attCur, stack
      ensures stack == old(stack) || fresh(stack)
      ensures Answered(hooks.answer, StepAttribute(m, c), old(hooks.calls), hooks.calls, Ok, false, false)
      ensures Buffer() && Inside(State(), StepAttribute(m, c).m, buf, pos + 1, stackOld)
    {
      hide Flat, Accepted, Refused, Inside, Buffer, EndValue;
      AcceptedNone(hooks.answer, hooks.calls);
      InsideParts(m, buf, pos, stackOld0);
      if c == if context == ValueApos then '\'' else '"' {
        stackOld := EndValueByte(buf, pos, c, stackOld0, m);
      } else {
        stackOld := GatherByte(buf, pos, c, stackOld0, m);
      }
    }

    method WhitespaceByte(buf: string, pos: nat, c: char, stackOld: int, ghost m: Machine) returns (again: bool)
      requires Buffer() && pos < |buf| && Inside(State(), m, buf, pos, stackOld) && m.context == Whitespace
      modifies `context
      ensures Answered(hooks.answer, StepAttribute(m, c), hooks.calls, hooks.calls, Ok, again, false)
      ensures Buffer() && Inside(State(), StepAttribute(m, c).m, buf, if again then pos else pos + 1, stackOld)
    {
      hide Flat, Accepted, Refused;
      AcceptedNone(hooks.answer, hooks.calls);
      InsideParts(m, buf, pos, stackOld);
      again := false;
      if !IsSpace(c) {
        OldContexts(m, buf, pos, stackOld);
        MoveInside(State(), m, buf, pos, stackOld, oldContext, tagType);
        context := oldContext;
        again := true;
      } else {
        hide Agrees, Names, Growing, Addressed;
        WhitespaceStays(State(), m, buf, pos, stackOld);
      }
    }

    lemma OldContexts(m: Machine, buf: string, pos: nat, stackOld: int)
      requires Buffer() && Inside(State(), m, buf, pos, stackOld) && m.context == Whitespace
      ensures oldContext in {TagEnd, AttStart, AttNext}
      ensures oldContext != AttNext ==> attCur == 0
    {
      hide Flat, AttStrings, StrAt, Growing, Addressed;
    }

    // ----- the switch

    method SwitchOutside(buf: string, pos: nat, c: char, old0: int, ghost m: Machine)
      returns (err: Error, old_: int, stackOld: int, ghost refused: bool)
      requires Buffer() && pos < |buf| && c == buf[pos] && IsAscii(c) && context == m.context && stack != entity
      requires Outside(State(), m, buf, pos, old0) && !InsideTag(m.context) && m.Valid()
      modifies `context, `tagType, `entPos, `tagName, `stack, `stackBase, `stackPos, `stackMax, entity, hooks
      ensures stack == old(stack) || fresh(stack)
      ensures Answered(hooks.answer, Switch(m, c), old(hooks.calls), hooks.calls, err, false, refused)
      ensures err == Ok ==> Buffer() && Related(State(), Switch(m, c).m, buf, pos + 1, old_, stackOld)
    {
      hide Flat, Accepted, Refused, Outside, Inside, StepText, StepEntity, StepTag, StepMarkup, StepSection, Buffer;
      OutsideStays(m, c);
      old_, stackOld, refused := old0, -1, false;
      if context == InText {
        err, refused := TextByte(buf, pos, c, old0, m);
      } else if context == SaxMachine.Entity {
        err, old_, refused := EntityByte(buf, pos, c, old0, m);
      } else if context == TagStart {
        err := Ok;
        old_, stackOld := TagStartByte(buf, pos, c, old0, m);
      } else if context in {Comment, Comment1, Comment2, Comment3, Markup, Markup1, Instruction} {
        err, old_ := MarkupByte(buf, pos, c, old0, m);
      } else if context in {Sect, SectCdata, SectCdata1, SectCdata2, SectCdata3, SectCdata4} {
        err, old_ := SectionStartByte(buf, pos, c, old0, m);
      } else {
        err, old_, refused := SectionByte(buf, pos, c, old0, m);
      }
    }

    method SwitchInside(buf: string, pos: nat, c: char, old0: int, stackOld0: int, ghost m: Machine)
      returns (err: Error, again: bool, old_: int, stackOld: int, ghost refused: bool)
      requires Buffer() && pos < |buf| && c == buf[pos] && IsAscii(c) && context == m.context
      requires Inside(State(), m, buf, pos, stackOld0) && AttFirst(m, buf, pos) && InsideTag(m.context) && m.Valid()
      modifies `stack, `stackBase, `stackPos, `stackMax, `tagName, `atts, `context, `oldContext, `tagType, `attCur, `attFlag, stack, hooks
      ensures stack == old(stack) || fresh(stack)
      ensures Answered(hooks.answer, Switch(m, c), old(hooks.calls), hooks.calls, err, again, refused)
      ensures err == Ok ==> Buffer() && Related(State(), Switch(m, c).m, buf, if again then pos else pos + 1, old_, stackOld)
    {
      hide Flat, Accepted, Refused, Outside, Inside, StepTag, StepAttribute, Buffer;
      InsideStays(m, c);
      FirstAtt(buf, pos, stackOld0, m);
      err, again, old_, stackOld, refused := Ok, false, old0, stackOld0, false;
      if context == InTag {
        err, again, stackOld := TagByte(buf, pos, c, stackOld0, m);
      } else if context == TagEnd {
        err, old_, refused := TagEndByte(buf, pos, c, stackOld0, m);
        stackOld := -1;
      } else if context == AttStart {
        again, stackOld := AttStartByte(buf, pos, c, stackOld0, m);
      } else if context == AttName {
        stackOld := AttNameByte(buf, pos, c, stackOld0, m);
      } else if context == AttNext {
        again := AttNextByte(buf, pos, c, stackOld0, m);
      } else if context == ValueStart {
        err := ValueStartByte(buf, pos, c, stackOld0, m);
        stackOld := -1;
      } else if context == ValueApos || context == ValueQuot {
        stackOld := ValueByte(buf, pos, c, stackOld0, m);
      } else {
        again := WhitespaceByte(buf, pos, c, stackOld0, m);
      }
    }

    lemma FirstAtt(buf: string, pos: nat, stackOld: int, m: Machine)
      requires Buffer() && Inside(State(), m, buf, pos, stackOld) && AttFirst(m, buf, pos) && pos < |buf|
      ensures m.context == AttStart && (buf[pos] == '/' || buf[pos] == '>') ==> attCur == 0
    {
      hide Flat, AttStrings, StrAt, Growing, Addressed, Agrees, InsideTag, Pending;
    }

    /** A byte inside a multi-byte sequence. */
    method ContinuationByte(buf: string, pos: nat, c: char, old_: int, stackOld: int, ghost m: Machine)
      returns (err: Error)
      requires Buffer() && pos < |buf| && c == buf[pos] && c != '\0' && c as int < 0xFE && uniMax != 0
      requires Related(State(), m, buf, pos, old_, stackOld)
      modifies `uniMax, `uniLen
      ensures Buffer()
      ensures err != Ok ==> err == BadXml && Look(m, c).Stop?
      ensures err == Ok ==>
        && Look(m, c).Go? && !Look(m, c).again
        && Related(State(), Look(m, c).m, buf, pos + 1, old_, stackOld)
    {
      hide Related, Switch, Pass;
      RelatedFields(State(), m, buf, pos, old_, stackOld);
      err := Ok;
      if !IsContinuation(c) {
        err := BadXml;
        return;
      }
      PassRelated(State(), m, buf, pos, old_, stackOld);
      ghost var v := State();
      uniLen := uniLen + 1;
      if uniLen == uniMax {
        uniMax := 0;
      }
      assert State() == v.(uniMax := uniMax, uniLen := uniLen);
      RelatedUni(v, Pass(m, c), buf, pos + 1, old_, stackOld, uniMax, uniLen);
    }

    /** A byte that announces a multi-byte sequence. */
    method LeadByte(buf: string, pos: nat, c: char, old_: int, stackOld0: int, ghost m: Machine)
      returns (err: Error, stackOld: int)
      requires Buffer() && pos < |buf| && c == buf[pos] && 0x80 <= c as int < 0xFE && uniMax == 0
      requires Related(State(), m, buf, pos, old_, stackOld0)
      modifies `uniMax, `uniLen
      ensures Buffer()
      ensures err != Ok ==> err == BadXml && Look(m, c).Stop?
      ensures err == Ok ==>
        && Look(m, c).Go? && !Look(m, c).again
        && Related(State(), Look(m, c).m, buf, pos + 1, old_, stackOld)
    {
      hide Related, Switch, Pass, Naming;
      RelatedFields(State(), m, buf, pos, old_, stackOld0);
      err, stackOld := Ok, stackOld0;
      var n := LeadLength(c);
      if n == 0 || EmptyLead(c) {
        err := BadXml;
        return;
      }
      ghost var v := State();
      if stackOld == -1 && Naming(context) {
        stackOld := pos;
      }
      LeadRelated(v, m, buf, pos, old_, stackOld0);
      ghost var armed := m.(armed := m.armed || Naming(m.context));
      uniMax, uniLen := n, 1;
      assert State() == v.(uniMax := n, uniLen := 1);
      RelatedUni(v, Pass(armed, c), buf, pos + 1, old_, stackOld, n, 1);
      PassUni(armed, c, n, 1);
    }

    // ----- the loop

    /** The body of the loop, without the counters. */
    method LoopBody(buf: string, pos: nat, old0: int, stackOld0: int, ghost m: Machine)
      returns (err: Error, again: bool, old_: int, stackOld: int, ghost refused: bool)
      requires Buffer() && stack != entity && pos < |buf|
      requires Related(State(), m, buf, pos, old0, stackOld0) && AttFirst(m, buf, pos)
      modifies `stack, `stackBase, `stackPos, `stackMax, `tagName, `atts,
        `context, `oldContext, `tagType, `attCur, `attFlag, `entPos, `uniMax, `uniLen, stack, entity, hooks
      ensures stack == old(stack) || fresh(stack)
      ensures Answered(hooks.answer, Look(m, buf[pos]), old(hooks.calls), hooks.calls, err, again, refused)
      ensures err == Ok ==>
        && Buffer() && Related(State(), Look(m, buf[pos]).m, buf, if again then pos else pos + 1, old_, stackOld)
        && AttFirst(Look(m, buf[pos]).m, buf, if again then pos else pos + 1)
    {
      hide Switch, Pass, Inside, Outside, Flat, Accepted, Refused, Buffer;
      RelatedFields(State(), m, buf, pos, old0, stackOld0);
      AcceptedNone(hooks.answer, hooks.calls);
      LookAttFirst(m, buf, pos);
      hide AttFirst;
      again, old_, stackOld, refused := false, old0, stackOld0, false;
      var c := buf[pos];
      if c == '\0' || c as int >= 0xFE {
        err := BadXml;
      } else if uniMax != 0 {
        err := ContinuationByte(buf, pos, c, old0, stackOld0, m);
      } else if c as int >= 0x80 {
        err, stackOld := LeadByte(buf, pos, c, old0, stackOld0, m);
      } else {
        if InsideTag(context) {
          err, again, old_, stackOld, refused := SwitchInside(buf, pos, c, old0, stackOld0, m);
        } else {
          err, old_, stackOld, refused := SwitchOutside(buf, pos, c, old0, m);
        }
      }
    }

    /** What a call of the parser ends with, against the machine's run r over the same bytes:
        refused by a hook, stopped at a byte in error, or all bytes read. */
    ghost predicate Finished(r: Result, calls0: seq<Event>, err: Error, refused: bool)
      reads this, stack, entity, hooks
    {
      if refused then
        err != Ok && Refused(hooks.answer, calls0, hooks.calls, err) && Flat(hooks.calls) <= r.m.out
      else
        && err == r.error && Accepted(hooks.answer, calls0, hooks.calls)
        && bytes == r.m.bytes && lines == r.m.lines
        && if err == Ok then Ready() && machine == r.m else TextBehind(hooks.calls, r.m.out)
    }

    /** The loop invariant: `pos` bytes into buf the machine is in state m, and has r still to come. */
    ghost predicate Reading(buf: string, pos: nat, old_: int, stackOld: int, m: Machine, r: Result, calls0: seq<Event>)
      reads this, stack, entity, hooks
    {
      && pos <= |buf| && Buffer() && stack != entity && m.Valid()
      && Related(State(), m, buf, pos, old_, stackOld) && AttFirst(m, buf, pos)
      && m.bytes == bytes && m.lines == lines
      && Run(m, buf[pos..]) == r && Accepted(hooks.answer, calls0, hooks.calls)
    }

    method CountByte(c: char)
      requires Buffer()
      modifies `bytes, `lines
      ensures Buffer() && State() == old(State())
      ensures bytes == old(bytes) + 1 && lines == old(lines) + if c == '\n' then 1 else 0
    {
      bytes := bytes + 1;
      if '\n' == c {
        lines := lines + 1;
      }
    }

    /** One pass of the loop. */
    method LoopPass(buf: string, pos: nat, old0: int, stackOld0: int, ghost m: Machine, ghost r: Result, ghost calls0: seq<Event>)
      returns (err: Error, pos': nat, old_: int, stackOld: int, ghost m': Machine, ghost refused: bool)
      requires pos < |buf| && Reading(buf, pos, old0, stackOld0, m, r, calls0)
      modifies this, stack, entity, hooks
      ensures stack == old(stack) || fresh(stack)
      ensures machine == old(machine)
      ensures err != Ok ==> Finished(r, calls0, err, refused)
      ensures err == Ok ==>
        && Reading(buf, pos', old_, stackOld, m', r, calls0)
        && (pos' > pos || (pos' == pos && Rank(m'.context) < Rank(m.context)))
    {
      hide Related, Flat, Accepted, Refused, Run, Step, Look, Buffer, AttFirst, TextBehind;
      var c := buf[pos];
      ghost var mid := hooks.calls;
      ghost var o := Look(m, c);
      RunAt(m, buf, pos);
      RelatedText(State(), m, buf, pos, old0, stackOld0);
      pos', m' := pos, m;
      var again;
      err, again, old_, stackOld, refused := LoopBody(buf, pos, old0, stackOld0, m);
      if err != Ok {
        if refused {
          RefusedTrans(hooks.answer, calls0, mid, hooks.calls, err);
        }
        return;
      }
      AcceptedTrans(hooks.answer, calls0, mid, hooks.calls);
      m' := o.m;
      if !again {
        pos' := pos + 1;
        CountByte(c);
        RelatedCount(State(), o.m, buf, pos', old_, stackOld, c);
        m' := Count(o.m, c);
      }
    }

    /** sax_core */
    method SaxCore(buf: string) returns (err: Error, ghost refused: bool)
      requires Ready()
      modifies this, stack, entity, hooks
      ensures stack == old(stack) || fresh(stack)
      ensures Finished(Run(NewBuffer(old(machine)), buf), old(hooks.calls), err, refused)
    {
      ghost var m := NewBuffer(machine);
      ghost var r := Run(m, buf);
      ghost var calls0 := hooks.calls;
      var pos, old_, stackOld := 0, 0, -1;
      AtStart(buf);
      AcceptedNone(hooks.answer, calls0);
      assert buf[0..] == buf;
      assert Reading(buf, pos, old_, stackOld, m, r, calls0);
      hide Reading, Finished;
      while pos < |buf|
        invariant stack == old(stack) || fresh(stack)
        invariant Reading(buf, pos, old_, stackOld, m, r, calls0)
        decreases |buf| - pos, Rank(m.context)
      {
        err, pos, old_, stackOld, m, refused := LoopPass(buf, pos, old_, stackOld, m, r, calls0);
        if err != Ok {
          return;
        }
      }
      ReadingDone(buf, pos, old_, stackOld, m, r, calls0);
      err, refused := EndOfBuffer(buf, old_, stackOld, calls0, m);
    }

    /** iks_parse */
    method Parse(data: string) returns (err: Error, ghost refused: bool)
      requires Ready()
      modifies this, stack, entity, hooks
      ensures stack == old(stack) || fresh(stack)
      ensures Finished(Run(NewBuffer(old(machine)), data), old(hooks.calls), err, refused)
    {
      err, refused := SaxCore(data);
    }

    /** What the hooks and the caller have seen at the end, against the run r of the machine over
        everything: only text in front of an error can be missing, or what follows a refusal. */
    ghost predicate Reported(r: Result, calls0: seq<Event>, err: Error, refused: bool)
      reads this, hooks
    {
      if refused then
        err != Ok && Refused(hooks.answer, calls0, hooks.calls, err) && Flat(hooks.calls) <= r.m.out
      else
        && err == r.error && Accepted(hooks.answer, calls0, hooks.calls)
        && bytes == r.m.bytes && lines == r.m.lines
        && if err == Ok then Flat(hooks.calls) == r.m.out else TextBehind(hooks.calls, r.m.out)
    }

    /** The invariant of the loop of iks_load: i pieces are read, `cut` is what the machine ends with. */
    ghost predicate Loading(pieces: seq<string>, i: nat, cut: Result, calls0: seq<Event>)
      reads this, stack, entity, hooks
    {
      && i <= |pieces| && Ready() && machine.Valid() && RunPieces(machine, pieces[i..]) == cut
      && Flat(hooks.calls) == machine.out && Accepted(hooks.answer, calls0, hooks.calls)
    }

    /** One pass of the loop of iks_load. */
    method LoadPiece(pieces: seq<string>, i: nat, ghost cut: Result, ghost calls0: seq<Event>)
      returns (err: Error, ghost refused: bool)
      requires i < |pieces| && Loading(pieces, i, cut, calls0)
      modifies this, stack, entity, hooks
      ensures stack == old(stack) || fresh(stack)
      ensures if err == Ok then !refused && Loading(pieces, i + 1, cut, calls0) else Reported(cut, calls0, err, refused)
    {
      hide Run, Related, Flat, Accepted, Refused, Buffer, TextBehind, RunPieces;
      ghost var m, mid := machine, hooks.calls;
      PiecesAt(m, pieces, i);
      err, refused := Parse(pieces[i]);
      if refused {
        RefusedTrans(hooks.answer, calls0, mid, hooks.calls, err);
      } else {
        AcceptedTrans(hooks.answer, calls0, mid, hooks.calls);
        if err == Ok {
          ReadyFlat();
        }
      }
    }

    /** The loop of iks_load: one call of iks_parse for each piece of a document, up to the first error. The
        outcome is that of the pieces, and, unless a boundary splits a character of a name or a value, that of
        the whole document in one piece. */
    method ParsePieces(pieces: seq<string>) returns (err: Error, ghost refused: bool)
      requires Ready()
      modifies this, stack, entity, hooks
      ensures Reported(RunPieces(old(machine), pieces), old(hooks.calls), err, refused)
      ensures pieces != [] && CutsHarmlessly(old(machine), pieces) ==>
        Reported(Run(NewBuffer(old(machine)), Join(pieces)), old(hooks.calls), err, refused)
    {
      hide *;
      LoadingStarts(pieces);
      ghost var calls0, m := hooks.calls, machine;
      ghost var cut := RunPieces(machine, pieces);
      var i := 0;
      err, refused := Ok, false;
      while i < |pieces|
        invariant i <= |pieces| && (stack == old(stack) || fresh(stack)) && err == Ok && !refused
        invariant Loading(pieces, i, cut, calls0)
      {
        err, refused := LoadPiece(pieces, i, cut, calls0);
        if err != Ok {
          ReportedSame(m, pieces, calls0, err, refused);
          return;
        }
        i := i + 1;
      }
      LoadingDone(pieces, i, cut, calls0);
      ReportedSame(m, pieces, calls0, Ok, false);
    }

    lemma LoadingStarts(pieces: seq<string>)
      requires Ready()
      ensures machine.Valid() && NewBuffer(machine).Valid()
      ensures Loading(pieces, 0, RunPieces(machine, pieces), hooks.calls)
    {
      hide Run, Related, Flat, Accepted, Buffer, RunPieces;
      ReadyFlat();
      AcceptedNone(hooks.answer, hooks.calls);
      assert pieces[0..] == pieces;
    }

    lemma ReportedSame(m: Machine, pieces: seq<string>, calls0: seq<Event>, err: Error, refused: bool)
      requires m.Valid() && NewBuffer(m).Valid() && Reported(RunPieces(m, pieces), calls0, err, refused)
      ensures pieces != [] && CutsHarmlessly(m, pieces) ==> Reported(Run(NewBuffer(m), Join(pieces)), calls0, err, refused)
    {
      hide Flat, Accepted, Refused, TextBehind, Run, RunPieces, CutsHarmlessly;
      if CutsHarmlessly(m, pieces) {
        ChunkIndependence(m, pieces);
      }
    }

    lemma LoadingDone(pieces: seq<string>, i: nat, cut: Result, calls0: seq<Event>)
      requires Loading(pieces, i, cut, calls0) && i >= |pieces|
      ensures Reported(cut, calls0, Ok, false)
    {
      hide Run, Related, Flat, Accepted, Refused, Buffer, TextBehind;
      assert pieces[i..] == [];
    }

    lemma ReadyFlat()
      requires Ready()
      ensures machine.Valid() && Flat(hooks.calls) == machine.out
    {
      RelatedFlat(State(), NewBuffer(machine));
    }

    lemma ReadingDone(buf: string, pos: nat, old_: int, stackOld: int, m: Machine, r: Result, calls0: seq<Event>)
      requires Reading(buf, pos, old_, stackOld, m, r, calls0) && pos >= |buf|
      ensures r == Result(m, Ok) && Buffer() && stack != entity && m.bytes == bytes && m.lines == lines
      ensures Related(State(), m, buf, |buf|, old_, stackOld) && AttFirst(m, buf, |buf|)
      ensures Accepted(hooks.answer, calls0, hooks.calls)
    {
      hide Related, Flat, Accepted, Buffer, AttFirst, Step;
      assert buf[pos..] == "";
    }

    lemma AtStart(buf: string)
      requires Ready()
      ensures var m := NewBuffer(machine);
        && m.Valid() && Related(State(), m, buf, 0, 0, -1) && AttFirst(m, buf, 0)
    {
      hide Inside, Outside;
      StartOfBuffer(State(), NewBuffer(machine), "", buf);
      RelatedFields(State(), NewBuffer(machine), "", 0, 0, -1);
    }

    /** All bytes are read: the marked ones are kept in the string buffer, the pending text is delivered. */
    method EndOfBuffer(buf: string, old_: int, stackOld: int, ghost calls0: seq<Event>, ghost m: Machine)
      returns (err: Error, ghost refused: bool)
      requires Buffer() && stack != entity && m.bytes == bytes && m.lines == lines
      requires Related(State(), m, buf, |buf|, old_, stackOld) && AttFirst(m, buf, |buf|)
      requires Accepted(hooks.answer, calls0, hooks.calls)
      modifies `stack, `stackBase, `stackPos, `stackMax, `tagName, `atts, `machine, stack, hooks
      ensures stack == old(stack) || fresh(stack)
      ensures Finished(Result(m, Ok), calls0, err, refused)
    {
      hide Related, Flat, Accepted, Refused, Pushed, Addressed, TextBehind;
      RelatedFields(State(), m, buf, |buf|, old_, stackOld);
      err, refused := Ok, false;
      machine := m;
      if stackOld != -1 {
        ghost var v := State();
        MarkedInside(v, m, buf, old_, stackOld);
        Push(buf[stackOld..|buf|], v.attCur + Pending(m.context));
        SegmentKept(v, m, buf, old_, stackOld, State());
        assert State().context == v.context;
      }
      if context == InText || context == SectText {
        TextAtEnd(State(), m, buf, old_, stackOld);
        ghost var v := State();
        ghost var mid := hooks.calls;
        err := Flush(buf, |buf|, old_);
        refused := err != Ok;
        if refused {
          RefusedTrans(hooks.answer, calls0, mid, hooks.calls, err);
        } else {
          AcceptedTrans(hooks.answer, calls0, mid, hooks.calls);
          TextDelivered(v, m, buf, old_, hooks.calls);
        }
      } else if stackOld == -1 {
        UnmarkedKept(State(), m, buf, old_);
      }
    }
  }

  /** The text passed over is all that is missing from the calls. */
  ghost predicate TextBehind(calls: seq<Event>, out: seq<Event>) {
    exists text :: out == Flat(calls) + Chars(text)
  }

  lemma RelatedFlat(v: Fields, m: Machine)
    requires Related(v, m, "", 0, 0, -1)
    ensures Flat(v.calls) == m.out
  {
    hide Flat, Agrees, Names, Growing, Addressed, Pending, InsideTag;
    assert ""[0..0] == "";
    assert Flat(v.calls) + Chars("") == Flat(v.calls);
  }

  lemma RelatedText(v: Fields, m: Machine, buf: string, pos: nat, old_: int, stackOld: int)
    requires Related(v, m, buf, pos, old_, stackOld)
    ensures TextBehind(v.calls, m.out)
  {
    hide Flat, Agrees, Names, Growing, Addressed, Pending, InsideTag;
    assert Flat(v.calls) + Chars("") == Flat(v.calls);
  }

  lemma RelatedCount(v: Fields, m: Machine, buf: string, pos: nat, old_: int, stackOld: int, c: char)
    requires Related(v, m, buf, pos, old_, stackOld)
    ensures Related(v, Count(m, c), buf, pos, old_, stackOld) && Count(m, c).Valid()
    ensures AttFirst(m, buf, pos) <==> AttFirst(Count(m, c), buf, pos)
  {
    hide Flat, AttStrings, StrAt, GrowsAt, Addressed, Pending, InsideTag;
  }

  /** With nothing marked or pending, the buffer does not matter. */
  lemma StartOfBuffer(v: Fields, m: Machine, buf: string, buf': string)
    requires Related(v, m, buf, 0, 0, -1)
    ensures Related(v, m, buf', 0, 0, -1)
  {
    hide Flat, Names, Growing, Agrees, Addressed, Pending, InsideTag;
    assert buf[0..0] == buf'[0..0];
  }

  lemma MarkedInside(v: Fields, m: Machine, buf: string, old_: int, stackOld: int)
    requires Related(v, m, buf, |buf|, old_, stackOld) && stackOld != -1
    ensures v.ready && Addressed(v, v.attCur + Pending(m.context)) && !TextContext(m.context)
  {
    hide Flat, Names, Growing, Agrees, Addressed, Pending;
  }

  lemma GrowsAtKept(mem: string, o: int, cur: string, seg: string)
    requires GrowsAt(mem, o, cur, seg)
    ensures GrowsAt(mem + seg, o, cur, "")
  {
    assert (mem + seg)[o..] == mem[o..] + seg;
    assert cur + "" == cur;
  }

  lemma GrowingKept(v: Fields, m: Machine, n: nat, seg: string, w: Fields)
    requires Growing(v, m, seg) && Pushed(v, n, seg, w) && v.attCur + Pending(m.context) <= n
    ensures Growing(w, NewBuffer(m), "")
  {
    hide GrowsAt;
    if m.context == InTag {
      GrowsAtKept(v.mem, v.tagName - v.base, m.cur, seg);
    } else if m.context == AttName {
      GrowsAtKept(v.mem, v.atts[v.attCur] - v.base, m.cur, seg);
    } else if m.context in {ValueApos, ValueQuot} {
      GrowsAtKept(v.mem, v.atts[v.attCur + 1] - v.base, m.cur, seg);
    }
  }

  lemma NamesAgreeKept(v: Fields, w: Fields, m: Machine)
    requires Agrees(v, m) && Names(w, m) && v.context == w.context
    requires w == v.(base := w.base, mem := w.mem, tagName := w.tagName, atts := w.atts)
    ensures Agrees(w, NewBuffer(m)) && Names(w, NewBuffer(m))
  {
    hide AttStrings, StrAt;
  }

  /** The marked bytes are in the string buffer now. */
  lemma SegmentKept(v: Fields, m: Machine, buf: string, old_: int, stackOld: int, w: Fields)
    requires Related(v, m, buf, |buf|, old_, stackOld) && stackOld != -1
    requires Pushed(v, v.attCur + Pending(m.context), Segment(buf, |buf|, stackOld), w)
    ensures Related(w, NewBuffer(m), "", 0, 0, -1)
    ensures w.context == v.context
  {
    hide Flat, Names, Growing, Agrees, Addressed, Pending, InsideTag;
    var n, seg := v.attCur + Pending(m.context), Segment(buf, |buf|, stackOld);
    NamesGrow(v, m, n, seg, w);
    GrowingKept(v, m, n, seg, w);
    NamesAgreeKept(v, w, m);
    assert Segment("", 0, -1) == "";
  }

  lemma UnmarkedKept(v: Fields, m: Machine, buf: string, old_: int)
    requires Related(v, m, buf, |buf|, old_, -1) && !TextContext(m.context)
    ensures Related(v, NewBuffer(m), "", 0, 0, -1)
  {
    hide Flat, Names, Growing, Agrees, Addressed, Pending, InsideTag;
    RelatedFields(v, m, buf, |buf|, old_, -1);
    assert NewBuffer(m) == m;
  }

  lemma TextAtEnd(v: Fields, m: Machine, buf: string, old_: int, stackOld: int)
    requires Related(v, m, buf, |buf|, old_, stackOld) && TextContext(m.context)
    ensures 0 <= old_ <= |buf| && stackOld == -1 && m.out == Flat(v.calls) + Chars(buf[old_..|buf|])
  {
    hide Flat, Names, Growing, Agrees, Addressed, Pending;
    assert !InsideTag(m.context);
  }

  lemma TextDelivered(v: Fields, m: Machine, buf: string, old_: int, calls: seq<Event>)
    requires Related(v, m, buf, |buf|, old_, -1) && TextContext(m.context) && Flat(calls) == m.out
    ensures Related(v.(calls := calls), NewBuffer(m), "", 0, 0, -1)
  {
    hide Flat, Names, Growing, Addressed, Pending;
    RelatedFields(v, m, buf, |buf|, old_, -1);
    assert NewBuffer(m) == m && !InsideTag(m.context);
    assert Chars(""[0..0]) == [];
  }

  // ----- the machine's run, one pass at a time

  lemma RunAt(m: Machine, buf: string, pos: nat)
    requires m.Valid() && pos < |buf|
    ensures var o, c := Look(m, buf[pos]), buf[pos];
      && (o.Stop? ==> Run(m, buf[pos..]) == Result(m, BadXml))
      && (o.Go? ==> o.m.Valid() && Count(o.m, c).Valid() && o.m.out <= Run(m, buf[pos..]).m.out)
      && (o.Go? ==> o.m.bytes == m.bytes && o.m.lines == m.lines)
      && (o.Go? && o.again ==> Rank(o.m.context) < Rank(m.context) && Run(m, buf[pos..]) == Run(o.m, buf[pos..]))
      && (o.Go? && !o.again ==> Run(m, buf[pos..]) == Run(Count(o.m, c), buf[pos + 1..]))
  {
    LookOut(m, buf[pos]);
    hide Look;
    LookSound(m, buf[pos]);
    var input := buf[pos..];
    assert input[0] == buf[pos] && input[1..] == buf[pos + 1..];
    var o := Look(m, buf[pos]);
    if o.Go? {
      if o.again {
        OutGrows(o.m, input);
      } else {
        OutGrows(Count(o.m, buf[pos]), input[1..]);
      }
    }
  }

  lemma LookOut(m: Machine, c: char)
    requires m.Valid()
    ensures var o := Look(m, c);
      o.Go? ==> m.out <= o.m.out && o.m.bytes == m.bytes && o.m.lines == m.lines
  {
    hide Switch, Pass;
    SwitchOut(m, c);
    PassOut(m, c);
    PassOut(m.(uniMax := LeadLength(c), uniLen := 1, armed := m.armed || Naming(m.context)), c);
  }

  lemma PassOut(m: Machine, c: char)
    ensures m.out <= Pass(m, c).out && Pass(m, c).bytes == m.bytes && Pass(m, c).lines == m.lines
  {
  }

  lemma SwitchOut(m: Machine, c: char)
    ensures var o := Switch(m, c);
      o.Go? ==> m.out <= o.m.out && o.m.bytes == m.bytes && o.m.lines == m.lines
  {
  }

  /** Events once delivered stay. */
  lemma {:induction false} OutGrows(m: Machine, input: string)
    requires m.Valid()
    ensures m.out <= Run(m, input).m.out
    decreases |input|, Rank(m.context)
  {
    hide Look;
    if input != "" {
      LookSound(m, input[0]);
      LookOut(m, input[0]);
      var o := Step(m, input[0]);
      if o.Go? {
        OutGrows(o.m, if o.again then input else input[1..]);
      }
    }
  }

  lemma {:induction false} PiecesGrow(m: Machine, pieces: seq<string>)
    requires m.Valid()
    ensures m.out <= RunPieces(m, pieces).m.out
    decreases |pieces|
  {
    hide Run;
    if pieces != [] {
      OutGrows(NewBuffer(m), pieces[0]);
      var r := Run(NewBuffer(m), pieces[0]);
      if r.error == Ok {
        PiecesGrow(r.m, pieces[1..]);
      }
    }
  }

  lemma PiecesAt(m: Machine, pieces: seq<string>, i: nat)
    requires m.Valid() && i < |pieces|
    ensures var r := Run(NewBuffer(m), pieces[i]);
      && RunPieces(m, pieces[i..]) == (if r.error == Ok then RunPieces(r.m, pieces[i + 1..]) else r)
      && r.m.out <= RunPieces(m, pieces[i..]).m.out
  {
    hide Run;
    assert pieces[i..][0] == pieces[i] && pieces[i..][1..] == pieces[i + 1..];
    PiecesGrow(Run(NewBuffer(m), pieces[i]).m, pieces[i + 1..]);
  }

  lemma LookAttFirst(m: Machine, buf: string, pos: nat)
    requires m.Valid() && AttFirst(m, buf, pos) && pos < |buf|
    ensures var o := Look(m, buf[pos]);
      o.Go? ==> AttFirst(o.m, buf, if o.again then pos else pos + 1)
  {
    hide Switch;
    if m.uniMax == 0 && IsAscii(buf[pos]) && Switch(m, buf[pos]).Go? {
      SwitchAttFirst(m, buf[pos], buf, pos);
    }
  }

  lemma RelatedFields(v: Fields, m: Machine, buf: string, pos: nat, old_: int, stackOld: int)
    requires Related(v, m, buf, pos, old_, stackOld)
    ensures m.Valid() && v.context == m.context && v.uniMax == m.uniMax && v.uniLen == m.uniLen
    ensures pos <= |buf| && -1 <= stackOld <= pos && (stackOld != -1 <==> m.armed)
  {
    hide Flat, Names, Growing, Addressed, TextPending, Pending;
  }

  lemma PassUni(m: Machine, c: char, uniMax: nat, uniLen: nat)
    ensures Pass(m.(uniMax := uniMax, uniLen := uniLen), c) == Pass(m, c).(uniMax := uniMax, uniLen := uniLen)
  {
  }

  lemma RelatedUni(v: Fields, m: Machine, buf: string, pos: nat, old_: int, stackOld: int, uniMax: nat, uniLen: nat)
    requires Related(v, m, buf, pos, old_, stackOld) && (uniMax != 0 ==> uniLen < uniMax)
    ensures Related(v.(uniMax := uniMax, uniLen := uniLen), m.(uniMax := uniMax, uniLen := uniLen), buf, pos, old_, stackOld)
  {
    hide Flat, AttStrings, StrAt, GrowsAt, InsideTag, Pending, Machine.Valid;
    UniValid(m, uniMax, uniLen);
  }

  lemma UniValid(m: Machine, uniMax: nat, uniLen: nat)
    ensures m.Valid() && (uniMax != 0 ==> uniLen < uniMax) ==> m.(uniMax := uniMax, uniLen := uniLen).Valid()
  {
  }

  /** Nothing is collected from this byte. */
  lemma InsidePasses(v: Fields, m: Machine, buf: string, pos: nat, stackOld: int)
    requires Inside(v, m, buf, pos, stackOld) && pos < |buf| && (!Naming(m.context) || stackOld == -1)
    ensures Inside(v, m, buf, pos + 1, stackOld)
  {
    hide Flat, Names, Agrees, Addressed, Pending, InsideTag, GrowsAt;
  }

  lemma OutsidePasses(v: Fields, m: Machine, buf: string, pos: nat, old_: int)
    requires Outside(v, m, buf, pos, old_) && pos < |buf| && !TextContext(m.context)
    ensures Outside(v, m, buf, pos + 1, old_)
  {
    hide Flat, Agrees, InsideTag;
  }

  lemma NamingInside(m: Machine)
    requires m.Valid()
    ensures Naming(m.context) ==> InsideTag(m.context)
    ensures TextContext(m.context) ==> !InsideTag(m.context)
  {
  }

  lemma PassRelated(v: Fields, m: Machine, buf: string, pos: nat, old_: int, stackOld: int)
    requires Related(v, m, buf, pos, old_, stackOld) && pos < |buf| && buf[pos] != '\0'
    ensures Related(v, Pass(m, buf[pos]), buf, pos + 1, old_, stackOld)
  {
    RelatedFields(v, m, buf, pos, old_, stackOld);
    NamingInside(m);
    hide Inside, Outside, InsideTag, Naming, Machine.Valid;
    if InsideTag(m.context) {
      if Naming(m.context) && stackOld != -1 {
        GatherInside(v, m, buf, pos, stackOld, buf[pos]);
      } else {
        InsidePasses(v, m, buf, pos, stackOld);
      }
    } else if TextContext(m.context) {
      TextStays(v, m, buf, pos, old_);
    } else {
      OutsidePasses(v, m, buf, pos, old_);
    }
  }

  lemma LeadRelated(v: Fields, m: Machine, buf: string, pos: nat, old_: int, stackOld: int)
    requires Related(v, m, buf, pos, old_, stackOld) && pos < |buf| && buf[pos] != '\0'
    ensures Related(v, Pass(m.(armed := m.armed || Naming(m.context)), buf[pos]), buf, pos + 1, old_,
                    if stackOld == -1 && Naming(m.context) then pos else stackOld)
  {
    RelatedFields(v, m, buf, pos, old_, stackOld);
    if Naming(m.context) {
      NamingInside(m);
      hide Inside, Outside, InsideTag, Machine.Valid;
      GatherInside(v, m, buf, pos, stackOld, buf[pos]);
    } else {
      assert m.(armed := m.armed || Naming(m.context)) == m;
      hide Inside, Outside, InsideTag, Naming, Machine.Valid;
      PassRelated(v, m, buf, pos, old_, stackOld);
    }
  }

  /** The first context of an attribute that is not the first is entered with a byte of its name. */
  predicate AttFirst(m: Machine, buf: string, pos: nat) {
    m.context == AttStart && m.atts != [] ==>
      pos < |buf| && IsAscii(buf[pos]) && m.uniMax == 0 && buf[pos] != '/' && buf[pos] != '>'
  }

  lemma SwitchAttFirst(m: Machine, c: char, buf: string, pos: nat)
    requires m.Valid() && AttFirst(m, buf, pos) && pos < |buf| && c == buf[pos] && Switch(m, c).Go?
    requires IsAscii(c) && m.uniMax == 0
    ensures AttFirst(Switch(m, c).m, buf, if Switch(m, c).again then pos else pos + 1)
  {
  }

  lemma OutsideStays(m: Machine, c: char)
    requires m.Valid() && !InsideTag(m.context)
    ensures StepText(m, c).Go? ==> !InsideTag(StepText(m, c).m.context)
    ensures StepEntity(m, c).Go? ==> !InsideTag(StepEntity(m, c).m.context)
    ensures StepMarkup(m, c).Go? ==> !InsideTag(StepMarkup(m, c).m.context)
    ensures StepSection(m, c).Go? ==> !InsideTag(StepSection(m, c).m.context)
  {
  }

  lemma InsideStays(m: Machine, c: char)
    requires m.Valid() && InsideTag(m.context)
    ensures m.context == TagEnd ==> StepTag(m, c).Go? ==> !InsideTag(StepTag(m, c).m.context)
    ensures m.context == InTag ==> StepTag(m, c).Go? ==> InsideTag(StepTag(m, c).m.context)
    ensures m.context !in {InTag, TagEnd} ==> StepAttribute(m, c).Go? ==> InsideTag(StepAttribute(m, c).m.context)
  {
  }

  lemma WhitespaceStays(v: Fields, m: Machine, buf: string, pos: nat, stackOld: int)
    requires Inside(v, m, buf, pos, stackOld) && m.context == Whitespace && pos < |buf|
    ensures Inside(v, m, buf, pos + 1, stackOld)
  {
    hide Flat, Names, Addressed, Agrees, Pending, InsideTag;
  }

  lemma OneChar(c: char)
    ensures Chars([c]) == [Text([c])]
  {
    assert [c][1..] == "";
  }

  lemma TwoBrackets()
    ensures Chars("]]") == [Text("]"), Text("]")]
  {
    CharsLength("]]");
  }

  lemma NoChars(es: seq<Event>)
    ensures es + Chars("") == es
  {
  }
}

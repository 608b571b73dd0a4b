/** The parser of sax.c seen one byte at a time: what a byte does to the state and to the
    events delivered so far. Positions, the string buffer and the cut into chunks are gone;
    the class in Sax.dfy is proved against this machine. */
module SaxMachine {
  import opened Xml

  datatype Context =
    | InText | TagStart | InTag | TagEnd
    | AttStart | AttName | AttNext
    | ValueStart | ValueApos | ValueQuot
    | Whitespace | Entity
    | Comment | Comment1 | Comment2 | Comment3
    | Markup | Markup1
    | Sect | SectCdata | SectCdata1 | SectCdata2 | SectCdata3 | SectCdata4
    | SectText | SectEnd | SectEnd2
    | Instruction

  /** `cur` is the tag name, attribute name or value being read, `armed` says whether the
      parser has marked a start position in the current buffer (stack_old != -1),
      `out` is the flat history of delivered events. */
  datatype Machine = Machine(
    context: Context, oldContext: Context, tagType: TagType,
    name: string, atts: Attrs, attName: string, cur: string, armed: bool,
    entity: string, uniMax: nat, uniLen: nat,
    bytes: nat, lines: nat, out: seq<Event>)
  {
    predicate Valid() {
      && (context == Whitespace ==> oldContext in {TagEnd, AttStart, AttNext})
      && (context == Whitespace && oldContext != AttNext ==> atts == [])
      && (!InsideTag(context) || context == ValueStart ==> !armed)
      && (!InsideTag(context) || context == InTag ==> atts == [])
      && |entity| <= 7
      && (uniMax != 0 ==> uniLen < uniMax)
    }

    function Emit(e: seq<Event>): Machine {
      this.(out := out + e)
    }

    function Gather(c: char): Machine {
      this.(armed := true, cur := cur + [c])
    }
  }

  /** The contexts from the first byte of a tag name to the end of the tag. */
  predicate InsideTag(context: Context) {
    context in {InTag, TagEnd, AttStart, AttName, AttNext, ValueStart, ValueApos, ValueQuot, Whitespace}
  }

  /** The state of a new parser: all fields zero. */
  const START := Machine(InText, InText, Open, "", [], "", "", false, "", 0, 0, 0, 0, [])

  datatype Outcome =
    | Stop  // the byte is in error: IKS_BADXML
    | Go(m: Machine, again: bool)

  predicate IsSpace(c: char) {
    c == ' ' || c == '\t' || c == '\r' || c == '\n'
  }

  predicate IsContinuation(c: char) {
    0x80 <= c as int < 0xC0
  }

  /** The contexts in which bytes are collected into `cur`. */
  predicate Naming(context: Context) {
    context in {InTag, AttName, ValueApos, ValueQuot}
  }

  /** Bytes without the high bit; the others never reach the state switch. */
  predicate IsAscii(c: char) {
    0 < c as int < 0x80
  }

  /** Orders the contexts a byte passes through when it is looked at again. */
  function Rank(context: Context): nat {
    match context
    case TagEnd => 0
    case AttStart => 1
    case InTag => 2
    case AttNext => 2
    case _ => 3
  }

  /** Length of the multi-byte sequence a lead byte announces, 0 when it is no lead byte. */
  function LeadLength(c: char): nat {
    var n := c as int;
    if 0xC0 <= n < 0xE0 then 2
    else if 0xE0 <= n < 0xF0 then 3
    else if 0xF0 <= n < 0xF8 then 4
    else if 0xF8 <= n < 0xFC then 5
    else if 0xFC <= n < 0xFE then 6
    else 0
  }

  /** A lead byte whose payload bits are all zero is refused. */
  predicate EmptyLead(c: char) {
    c as int in {0xC0, 0xE0, 0xF0, 0xF8, 0xFC}
  }

  /** Bytes of a multi-byte sequence skip the switch: they only extend what is being read. */
  function Pass(m: Machine, c: char): Machine {
    if m.context == InText || m.context == SectText then m.Emit([Text([c])])
    else if Naming(m.context) && m.armed then m.(cur := m.cur + [c])
    else m
  }

  function EntityChar(name: string): char {
    if name == "amp" then '&'
    else if name == "quot" then '"'
    else if name == "apos" then '\''
    else if name == "lt" then '<'
    else if name == "gt" then '>'
    else '?'
  }

  function EndName(m: Machine): Machine {
    m.(name := m.cur, armed := false)
  }

  function EndValue(m: Machine): Machine {
    m.(atts := m.atts + [(m.attName, m.cur)], oldContext := AttNext, context := Whitespace, armed := true)
  }

  function StepText(m: Machine, c: char): Outcome {
    if c == '&' then Go(m.(context := Entity, entity := ""), false)
    else if c == '<' then Go(m.(context := TagStart), false)
    else Go(m.Emit([Text([c])]), false)
  }

  function StepEntity(m: Machine, c: char): Outcome {
    if c == ';' then Go(m.(context := InText).Emit([Text([EntityChar(m.entity)])]), false)
    else if |m.entity| == 7 then Stop
    else Go(m.(entity := m.entity + [c]), false)
  }

  function StepTag(m: Machine, c: char): Outcome {
    match m.context
    case TagStart =>
      if c == '/' then Go(m.(context := InTag, tagType := Close, cur := ""), false)
      else if c == '?' then Go(m.(context := Instruction), false)
      else if c == '!' then Go(m.(context := Markup), false)
      else Go(m.(context := InTag, tagType := Open, armed := true, cur := [c]), false)
    case InTag =>
      if IsSpace(c) then
        Go(EndName(m).(context := Whitespace, oldContext := if m.tagType == Close then TagEnd else AttStart), false)
      else if c == '/' then
        if m.tagType == Close then Stop
        else Go(EndName(m).(context := TagEnd, tagType := Single), false)
      else if c == '>' then Go(EndName(m).(context := TagEnd), true)
      else Go(m.Gather(c), false)
    case _ /* TagEnd */ =>
      if c != '>' then Stop
      else Go(m.Emit([Tag(m.name, m.atts, m.tagType)]).(atts := [], armed := false, context := InText), false)
  }

  function StepAttribute(m: Machine, c: char): Outcome {
    match m.context
    case AttStart =>
      if c == '/' then Go(m.(context := TagEnd, tagType := Single), false)
      else if c == '>' then Go(m.(context := TagEnd), true)
      else Go(m.(context := AttName, armed := true, cur := [c]), false)
    case AttName =>
      if c == '=' then Go(m.(context := ValueStart, attName := m.cur, armed := false), false)
      else Go(m.Gather(c), false)
    case AttNext =>
      if c == '/' then Go(m.(context := TagEnd, tagType := Single), false)
      else if c == '>' then Go(m.(context := TagEnd), true)
      else Go(m.(context := AttStart), true)
    case ValueStart =>
      if c == '\'' then Go(m.(context := ValueApos, cur := ""), false)
      else if c == '"' then Go(m.(context := ValueQuot, cur := ""), false)
      else Stop
    case ValueApos =>
      if c == '\'' then Go(EndValue(m), false) else Go(m.Gather(c), false)
    case ValueQuot =>
      if c == '"' then Go(EndValue(m), false) else Go(m.Gather(c), false)
    case _ /* Whitespace */ =>
      if IsSpace(c) then Go(m, false) else Go(m.(context := m.oldContext), true)
  }

  function Expect(m: Machine, c: char, want: char, context: Context): Outcome {
    if c == want then Go(m.(context := context), false) else Stop
  }

  function StepMarkup(m: Machine, c: char): Outcome {
    match m.context
    case Comment => Expect(m, c, '-', Comment1)
    case Comment1 => Go(if c == '-' then m.(context := Comment2) else m, false)
    case Comment2 => Go(m.(context := if c == '-' then Comment3 else Comment1), false)
    case Comment3 => Expect(m, c, '>', InText)
    case Markup =>
      Go(m.(context := if c == '[' then Sect else if c == '-' then Comment
                       else if c == '>' then InText else Markup1), false)
    case _ /* Markup1, Instruction */ => Go(if c == '>' then m.(context := InText) else m, false)
  }

  function StepSection(m: Machine, c: char): Outcome {
    match m.context
    case Sect => Expect(m, c, 'C', SectCdata)
    case SectCdata => Expect(m, c, 'D', SectCdata1)
    case SectCdata1 => Expect(m, c, 'A', SectCdata2)
    case SectCdata2 => Expect(m, c, 'T', SectCdata3)
    case SectCdata3 => Expect(m, c, 'A', SectCdata4)
    case SectCdata4 => Expect(m, c, '[', SectText)
    case SectText =>
      if c == ']' then Go(m.(context := SectEnd), false) else Go(m.Emit([Text([c])]), false)
    case SectEnd =>
      if c == ']' then Go(m.(context := SectEnd2), false)
      else Go(m.(context := SectText).Emit([Text("]"), Text([c])]), false)
    case _ /* SectEnd2 */ =>
      if c == '>' then Go(m.(context := InText), false)
      else Go(m.(context := SectText).Emit([Text("]"), Text("]"), Text([c])]), false)
  }

  function Switch(m: Machine, c: char): Outcome {
    match m.context
    case InText => StepText(m, c)
    case Entity => StepEntity(m, c)
    case TagStart => StepTag(m, c)
    case InTag => StepTag(m, c)
    case TagEnd => StepTag(m, c)
    case AttStart => StepAttribute(m, c)
    case AttName => StepAttribute(m, c)
    case AttNext => StepAttribute(m, c)
    case ValueStart => StepAttribute(m, c)
    case ValueApos => StepAttribute(m, c)
    case ValueQuot => StepAttribute(m, c)
    case Whitespace => StepAttribute(m, c)
    case Comment => StepMarkup(m, c)
    case Comment1 => StepMarkup(m, c)
    case Comment2 => StepMarkup(m, c)
    case Comment3 => StepMarkup(m, c)
    case Markup => StepMarkup(m, c)
    case Markup1 => StepMarkup(m, c)
    case Instruction => StepMarkup(m, c)
    case _ => StepSection(m, c)
  }

  /** One pass of the parser loop over byte c, without the byte and line counters. */
  function Look(m: Machine, c: char): Outcome {
    if c == '\0' || c as int >= 0xFE then Stop
    else if m.uniMax != 0 then
      if !IsContinuation(c) then Stop
      else
        var done := m.uniLen + 1 == m.uniMax;
        Go(Pass(m, c).(uniLen := m.uniLen + 1, uniMax := if done then 0 else m.uniMax), false)
    else if c as int >= 0x80 then
      if LeadLength(c) == 0 || EmptyLead(c) then Stop
      else
        var lead := m.(uniMax := LeadLength(c), uniLen := 1, armed := m.armed || Naming(m.context));
        Go(Pass(lead, c), false)
    else Switch(m, c)
  }

  function Count(m: Machine, c: char): Machine {
    m.(bytes := m.bytes + 1, lines := m.lines + if c == '\n' then 1 else 0)
  }

  /** One pass of the parser loop: a byte that is to be looked at again is not counted. */
  function Step(m: Machine, c: char): (o: Outcome) {
    var o := Look(m, c);
    if o.Go? && !o.again then Go(Count(o.m, c), false) else o
  }

  /** What every pass keeps: validity, and a lower rank when the byte is looked at again. */
  predicate Sound(m: Machine, o: Outcome) {
    o.Go? ==> o.m.Valid() && (o.again ==> Rank(o.m.context) < Rank(m.context))
  }

  lemma TagSound(m: Machine, c: char)
    requires m.Valid() && m.context in {TagStart, InTag, TagEnd}
    ensures Sound(m, StepTag(m, c))
  {
  }

  lemma AttributeSound(m: Machine, c: char)
    requires m.Valid() && InsideTag(m.context) && m.context !in {InTag, TagEnd}
    ensures Sound(m, StepAttribute(m, c))
  {
  }

  lemma MarkupSound(m: Machine, c: char)
    requires m.Valid() && !InsideTag(m.context)
    ensures Sound(m, StepText(m, c)) && Sound(m, StepEntity(m, c)) && Sound(m, StepMarkup(m, c))
  {
  }

  lemma SectionSound(m: Machine, c: char)
    requires m.Valid() && !InsideTag(m.context)
    ensures Sound(m, StepSection(m, c))
  {
  }

  lemma SwitchSound(m: Machine, c: char)
    requires m.Valid()
    ensures Sound(m, Switch(m, c))
  {
    hide StepTag, StepAttribute, StepText, StepEntity, StepMarkup, StepSection, Sound;
    if m.context in {TagStart, InTag, TagEnd} {
      TagSound(m, c);
    } else if InsideTag(m.context) {
      AttributeSound(m, c);
    } else {
      MarkupSound(m, c);
      SectionSound(m, c);
    }
  }

  lemma PassSound(m: Machine, c: char)
    requires m.Valid() && c as int >= 0x80
    ensures Sound(m, Look(m, c)) && (Look(m, c).Go? ==> !Look(m, c).again)
  {
  }

  lemma LookSound(m: Machine, c: char)
    requires m.Valid()
    ensures Sound(m, Look(m, c))
  {
    hide Switch, Pass;
    if c as int >= 0x80 {
      hide Sound;
      PassSound(m, c);
    } else if c != '\0' && m.uniMax == 0 {
      hide Sound;
      SwitchSound(m, c);
    }
  }

  lemma StepSound(m: Machine, c: char)
    requires m.Valid()
    ensures Sound(m, Step(m, c))
  {
    hide Look;
    LookSound(m, c);
  }

  /** A byte that reaches the switch. */
  lemma StepAscii(m: Machine, c: char)
    requires m.uniMax == 0 && IsAscii(c)
    ensures var o := Switch(m, c);
      Step(m, c) == if o.Go? && !o.again then Go(Count(o.m, c), false) else o
  {
    hide Switch;
  }

  datatype Result = Result(m: Machine, error: Error)

  /** The parser on a whole input: it stops at the first byte in error. */
  function Run(m: Machine, input: string): (r: Result)
    requires m.Valid()
    ensures r.m.Valid()
    decreases |input|, Rank(m.context)
  {
    if input == "" then Result(m, Ok)
    else
      StepSound(m, input[0]);
      match Step(m, input[0])
      case Stop => Result(m, BadXml)
      case Go(next, again) => Run(next, if again then input else input[1..])
  }
}

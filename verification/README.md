# Models of the XML engine, the message rings and the digests

This project models four parts of the repository and proves properties of the models with Dafny 4.11:

1. the XML engine of iksemel: the incremental parser (`sax.c`), the tree builder (`dom.c`), the stream hooks
   (`stream.c`), the linked trees, the printer and the copier (`iks.c`);
2. the message protocol of the server: the ring of incoming cells and the pool of outgoing cells
   (`cdogEar.c`), the ring buffer below them (`fifo.c`) and the intrusive lists (`list.h`);
3. the object stack that every tree and string lives in (`ikstack.c`);
4. SHA-1 (`sha.c`), Base64 (`cdogBase64.c`) and the packet filter (`filter.c`).

`dafny verify dfyconfig.toml` checks everything.

## How the modules hang together

| file | what it holds |
|---|---|
| `Xml.dfy` | trees, events, the recursive printer, flat event histories |
| `SaxMachine.dfy` | the parser as a machine that takes one byte at a time; `Run` is a whole input |
| `SaxLaws.dfy`, `SaxCuts.dfy` | laws of the machine: cutting the input into pieces, CDATA sections; which cuts do harm |
| `Sax.dfy` | the parser as it is: a class with the C fields, addresses, a string buffer that grows and moves, positions in the caller's buffer; proved against the machine |
| `Dom.dfy`, `DomLaws.dfy` | what the DOM hooks make of a history of events; which histories they accept; trees say their history |
| `RoundTrip.dfy` | parser and DOM hooks on the printed form of a tree |
| `SaxText.dfy` | the parser on documents as people write them: laws about literal text, and what is refused |
| `Iks.dfy` | nodes with integer links and the operations that edit them |
| `IksWalk.dfy` | one pass of the loop over nodes that has a level and a direction but no stack |
| `IksString.dfy`, `IksBuild.dfy`, `IksCopy.dfy`, `IksInsert.dfy` | the printer's two passes, trees under construction, the copier, inserting one tree into another |
| `DomHooks.dfy`, `Stream.dfy` | the hooks of `dom.c` and `stream.c` on linked nodes; `iks_tree` and `iks_load` from end to end |
| `StreamParse.dfy` | a stream from its bytes to the elements that are handed out |
| `Slots.dfy`, `CatRing.dfy`, `Fifo.dfy`, `List.dfy` | the server's rings and lists |
| `OutCells.dfy`, `OutOrder.dfy`, `OutFlow.dfy` | the pool of outgoing cells; the order in which messages pass through it; whose bytes are sent |
| `IkStack.dfy` | the object stack |
| `Sha1.dfy`, `Sha1Vectors.dfy`, `Sha.dfy` | RFC 3174, its two published digests, and the digest of `sha.c` |
| `Base64.dfy` | RFC 4648 and its codec |
| `FilterRules.dfy`, `Filter.dfy` | criteria, scores and the order of hooks; the linked list of rules and the loops over it |

## Conventions

- A byte is a `char` below 256 in the XML modules, a `bv8` in the digest and a number below 256 in Base64. A C
  string is the `string` in front of its NUL.
- A pointer to a node or to a rule is its index among all that have been made, and -1 is NULL. A pointer into the parser's
  string buffer is an address, base plus offset, so that moving the buffer has to correct it. A pointer into an
  object stack is a chunk and an offset.
- A hook is a function from the calls made so far, the present one included, to its answer; a class records the
  calls. So a law about calls and answers holds for every hook that does not reach into the parser.
- Events are compared *flat*, with every text cut into single characters: two histories are told apart by their
  tags and by the text between them, not by how a text was handed over.
- The server is a set of labelled steps over shared variables with sequentially consistent memory; a run is any
  sequence of enabled steps. A state carries bookkeeping (histories, counters, the place of each cell) that no
  step reads.
- `unsigned int` counters that can wrap are written with an explicit modulus; lengths are unbounded, but for the
  size of a piece that is hashed, which becomes an `int` of 32 bits.
- The alignment and the two structure sizes of the object stack are parameters. The code masks where the model
  takes a remainder, which is the same for the powers of two that an alignment is.

## Where the code differs from what is written about it

- `iks_tree` is documented to return NULL on an error. It returns the last finished top-level element, error or
  not: `DomHooks.NoTreeIff` says exactly when it returns NULL, `DomHooks.TreeInSpiteOfError` gives a family of
  strings with both.
- A CDATA section is to end at the first `]]>` (section 2.7 of XML 1.0). The parser ends it there exactly when the
  brackets in front of the `>` number 2 modulo 3; otherwise it takes the `]]>` for text and reads on inside the
  section: `SaxLaws.SameEndAsXmlIff`. `SaxLaws.SectionReadOn` and `DomHooks.SectionWithoutEnd` are such documents; the
  second is an element for which `iks_tree` reports neither an error nor a tree.
- Printing escapes attribute values, parsing does not take the escapes back, so print and parse give the same
  tree exactly for the trees of `RoundTrip.RereadIdentityIff`.
- A call of `iks_parse` that ends inside a multi-byte character of a name or value loses the part of the
  character that is in the next piece, and the tag hook is told the shorter string: `SaxCuts.BoundaryIsHarmlessIff`
  says exactly when a boundary is harmless, `SaxCuts.SplitDocument` is a document cut so. Boundaries between characters
  always are harmless, and those inside a character of a text, a comment or a section.
- `iks_sha_hash` takes a size and passes it on as an `int`: of a piece of 2^31 bytes or more not everything is
  hashed. `Sha.WholeMessageIff` says exactly when a message is hashed whole.
- `iks_insert_node` does not look whether the node is inserted below itself: `IksInsert.InsertNodeIsTreeIff` says
  exactly when the result is a tree.
- A first byte of a multi-byte character whose payload bits are all zero is refused, and so are characters of UTF-8 that
  start with 0xE0 or 0xF0: `SaxText.RefusedByte`.
- A multi-byte character is lost where a tag name starts and behind a `]` in a section: `SaxText.CharacterInName`,
  `SaxText.LostInSection`. `SaxText.MultiByteAnywhere` says what becomes of one in every context.
- The count of bytes still to be sent to a client is cleared neither when its connection is closed nor when the next one is
  accepted. So a connection is first sent what the one before it had left unsent: `OutFlow.LeftBytesFirst` says exactly how
  many bytes, and that there are none if and only if nothing was left; `OutFlow.BytesFromBefore` is such a run.
- A message without text that is loaded for sending is overwritten by the next one, and its cell is then in no place any
  more: `OutFlow.EmptyMessageIsLostIff`. The results about the pool are about messages with text.
- Two branches of the printer add an end tag at level 0 (`iks.c` lines 628 and 681); they are proved
  unreachable, because a node at level 0 is visited with direction 0 only and then has no children.

## Model

| member | source | states |
|---|---|---|
| Xml.RenderIsPrint | CuteCat/iksemel/iks.c:650-702 | writing the events of a tree one after the other, start tag, contents, end tag, is the recursive print |
| SaxMachine.StepSound | CuteCat/iksemel/sax.c:205-590 | every pass keeps the context invariants; a byte that is looked at again finds a context of lower rank, so the loop cannot stay on a byte |
| SaxMachine.Run | CuteCat/iksemel/sax.c:198-599 | the run over any input, measured by bytes left and rank, ends in a valid state |
| SaxLaws.RunConcat | CuteCat/iksemel/sax.c:198-599 | reading x and then y is reading x + y, unless x stops at an error |
| SaxLaws.RunSame | CuteCat/iksemel/sax.c:592-593 | the position mark that a call leaves behind a closing quote changes nothing that is ever reported |
| SaxLaws.ChunkIndependence | CuteCat/iksemel/sax.c:198-599 | for every input and every cut that splits no character of a name or a value the calls end with the same verdict, byte and line counts, tag events, attribute strings and text as one call |
| SaxLaws.CharacterCuts | CuteCat/iksemel/sax.c:209-243 | cuts between characters split none, in any state |
| SaxCuts.BoundaryIsHarmlessIff | CuteCat/iksemel/sax.c:237-241 | a call boundary leaves verdict, counts, tag events and text the same for every continuation if and only if it does not fall into a character that is being collected into a name or value |
| SaxCuts.SplitLosesBytes | CuteCat/iksemel/sax.c:237-241 | a boundary inside such a character: the tag hook is told the name or value without the rest of the character |
| SaxCuts.SplitDocument | CuteCat/iksemel/sax.c:237-241 | an element whose name is cut so, from the parser's start: one call reports the name, two calls half of its second character |
| SaxCuts.EndingTells | CuteCat/iksemel/sax.c:287-432 | from anywhere in a name or value, the shortest end of the tag reports what has been collected |
| SaxLaws.CdataSection | CuteCat/iksemel/sax.c:509-577 | from its opener on, a section ends at the first '>' behind a run of ']' of length 2 modulo 3, and exactly the bytes before the final "]]>" are delivered |
| SaxLaws.CdataSectionInPieces | CuteCat/iksemel/sax.c:509-577 | the same for every cut of opener and section into non-empty pieces |
| SaxLaws.SameEndAsXmlIff | CuteCat/iksemel/sax.c:542-577 | at the first "]]>" behind an opener the parser is back in text if and only if the brackets there number 2 modulo 3, with the content delivered; else it is still inside the section and has delivered the "]]>" as text; it never ends a section earlier |
| SaxLaws.SectionReadOn | CuteCat/iksemel/sax.c:557-577 | from the parser's start, a section with the content "]" does not end |
| Sax.Parser.constructor | CuteCat/iksemel/sax.c:75-87 | a new parser is at the machine's start |
| Sax.Parser.NewSize | CuteCat/iksemel/sax.c:148-154 | both growth rules make room for what did not fit |
| Sax.Parser.Expand | CuteCat/iksemel/sax.c:142-171 | the buffer moves with its contents; the tag name and each marked attribute address point to the same strings as before |
| Sax.Parser.Push | CuteCat/iksemel/sax.c:178-187 | bytes are appended to the string buffer, moved or not, and every finished string stays in place relative to its address |
| Sax.Parser.PushEnd | CuteCat/iksemel/sax.c:189-196 | the NUL fits and is appended |
| Sax.Parser.EndString | CuteCat/iksemel/sax.c:294-296 | the bytes marked in the caller's buffer and a NUL end the string being read |
| Sax.Parser.Flush | CuteCat/iksemel/sax.c:249-252 | the text passed over is delivered whole, nothing when there is none |
| Sax.Parser.TextByte | CuteCat/iksemel/sax.c:247-267 | refines the machine's step in text |
| Sax.Parser.TagStartByte | CuteCat/iksemel/sax.c:269-285 | refines the machine's step behind '<' |
| Sax.Parser.TagByte | CuteCat/iksemel/sax.c:287-317 | refines the machine's step in a tag name; the name is in memory when it ends |
| Sax.Parser.TagEndByte | CuteCat/iksemel/sax.c:319-333 | the tag hook gets exactly the machine's name, attributes and type |
| Sax.Parser.ReadAtts | CuteCat/iksemel/sax.c:322-324 | the NULL-ended list of addresses reads back as the attributes collected, in order |
| Sax.Parser.AttStartByte | CuteCat/iksemel/sax.c:335-368 | refines the machine's step at the start of an attribute |
| Sax.Parser.AttNameByte | CuteCat/iksemel/sax.c:370-379 | refines the machine's step in an attribute name |
| Sax.Parser.AttNextByte | CuteCat/iksemel/sax.c:381-396 | refines the machine's step behind an attribute; the list of addresses is ended |
| Sax.Parser.ValueStartByte | CuteCat/iksemel/sax.c:398-408 | refines the machine's step at the opening quote |
| Sax.Parser.ValueByte | CuteCat/iksemel/sax.c:410-432 | refines the machine's step in a value, with the mark set at the closing quote |
| Sax.Parser.WhitespaceByte | CuteCat/iksemel/sax.c:434-439 | refines the machine's step in white space |
| Sax.Parser.EntityByte | CuteCat/iksemel/sax.c:441-467 | refines the machine's step in an entity; its buffer of eight bytes is never overrun |
| Sax.Parser.MarkupByte | CuteCat/iksemel/sax.c:469-507 | refines the machine's step in comments and markup |
| Sax.Parser.SectionByte | CuteCat/iksemel/sax.c:542-577 | refines the machine's step in a CDATA section |
| Sax.Parser.LoopPass | CuteCat/iksemel/sax.c:205-590 | one pass keeps the relation to the machine, or reports the error the machine or a hook has, and makes progress |
| Sax.Parser.SaxCore | CuteCat/iksemel/sax.c:198-599 | the loop ends; verdict, counts and calls are the machine's, or a hook's refusal after a prefix of the machine's events |
| Sax.Parser.Parse | CuteCat/iksemel/sax.c:601-607 | a call of the parser is a run of the machine over its data |
| Sax.Parser.ParsePieces | CuteCat/iksemel/dom.c:129-149 | for any pieces verdict, counts and calls are those of the machine on the pieces, and those of the whole document in one piece unless a boundary splits a character of a name or value |
| Dom.BuildFlat | CuteCat/iksemel/dom.c:52-57 | how texts are cut does not change what the hooks build |
| Dom.BuildTree | CuteCat/iksemel/dom.c:16-57 | the events of a tree with distinct attribute names are accepted and rebuild it with adjacent texts joined and empty ones dropped |
| DomLaws.AcceptsIffNested | CuteCat/iksemel/dom.c:38-48 | the hooks accept a history if and only if every closing tag names the innermost open one |
| DomLaws.TreesSayHistory | CuteCat/iksemel/dom.c:16-57 | finished roots and open elements flatten back to the history: texts joined, single tags opened and closed, text outside a root gone |
| DomLaws.SingleRoot | CuteCat/iksemel/dom.c:16-57 | a nested history that ends at depth 0 after one root gives one tree, which flattens back to it |
| RoundTrip.RunPrint | CuteCat/iksemel/sax.c:198-599 | the parser reads the printed form of a tree as the events of the tree with its attribute values escaped |
| RoundTrip.RunWrittenTag | CuteCat/iksemel/sax.c:269-439 | an opening or single tag as a document writes it, with either quote around each value, any white space between its parts and none needed behind a value, delivers exactly its name, its attributes in order and its kind |
| SaxText.CloseWithBlanks | CuteCat/iksemel/sax.c:287-333 | a closing tag with any white space behind its name delivers the name |
| SaxText.TestDocument | CuteCat/temp/iksemel-1.3/iksemel-1.3/test/tst-sax.c:296-299 | a document of the parser's own test, with both quotes, delivers the events the test expects |
| SaxText.PlainText | CuteCat/iksemel/sax.c:247-267 | text without '&' and '<' is delivered as it is |
| SaxText.KnownEntities | CuteCat/iksemel/sax.c:441-467 | each of the five known entities is delivered as its character |
| SaxText.UnknownEntity | CuteCat/iksemel/sax.c:441-467 | any other of up to seven bytes is delivered as a question mark |
| SaxText.LongEntity | CuteCat/iksemel/sax.c:441-467 | a longer one is an error |
| SaxText.MultiByteAnywhere | CuteCat/iksemel/sax.c:209-243 | a whole multi-byte character in any context: text in a text or section, part of the name or value being read, else passed over; the context stays |
| SaxText.TextOfCharacters | CuteCat/iksemel/sax.c:209-267 | text of any characters, of one byte or several, but '&' and '<' is delivered as it is |
| SaxText.SectionOfCharacters | CuteCat/iksemel/sax.c:509-577 | a section of any characters but ']' delivers them and ends |
| SaxText.LostInSection | CuteCat/iksemel/sax.c:549-577 | a multi-byte character behind a ']' in a section is not delivered |
| SaxText.CharacterInName | CuteCat/iksemel/sax.c:237-241 | a multi-byte character in a tag name is part of the name reported if and only if it is not the first character |
| SaxText.WhiteSpaceIff | CuteCat/iksemel/sax.c:287-317 | exactly blank, tab, carriage return and line end behind a name end it; any other byte but '/' and '>' belongs to it |
| SaxText.RefusedByte | CuteCat/iksemel/sax.c:205-235 | between characters a NUL, a later byte, a first byte without payload bits and 0xFE, 0xFF are errors in every context |
| SaxText.CommentSkipped | CuteCat/iksemel/sax.c:469-493 | a comment without two hyphens in a row delivers nothing |
| SaxText.HyphensInComment | CuteCat/iksemel/sax.c:469-493 | two hyphens that do not end the comment are an error |
| SaxText.HalfOpenedComment | CuteCat/iksemel/sax.c:469-472 | so is a comment that opens with one hyphen |
| SaxText.InstructionSkipped | CuteCat/iksemel/sax.c:275-277 | a processing instruction ends at the first '>' and delivers nothing |
| SaxText.DeclarationSkipped | CuteCat/iksemel/sax.c:491-507 | so does a declaration |
| SaxText.NoQuote | CuteCat/iksemel/sax.c:398-408 | a value that does not start with a quote is an error |
| SaxText.SlashAlone | CuteCat/iksemel/sax.c:299-320 | a slash behind a name is an error unless '>' follows |
| SaxText.SlashInClosingTag | CuteCat/iksemel/sax.c:299-300 | so is a slash at the end of a closing tag |
| SaxText.OtherSection | CuteCat/iksemel/sax.c:509-540 | a wrong byte in the opener of a section is an error |
| SaxText.AllCounted | CuteCat/iksemel/sax.c:584-590 | without an error the counts grow by the bytes and the line ends of the input |
| SaxText.ErrorIsAt | CuteCat/iksemel/sax.c:584-590 | with one they stop in front of the first byte in error |
| RoundTrip.RoundTrip | CuteCat/iksemel/iks.c:580-707 | the printed string of every printable element with distinct attribute names is accepted by parser and DOM hooks and rebuilds it, adjacent texts joined, empty texts dropped, values in escaped form |
| RoundTrip.RereadIdentityIff | CuteCat/iksemel/iks.c:655-664 | print and parse return the very tree if and only if its values have nothing to escape, no text is empty and no two texts are adjacent |
| Iks.ChainDistinct | CuteCat/iksemel/iks.c:10-14 | inverse links with NULL ends never visit a node twice |
| Iks.Doc.NewWithin | CuteCat/iksemel/iks.c:69-86 | a new root; links stay sound |
| Iks.Doc.Insert | CuteCat/iksemel/iks.c:88-105 | a new last child; links stay sound, all other content is unchanged |
| Iks.Doc.InsertCdata | CuteCat/iksemel/iks.c:107-128 | text joins a last child that is text, else becomes a new last child |
| Iks.Doc.FindAttrib | CuteCat/iksemel/iks.c:137-141 | finds the first attribute with the name |
| Iks.Doc.InsertAttrib | CuteCat/iksemel/iks.c:130-171 | sets, overwrites or removes one attribute; names stay unique and links sound |
| Iks.AttribSetMeans | CuteCat/iksemel/iks.c:130-171 | on the sequence of attributes the call is: set in place, append, or remove |
| Iks.Doc.InsertNode | CuteCat/iksemel/iks.c:173-184 | a detached root becomes the last child; links stay sound, contents the same |
| IksInsert.InsertNodeIsTreeIff | CuteCat/iksemel/iks.c:173-184 | the result is a tree if and only if the tag is not in the tree of the inserted node; it is then the tag's tree with that tree as its last child |
| IksInsert.InsertTree | CuteCat/iksemel/iks.c:173-184 | the same for the call on linked nodes |
| IksInsert.RepresentsUnique | CuteCat/iksemel/iks.c:10-14 | a node stands for at most one tree |
| Iks.Doc.Append | CuteCat/iksemel/iks.c:186-206 | a new node behind a child, in the sequence of its siblings; the cdata variant is the same with a text node |
| Iks.Doc.Prepend | CuteCat/iksemel/iks.c:208-228 | a new node in front of a child; the cdata variant likewise |
| Iks.Doc.Hide | CuteCat/iksemel/iks.c:286-301 | the child leaves the sequence of its siblings; its own links, now stale, all stay, the others stay sound |
| IksWalk.GoDown | CuteCat/iksemel/iks.c:653-669 | going to the first child emits the start tag and leaves the rest to do |
| IksWalk.FinishLeaf | CuteCat/iksemel/iks.c:670-676 | a node without children is finished with one event |
| IksWalk.GoOver | CuteCat/iksemel/iks.c:678-690 | the next pointer leads to the next sibling on the way, nothing is emitted |
| IksWalk.GoBack | CuteCat/iksemel/iks.c:691-702 | without a next node the parent pointer leads back, and the end tag is due |
| IksString.EscapeSize | CuteCat/iksemel/iks.c:525-545 | the length of the escaped text |
| IksString.EscapeInto | CuteCat/iksemel/iks.c:555-578 | copying runs between special characters writes the escaped text |
| IksString.WriteHead | CuteCat/iksemel/iks.c:653-664 | writes the name and every attribute in order, values escaped |
| IksString.StringSize | CuteCat/iksemel/iks.c:600-640 | the first pass ends and computes the exact length of the recursive print, whatever siblings the tag has |
| IksString.WriteString | CuteCat/iksemel/iks.c:647-704 | the second pass writes exactly the recursive print |
| IksString.IksString | CuteCat/iksemel/iks.c:580-707 | the buffer has exactly the size of what is written and its NUL; a text at the top is returned as it is |
| SaxText.PrintedElement | CuteCat/iksemel/iks.c:650-702 | a printed element literally: apostrophes around values, escapes, a single tag where there is nothing inside |
| IksBuild.OpenElement | CuteCat/iksemel/dom.c:22-28 | a new element in the current one; finished subtrees, the other open elements and older nodes are undisturbed |
| IksBuild.AddCdata | CuteCat/iksemel/iks.c:107-128 | a text in the current element, undisturbed the rest |
| IksBuild.ElementClosed | CuteCat/iksemel/dom.c:38-43 | a finished element stands for its tree and is the last child of the element around it |
| IksCopy.CopyWithin | CuteCat/iksemel/iks.c:711-756 | the copy ends, uses new nodes only, also in the original's own stack, leaves the original untouched and stands for the same tree with adjacent texts joined; no sibling is copied |
| IksCopy.CopyPrintsSame | CuteCat/iksemel/iks.c:711-756 | a copy prints to the same string as the original |
| IksCopy.BuildCopy | CuteCat/iksemel/iks.c:719-755 | the events of a tree build its copy |
| IksCopy.RepresentedDistinct | CuteCat/iksemel/iks.c:130-171 | any tree that linked nodes stand for has distinct attribute names |
| DomHooks.DomData.OpenTag | CuteCat/iksemel/dom.c:21-37 | the linked nodes follow the specification when a tag opens |
| DomHooks.DomData.CloseTag | CuteCat/iksemel/dom.c:38-48 | a wrong or stray name is refused and changes nothing; else the element ends, a root is handed out |
| DomHooks.DomData.Call | CuteCat/iksemel/dom.c:16-57 | every call of the hooks has exactly the effect and the answer of the specification |
| DomHooks.IksTree | CuteCat/iksemel/dom.c:93-110 | the first error of parser or hooks, and the last root finished before it as linked nodes, for every string |
| DomHooks.IksLoad | CuteCat/iksemel/dom.c:112-158 | a file read in blocks gives the first error and the last finished root of the blocks, and those of the whole file in one string unless a block ends inside a character of a name or value, which never happens in an ASCII file |
| DomHooks.PrintAndRead | CuteCat/iksemel/dom.c:93-110 | from linked nodes to a string and back to linked nodes: no error, and the tree of the round trip |
| DomHooks.NoTreeIff | CuteCat/iksemel/dom.c:93-110 | NULL is returned if and only if no top-level element ends in front of the first byte in error and the first closing tag that does not name the innermost open tag |
| DomHooks.TreeInSpiteOfError | CuteCat/temp/iksemel-1.3/iksemel-1.3/doc/iksemel.texi:778-783 | an error and a tree together: a stray closing tag behind any printed element |
| DomHooks.SectionWithoutEnd | CuteCat/iksemel/sax.c:557-577 | neither an error nor a tree: an element with a section that is well-formed in XML 1.0 |
| Stream.HearLikeDom | CuteCat/iksemel/stream.c:264-327 | below the stream the hooks hand out exactly the finished top-level elements, in order |
| Stream.DeliveriesAre | CuteCat/iksemel/stream.c:306-315 | each of them with its tree: an error exactly when it is named "stream:error", a challenge exactly when it is named "challenge", else normal |
| Stream.AnyNameCloses | CuteCat/iksemel/stream.c:297-317 | a closing tag with any name ends the element, and at the top its name says what is handed out |
| Stream.Session | CuteCat/iksemel/stream.c:264-327 | a whole session is the start, one delivery for each top-level element in order, and the stop at the stream's own end |
| Stream.RootsOfTrees | CuteCat/iksemel/stream.c:264-327 | the finished top-level elements in the events of a list of trees are its elements, texts joined |
| Stream.PrintedSession | CuteCat/iksemel/stream.c:264-327 | the machine reads a printed stream without error, and in its events the hooks hear the start, every printed element once, in order, then the stop; text between elements is dropped |
| Stream.SessionKinds | CuteCat/iksemel/stream.c:264-327 | what a session hands out: one start, one delivery of the kind its name says for each element, one stop |
| Stream.ErrorSession | CuteCat/iksemel/stream.c:308-310 | a stream with a server's error, from its bytes: start, error, stop |
| Stream.StreamData.OpenTag | CuteCat/iksemel/stream.c:270-296 | the linked nodes follow the specification; the stream's own element is handed over at once |
| Stream.StreamData.CloseTag | CuteCat/iksemel/stream.c:297-317 | stop without an element, hand over at the top, else go to the parent |
| Stream.StreamData.Call | CuteCat/iksemel/stream.c:264-327 | every call has the effect and the answer of the specification, makes at most one delivery, and hands over its kind and the delivered tree |
| StreamParse.HearFlat | CuteCat/iksemel/stream.c:322-327 | how texts are cut does not change what the hooks build and hand out |
| StreamParse.Replay | CuteCat/iksemel/stream.c:264-327 | for any calls of the parser the state is that of the specification, and every delivery so far stands in nodes that the hooks do not touch again |
| StreamParse.Receive | CuteCat/iksemel/stream.c:484-511 | for any bytes in any pieces and any replies of the user's hook: the first error of parser or hooks and exactly the deliveries before it, those of the whole stream unless a boundary splits a character of a name or value |
| StreamParse.ReceiveSession | CuteCat/iksemel/stream.c:264-327 | a printed session in any pieces, through parser and hooks to linked nodes: no error, the start, every printed element once and in order, as an error or a challenge exactly when it is named so, the stop |
| CatRing.InitInv | CuteDog/cdogEar.c:803-824 | the set-up puts every cell into one free slot |
| CatRing.StepKeepsInv | CuteDog/cdogEar.c:680-702 | every step of either thread, one memory access each, keeps the ring invariant, for any size from three and any number of clients |
| CatRing.OnePlace | CuteDog/cdogEar.c:79-82 | in every reachable state, also in the middle of an operation, each cell is in exactly one place: one queued slot, one free slot, with one client, or on its way from a client to the queue |
| CatRing.PutOverwritesNothing | CuteDog/cdogEar.c:700-702 | the slot a put writes is never queued, free or being processed |
| CatRing.ProcessedCellIsApart | CuteDog/cdogEar.c:505-527 | the cell being processed is with no client and in no free slot |
| CatRing.TakeIsSafe | CuteDog/cdogEar.c:680-689 | a take hands out a cell that nobody has and that is not being processed |
| CatRing.ProcessedInPutOrder | CuteDog/cdogEar.c:505-527 | cells are processed in the order they are put, none skipped, none twice |
| CatRing.WaitsOnlyWhenNeeded | CuteDog/cdogEar.c:680-684 | a take is refused exactly when one free slot is left, and the processing thread waits exactly on an empty queue |
| Fifo.FifoRing.Push | CuteDog/fifo.c:76-93 | appends, or refuses exactly when length - 1 values wait |
| Fifo.FifoRing.Pop | CuteDog/fifo.c:60-74 | takes the oldest value, or refuses exactly when there is none |
| Fifo.FifoNew | CuteDog/fifo.c:42-58 | an empty ring, or NULL for a length below two |
| Fifo.StepKeepsInv | CuteDog/fifo.c:60-93 | check, write, publish and check, read, advance keep the ring invariant in any order |
| Fifo.OneProducerOneConsumer | CuteDog/fifo.c:60-93 | in every run the popped values are a prefix of the pushed ones, at most length - 1 wait, they are in order in the slots from the read to the write cursor, and the slot to be written is none of those, so not the one being read |
| Fifo.RefusedOnlyWhenNeeded | CuteDog/fifo.c:60-93 | in every run a push between calls is refused exactly when length - 1 values wait, a pop exactly when none does, and inside a call nothing stops a thread |
| OutCells.StepKeepsInv | CuteDog/cdogEar.c:38-51 | get, stamp, post, route, load, send, close and accept all keep conservation and the session invariant |
| OutCells.OnePlace | CuteDog/cdogEar.c:433-452 | in every reachable state each cell is in exactly one of free ring, ready ring, a producer, the sender's hand, one client |
| OutCells.NoPushFails | CuteDog/cdogEar.c:577-583 | no push whose result nobody looks at can ever fail |
| OutCells.CellsAreForTheSession | CuteDog/cdogEar.c:711-744 | what a client has waiting or is being sent is stamped with that client and its present session number, across closes and reconnects |
| OutCells.NothingFromBefore | CuteDog/cdogEar.c:570-601 | until the session counter wraps, no cell stamped before the present connection is waiting or the current message on it |
| OutOrder.SentInOrder | CuteDog/cdogEar.c:38-51 | in every reachable state between two routings, for every connection not being closed: the cells popped for it are those sent, then the one being sent, then those waiting, in order; nothing for a live session is dropped, doubled or overtaken |
| OutOrder.PostedInOrder | CuteDog/cdogEar.c:433-452 | until the session counter wraps the same from the posting on, with those still in the ready ring behind |
| OutOrder.NothingOlder | CuteDog/cdogEar.c:655 | until then no cell stamped before a connection was accepted waits for it or is its current message |
| OutOrder.StampedIsFor | CuteDog/cdogEar.c:433-441 | a cell stamped for a connected client is for its session |
| OutOrder.StaysFor | CuteDog/cdogEar.c:570-601 | and stays so until it is stamped again or the connection ends |
| OutOrder.SameRuns | CuteDog/cdogEar.c:433-452 | the records restrict no run: the runs are those of the pool |
| OutFlow.NeverStuck | CuteDog/cdogEar.c:565-760 | in every reachable state the sending thread can go on: route what is in its hand, finish a close that has begun, take the next ready message, close, accept, and for each client with something to send either load or send |
| OutFlow.LeftBytesFirst | CuteDog/cdogEar.c:711-744 | in every reachable state, for every connection not being closed: it has been sent foreign bytes first, up to as many as the connection before had left unsent, then only bytes of its own messages; none foreign if and only if nothing was left |
| OutFlow.LeftIsUnsent | CuteDog/cdogEar.c:570-601 | what is left is what was unsent when the close began, in every run from there to the next accept |
| OutFlow.BytesFromBefore | CuteDog/cdogEar.c:641-664 | a run in which a new connection is about to be sent three bytes of the old one |
| OutFlow.EmptyMessageIsLostIff | CuteDog/cdogEar.c:606-618 | a loaded message is overwritten by the next load, its cell lost, if and only if it has no text |
| List.Lists.Add | CuteDog/list.h:64-67 | a new first member; all lists stay circles and disjoint |
| List.Lists.AddTail | CuteDog/list.h:82-85 | a new last member |
| List.Lists.Del | CuteDog/list.h:117-122 | the member leaves its list and is in none |
| List.Lists.Move | CuteDog/list.h:150-154 | the member leaves its list and is the first of another |
| List.Lists.IsEmpty | CuteDog/list.h:183-186 | true exactly for a list without members |
| List.Lists.MoveClosed | CuteDog/cdogEar.c:567-601 | the safe pass visits each client at work once, in order; exactly the closed ones are moved to the free list, the others stay in order, and the two lists together hold the same clients |
| List.Lists.Accept | CuteDog/cdogEar.c:643-664 | the first free client, if there is one, goes to the front of the work list; the two lists together hold the same clients |
| List.Lists.Clients | CuteDog/cdogEar.c:825-834 | the set-up: every client is in the free list, once, the last one first |
| List.Serve | CuteDog/cdogEar.c:559-669 | from the set-up on, after any turns of the thread: each client is on exactly one of the two lists, once |
| List.NobodyLost | CuteDog/cdogEar.c:567-601 | the clients that stay and those that are moved are together the clients visited, none twice |
| IkStack.FindSpace | CuteCat/iksemel/ikstack.c:31-52 | the first chunk with room, or a new one at least twice the last |
| IkStack.Stack.constructor | CuteCat/iksemel/ikstack.c:54-80 | two empty chunks, large enough, at least eight units, aligned, no larger than that needs |
| IkStack.Stack.Alloc | CuteCat/iksemel/ikstack.c:82-96 | a new aligned block, large enough, at least one unit, no larger than that needs; the contents of earlier blocks stay |
| IkStack.Stack.Strdup | CuteCat/iksemel/ikstack.c:98-115 | a new string with its NUL; no other changes |
| IkStack.Stack.Strcat | CuteCat/iksemel/ikstack.c:117-163 | on all paths old text then new text; in place exactly when it is the last string of its chunk and there is room; no other string changes |
| IkStack.Stack.Stat | CuteCat/iksemel/ikstack.c:165-182 | allocated is the size of the stack and of all chunks with their headers; used is exactly the bytes of the blocks and of the strings with their NULs that have been handed out |
| IkStack.RunOps | CuteCat/iksemel/ikstack.c:82-163 | after any sequence of alloc, strdup and strcat every variable of the caller reads as what was copied and appended to it, all strings and blocks are inside their chunks and pairwise apart, blocks aligned and of their size |
| IkStack.ChunksDouble | CuteCat/iksemel/ikstack.c:38-48 | the k-th chunk is at least 2^k times the first |
| Sha.SameChoice | CuteCat/iksemel/sha.c:142 | the rewritten choice function is the one of section 5 of RFC 3174 |
| Sha.SameMajority | CuteCat/iksemel/sha.c:144 | the rewritten majority function is the one of section 5 of RFC 3174 |
| Sha.Expand | CuteCat/iksemel/sha.c:133-134 | the schedule computed in place is W of section 6.1 |
| Sha.ShaRounds | CuteCat/iksemel/sha.c:117-125 | the macro's loop does the rounds of section 6.1 with the functions as rewritten |
| Sha.Calculate | CuteCat/iksemel/sha.c:127-152 | one call is one block of section 6.1 of RFC 3174 |
| Sha.FilledPush | CuteCat/iksemel/sha.c:104-106 | bytes shifted into words that are never cleared push out all that was there |
| Sha.CountMore | CuteCat/iksemel/sha.c:111-112 | the two length words carry like one 64-bit number |
| Sha.Sha.Push | CuteCat/iksemel/sha.c:99-114 | feeding bytes keeps: whole blocks hashed, the rest in the buffer, the length exact; a negative length feeds nothing |
| Sha.Sha.Finish | CuteCat/iksemel/sha.c:50-67 | the padding loop ends, adds the fewest zeros, and the words are the digest of section 4 and 6.1 |
| Sha.Sha.Hash | CuteCat/iksemel/sha.c:42-68 | of a piece is fed what its size leaves as an int; a finishing call gives the digest of everything fed |
| Sha.WholeMessageIff | CuteCat/iksemel/sha.c:47 | a message is fed whole if and only if every piece of it is below 2^31 bytes |
| Sha.HashPieces | CuteCat/iksemel/sha.c:42-68 | for every message below 2^61 bytes and every cut into pieces below 2^31 bytes the result is the RFC 3174 digest of the whole; for larger pieces it is the digest of what is fed of them |
| Sha1Vectors.AbcDigest | CuteCat/temp/iksemel-1.3/iksemel-1.3/test/tst-sha.c:19 | the digest that the results above are about is the published one on "abc" |
| Sha1Vectors.LongDigest | CuteCat/temp/iksemel-1.3/iksemel-1.3/test/tst-sha.c:20-21 | and on the published message of two blocks |
| Base64.Base64Encode | CuteDog/cdogBase64.c:66-104 | the output is that of section 4 of RFC 4648, inside len * 8 / 6 + 4 bytes |
| Base64.Base64Decode | CuteDog/cdogBase64.c:15-63 | for any string, writes stay inside strlen * 6 / 8 + 1 bytes and leave the whole bytes and a NUL |
| Base64.DecodeEncode | CuteDog/cdogBase64.c:15-104 | decoding an encoding gives the bytes and zeros up to a multiple of three |
| Base64.EncodeAndDecode | CuteDog/cdogBase64.c:15-104 | the same for the two functions one after the other |
| Base64.EncodeLength | CuteDog/cdogBase64.c:72 | the encoding and its NUL fit the size that is allocated |
| Base64.AlphabetOrder | CuteDog/cdogBase64.c:11-12 | the letters are in the order of table 1 of RFC 4648 |
| Base64.Examples | CuteDog/cdogBase64.c:66-104 | published examples with a last group of every length |
| Base64.DecodedExamples | CuteDog/cdogBase64.c:15-63 | a whole group decoded, and groups with letters missing |
| Base64.OtherCharacter | CuteDog/cdogBase64.c:38-39 | a character that is no letter counts like the first |
| Filter.Filter.AddRule | CuteCat/iksemel/filter.c:41-90 | the newest rule is last on the linked list, and its flags and fields stand for the criteria given; the others are unchanged |
| Filter.Filter.RemoveRule | CuteCat/iksemel/filter.c:92-100 | the links of the neighbours, or the ends of the list, pass the rule by: the list is doubly linked and holds the other rules, in order |
| Filter.Filter.RemoveHook | CuteCat/iksemel/filter.c:102-113 | the loop over the links with the saved next rule takes out exactly the rules with the hook; the others keep their order |
| FilterRules.ScoreRule | CuteCat/iksemel/filter.c:125-146 | the sum of the weights when all criteria are met, else 0 |
| FilterRules.SenderForms | CuteCat/iksemel/filter.c:137-142 | FROM wants the sender with its resource, FROM_PARTIAL the sender without it |
| FilterRules.CriteriaForms | CuteCat/iksemel/filter.c:125-142 | each criterion looks at its own part of the packet |
| FilterRules.ScoreIsLexicographic | CuteCat/iksemel/filter.c:125-142 | a higher score means: ahead lexicographically on id, from, namespace, subtype, type; equal scores mean equal levels |
| FilterRules.DispatchedIsHooksRun | CuteCat/iksemel/filter.c:115-167 | the order of the scores is the order of the criteria: matching rules with a criterion, each ahead of the next on id, from, namespace, subtype and type or level and older |
| Filter.Filter.Dispatch | CuteCat/iksemel/filter.c:115-167 | the loops over the links end; hooks run for exactly the matching rules with a criterion, each once, by id, from, namespace, subtype and type, then by age, up to the first that eats the packet; the list is as before |
| FilterRules.DispatchedIsUnique | CuteCat/iksemel/filter.c:115-167 | that description fixes the sequence of hooks completely |

## Left out

- Allocation failure: every allocation succeeds, at an address that is not chosen by the model.
- The capacity of the array of attribute addresses: it is a sequence that grows by one when needed.
- Absent hooks (NULL function pointers): a parser always has both hooks.
- Lengths given as 0 to mean "use strlen": a length is that of the text it belongs to.
- Overflow of lengths and of byte and line counters.
- Names and texts with a NUL inside.
- `memcpy` and the moves of chunks and buffers are assignments of sequences; overlap cannot arise.
- Comparison of an entity's name with the five known ones is equality of strings up to the NUL.
- iks_parser_reset, iks_parser_delete, the delete hooks and the return of memory.
- Trees across several object stacks: a tree's nodes are in one stack, except that a copy may be in another.
- The object stack below nodes and strings of a tree: nodes have texts as values; `IkStack.dfy` models the stack by itself.
- iks_find, iks_find_cdata, iks_find_attrib and the traversal helpers: short reads of the links.
- TLS, SASL replies, sockets and the rest of `stream.c`: a challenge is recorded and answered elsewhere.
- DomHooks.IksLoad: the file cannot be opened, or a read fails; its contents are given.
- StreamParse.Receive: select, timeouts and the socket; the pieces are given. An empty piece, which the caller never passes on, is read as nothing.
- DomHooks.IksTree: the parser's calls are recorded and then replayed to the hooks, which meet only through calls and answers; so too in DomHooks.IksLoad and StreamParse.Receive.
- IkStack.RunOps: what a caller writes into its blocks.
- Filter.Filter.RemoveRule: the memory of a removed rule is not reused.
- The contents of incoming cells, session numbers in them, and what processing a message does.
- OutCells.OnePlace: giving back a closed client's list is one step for each cell, without the links that the list still has until it is reset.
- OutOrder.SentInOrder, OutOrder.PostedInOrder: messages with text; `OutFlow.EmptyMessageIsLostIff` is about one without.
- Rings used by several unsynchronised pushing or popping threads; that every thread of the pool gets its turn.
- iks_sha_print, iks_sha_delete, iks_filter_delete and iks_stack_delete.
- `md5.c`, the sniffer, the clients with a user interface, command dispatch and packet construction.

/** ikstack.c: an arena with one list of chunks for nodes and one for strings. A pointer is a chunk's
    place in its list and an offset. */
module IkStack {
  import opened Slots
  import opened Xml

  datatype Ptr = Ptr(chunk: nat, offset: nat)

  /** struct ikschunk_struct; `last` is the offset of the last string, or -1. */
  datatype Chunk = Chunk(size: nat, used: nat, last: int, mem: string)
  {
    predicate Valid() {
      |mem| == size && used <= size && -1 <= last < used + 1
    }

    function Room(): nat
      requires Valid()
    {
      size - used
    }

    /** memcpy to offset `at`. */
    function Write(at: nat, s: string): Chunk
      requires Valid() && at + |s| <= size
    {
      this.(mem := mem[..at] + s + mem[at + |s|..])
    }
  }

  predicate ValidChunks(chunks: seq<Chunk>) {
    chunks != [] && forall i :: 0 <= i < |chunks| ==> chunks[i].Valid()
  }

  /** Each chunk is at least twice as large as the one before. */
  predicate Doubling(chunks: seq<Chunk>) {
    forall i :: 0 <= i < |chunks| - 1 ==> chunks[i + 1].size >= 2 * chunks[i].size
  }

  // ----- find_space

  /** c is the first chunk with room; it is new when there was none. */
  predicate SpaceFound(before: seq<Chunk>, size: nat, after: seq<Chunk>, c: nat)
    requires ValidChunks(before)
  {
    && (forall i :: 0 <= i < c && i < |before| ==> before[i].Room() < size)
    && if c < |before| then after == before && before[c].Room() >= size
       else
         && c == |before| && |after| == c + 1 && after[..c] == before
         && var new_ := after[c];
            new_.Valid() && new_.used == 0 && new_.last == -1 && new_.size >= size
            && new_.size == (if 2 * before[c - 1].size > size then 2 * before[c - 1].size else size)
  }

  method FindSpace(chunks: seq<Chunk>, size: nat) returns (after: seq<Chunk>, c: nat, grown: nat)
    requires ValidChunks(chunks)
    ensures SpaceFound(chunks, size, after, c)
    ensures grown == if c < |chunks| then 0 else after[c].size
  {
    c, after, grown := 0, chunks, 0;
    while true
      invariant c < |chunks| && after == chunks && forall i :: 0 <= i < c ==> chunks[i].Room() < size
      decreases |chunks| - c
    {
      if chunks[c].size - chunks[c].used >= size {
        return;
      }
      if c + 1 == |chunks| {
        grown := if chunks[c].size * 2 > size then chunks[c].size * 2 else size;
        var mem := seq(grown, i => '\0');  // malloc gives anything
        after := chunks + [Chunk(grown, 0, -1, mem)];
        c := c + 1;
        return;
      }
      c := c + 1;
    }
  }

  lemma NothingUsed(before: seq<Chunk>, size: nat, after: seq<Chunk>, c: nat)
    requires ValidChunks(before) && SpaceFound(before, size, after, c)
    ensures forall i :: |before| <= i < |after| ==> after[i].used == 0 && after[i].last == -1
  {
  }

  lemma SpaceKeeps(before: seq<Chunk>, size: nat, after: seq<Chunk>, c: nat)
    requires ValidChunks(before) && Doubling(before) && SpaceFound(before, size, after, c)
    ensures ValidChunks(after) && Doubling(after) && c < |after| && after[c].Room() >= size
    ensures |before| <= |after| && forall i :: 0 <= i < |before| ==> after[i] == before[i]
  {
    forall i | 0 <= i < |before|
      ensures after[i] == before[i]
    {
      assert c == |before| ==> after[..c][i] == before[i];
    }
  }

  // ----- strings

  /** A string handed out, with what it is now. */
  datatype Str = Str(at: Ptr, text: string)

  /** The string is in its chunk, with its NUL, below what is used. */
  ghost predicate StrIn(chunks: seq<Chunk>, s: Str) {
    && s.at.chunk < |chunks| && chunks[s.at.chunk].Valid()
    && var c, lo, hi := chunks[s.at.chunk], s.at.offset, s.at.offset + |s.text|;
       hi < c.used && c.mem[lo..hi] == s.text && c.mem[hi] == '\0'
  }

  predicate Apart(s: Str, t: Str) {
    s.at.chunk == t.at.chunk ==>
      s.at.offset + |s.text| < t.at.offset || t.at.offset + |t.text| < s.at.offset
  }

  /** The last string of a chunk ends where the used part ends. */
  ghost predicate LastOk(chunks: seq<Chunk>, strs: seq<Str>, c: nat)
    requires c < |chunks|
  {
    chunks[c].last != -1 ==>
      exists i :: 0 <= i < |strs| && EndsChunk(chunks[c], strs[i], c)
  }

  predicate EndsChunk(chunk: Chunk, s: Str, c: nat) {
    s.at == Ptr(c, s.at.offset) && s.at.offset == chunk.last && chunk.last + |s.text| + 1 == chunk.used
  }

  ghost predicate StringsOk(chunks: seq<Chunk>, strs: seq<Str>) {
    && (forall i :: 0 <= i < |strs| ==> StrIn(chunks, strs[i]))
    && (forall i, j :: 0 <= i < j < |strs| ==> Apart(strs[i], strs[j]))
    && (forall c :: 0 <= c < |chunks| ==> LastOk(chunks, strs, c))
  }

  /** A new string at the end of the used part of chunk c. */
  function Added(chunk: Chunk, text: string): Chunk
    requires chunk.Valid() && chunk.Room() > |text|
  {
    chunk.Write(chunk.used, text + "\0").(last := chunk.used, used := chunk.used + |text| + 1)
  }

  lemma AddedValid(chunk: Chunk, text: string)
    requires chunk.Valid() && chunk.Room() > |text|
    ensures var a := Added(chunk, text);
      && a.Valid() && a.size == chunk.size && a.mem[..chunk.used] == chunk.mem[..chunk.used]
      && a.mem[chunk.used..chunk.used + |text|] == text && a.mem[chunk.used + |text|] == '\0'
  {
    var a := Added(chunk, text);
    assert a.mem[chunk.used..chunk.used + |text| + 1] == text + "\0";
  }

  /** What was in a chunk below `used` is still there. */
  lemma StrInKept(chunks: seq<Chunk>, after: seq<Chunk>, s: Str)
    requires StrIn(chunks, s) && |chunks| <= |after|
    requires var c := s.at.chunk;
      after[c].Valid() && chunks[c].used <= after[c].used && after[c].size == chunks[c].size
      && after[c].mem[..chunks[c].used] == chunks[c].mem[..chunks[c].used]
    ensures StrIn(after, s)
  {
    var c := s.at.chunk;
    var lo, hi := s.at.offset, s.at.offset + |s.text|;
    assert after[c].mem[lo..hi] == after[c].mem[..chunks[c].used][lo..hi];
    assert after[c].mem[hi] == after[c].mem[..chunks[c].used][hi];
  }

  /** A new string disturbs none of the others. */
  lemma AddString(chunks: seq<Chunk>, strs: seq<Str>, c: nat, text: string)
    requires ValidChunks(chunks) && StringsOk(chunks, strs) && c < |chunks| && chunks[c].Room() > |text|
    ensures var after, s := chunks[c := Added(chunks[c], text)], Str(Ptr(c, chunks[c].used), text);
      ValidChunks(after) && StringsOk(after, strs + [s])
  {
    hide Added;
    AddedValid(chunks[c], text);
    var after, s := chunks[c := Added(chunks[c], text)], Str(Ptr(c, chunks[c].used), text);
    var more := strs + [s];
    AddedUsed(chunks[c], text);
    forall i | 0 <= i < |strs|
      ensures StrIn(after, strs[i]) && Apart(strs[i], s)
    {
      StrInKept(chunks, after, strs[i]);
    }
    forall k | 0 <= k < |after|
      ensures LastOk(after, more, k)
    {
      if k == c {
        assert EndsChunk(after[c], more[|strs|], c);
      } else if chunks[k].last != -1 {
        assert LastOk(chunks, strs, k);
        var i :| 0 <= i < |strs| && EndsChunk(chunks[k], strs[i], k);
        assert EndsChunk(after[k], more[i], k);
      }
    }
  }

  lemma AddedUsed(chunk: Chunk, text: string)
    requires chunk.Valid() && chunk.Room() > |text|
    ensures Added(chunk, text).used == chunk.used + |text| + 1 && Added(chunk, text).last == chunk.used
  {
  }

  /** The last string of a chunk grows in place. */
  function Extended(chunk: Chunk, n: nat, src: string): Chunk
    requires chunk.Valid() && chunk.last >= 0 && chunk.last + n + 1 == chunk.used && chunk.Room() >= |src|
  {
    chunk.Write(chunk.last + n, src + "\0").(used := chunk.used + |src|)
  }

  lemma ExtendedValid(chunk: Chunk, old_: string, src: string)
    requires chunk.Valid() && chunk.last >= 0 && chunk.last + |old_| + 1 == chunk.used && chunk.Room() >= |src|
    requires chunk.mem[chunk.last..chunk.last + |old_|] == old_
    ensures var e, hi := Extended(chunk, |old_|, src), chunk.last + |old_| + |src|;
      && e.Valid() && e.size == chunk.size && e.last == chunk.last && e.used == hi + 1
      && e.mem[..chunk.last] == chunk.mem[..chunk.last]
      && e.mem[chunk.last..hi] == old_ + src && e.mem[hi] == '\0'
  {
    var e, at := Extended(chunk, |old_|, src), chunk.last + |old_|;
    assert e.mem[at..at + |src| + 1] == src + "\0";
    assert e.mem[chunk.last..at] == chunk.mem[chunk.last..at];
    assert e.mem[chunk.last..at + |src|] == e.mem[chunk.last..at] + e.mem[at..at + |src|];
  }

  lemma ExtendString(chunks: seq<Chunk>, strs: seq<Str>, j: nat, src: string)
    requires ValidChunks(chunks) && StringsOk(chunks, strs) && j < |strs|
    requires strs[j].at.offset == chunks[strs[j].at.chunk].last && chunks[strs[j].at.chunk].Room() >= |src|
    ensures var c, s := strs[j].at.chunk, strs[j];
      && chunks[c].last + |s.text| + 1 == chunks[c].used
      && var after := chunks[c := Extended(chunks[c], |s.text|, src)];
         ValidChunks(after) && StringsOk(after, strs[j := Str(s.at, s.text + src)])
  {
    hide Extended;
    var c, s := strs[j].at.chunk, strs[j];
    LastIsThis(chunks, strs, j);
    assert StrIn(chunks, s);
    ExtendedValid(chunks[c], s.text, src);
    var after, more := chunks[c := Extended(chunks[c], |s.text|, src)], strs[j := Str(s.at, s.text + src)];
    forall i | 0 <= i < |strs|
      ensures StrIn(after, more[i])
      ensures i != j ==> Apart(more[i], more[j])
    {
      assert StrIn(chunks, strs[i]);
      if i != j {
        BelowLast(chunks, strs, i, j);
        if strs[i].at.chunk == c {
          StrInBelow(chunks, after, strs[i]);
        } else {
          StrInKept(chunks, after, strs[i]);
        }
      }
    }
    forall k | 0 <= k < |after|
      ensures LastOk(after, more, k)
    {
      if k == c {
        assert EndsChunk(after[c], more[j], c);
      } else if chunks[k].last != -1 {
        assert LastOk(chunks, strs, k);
        var i :| 0 <= i < |strs| && EndsChunk(chunks[k], strs[i], k);
        assert EndsChunk(after[k], more[i], k);
      }
    }
  }

  /** A string at the offset `last` is the one that ends the chunk. */
  lemma LastIsThis(chunks: seq<Chunk>, strs: seq<Str>, j: nat)
    requires StringsOk(chunks, strs) && j < |strs| && StrIn(chunks, strs[j])
    requires strs[j].at.offset == chunks[strs[j].at.chunk].last
    ensures EndsChunk(chunks[strs[j].at.chunk], strs[j], strs[j].at.chunk)
  {
    var c := strs[j].at.chunk;
    assert LastOk(chunks, strs, c);
    var i :| 0 <= i < |strs| && EndsChunk(chunks[c], strs[i], c);
  }

  /** The others in that chunk lie below it. */
  lemma BelowLast(chunks: seq<Chunk>, strs: seq<Str>, i: nat, j: nat)
    requires StringsOk(chunks, strs) && i < |strs| && j < |strs| && i != j
    requires StrIn(chunks, strs[i]) && EndsChunk(chunks[strs[j].at.chunk], strs[j], strs[j].at.chunk)
    ensures strs[i].at.chunk == strs[j].at.chunk ==> strs[i].at.offset + |strs[i].text| < strs[j].at.offset
  {
    assert if i < j then Apart(strs[i], strs[j]) else Apart(strs[j], strs[i]);
  }

  lemma StrInBelow(chunks: seq<Chunk>, after: seq<Chunk>, s: Str)
    requires StrIn(chunks, s) && |chunks| <= |after| && after[s.at.chunk].Valid()
    requires var c, last := s.at.chunk, chunks[s.at.chunk].last;
      0 <= last <= chunks[c].used && s.at.offset + |s.text| < last <= after[c].used && after[c].mem[..last] == chunks[c].mem[..last]
    ensures StrIn(after, s)
  {
    var c, last := s.at.chunk, chunks[s.at.chunk].last;
    var lo, hi := s.at.offset, s.at.offset + |s.text|;
    assert after[c].mem[lo..hi] == after[c].mem[..last][lo..hi];
    assert chunks[c].mem[lo..hi] == chunks[c].mem[..last][lo..hi];
    assert after[c].mem[hi] == after[c].mem[..last][hi] == chunks[c].mem[..last][hi];
  }

  // ----- blocks for nodes

  /** What the sizes depend on: the offset of a double behind a char, sizeof (ikstack), sizeof (ikschunk). */
  datatype Target = Target(alignment: nat, stackSize: nat, header: nat)
  {
    predicate Valid() {
      alignment > 0
    }
  }

  /** ALIGN, on sizes that are not aligned. */
  function Aligned(size: nat, align: nat): (a: nat)
    requires align > 0
    ensures size <= a < size + align && a % align == 0
  {
    if size % align != 0 then
      RoundedUp(size, align);
      size + (align - size % align)
    else size
  }

  lemma RoundedUp(n: nat, align: nat)
    requires align > 0
    ensures (n + (align - n % align)) % align == 0
  {
    assert n + (align - n % align) == (n / align + 1) * align;
    Multiple(n / align + 1, align);
  }

  lemma Multiple(q: nat, align: nat)
    requires align > 0
    ensures q * align % align == 0
  {
    SlotIs(q * align, align, q, 0);
  }

  lemma AlignedSum(x: nat, y: nat, align: nat)
    requires align > 0 && x % align == 0 && y % align == 0
    ensures (x + y) % align == 0
  {
    assert x + y == (x / align + y / align) * align;
    Multiple(x / align + y / align, align);
  }

  function AtLeast(size: nat, min: nat): nat {
    if size < min then min else size
  }

  /** The size of a block, and of the first chunks. */
  function BlockSize(size: nat, align: nat): nat
    requires align > 0
  {
    Aligned(AtLeast(size, align), align)
  }

  function ChunkSize(size: nat, align: nat): nat
    requires align > 0
  {
    Aligned(AtLeast(size, 8 * align), align)
  }

  /** What a first chunk's size is to be: at least what is asked for and eight units, aligned, and no larger than that needs. */
  predicate RightSize(asked: nat, align: nat, size: nat)
    requires align > 0
  {
    size % align == 0 && asked <= size && 8 * align <= size && (size < asked + align || size == 8 * align)
  }

  lemma SizesRight(size: nat, align: nat)
    requires align > 0
    ensures RightSize(size, align, ChunkSize(size, align))
    ensures size < align ==> BlockSize(size, align) == align
  {
    hide Aligned;
    Multiple(8, align);
    AlignedStays(8 * align, align);
    Multiple(1, align);
    AlignedStays(align, align);
  }

  lemma AlignedStays(size: nat, align: nat)
    requires align > 0 && size % align == 0
    ensures Aligned(size, align) == size
  {
  }

  datatype Block = Block(at: Ptr, size: nat)

  predicate BlockIn(chunks: seq<Chunk>, b: Block, align: nat)
    requires align > 0
  {
    && b.at.chunk < |chunks| && b.at.offset % align == 0
    && b.at.offset + b.size <= chunks[b.at.chunk].used <= chunks[b.at.chunk].size
  }

  predicate BlocksApart(a: Block, b: Block) {
    a.at.chunk == b.at.chunk ==> a.at.offset + a.size <= b.at.offset || b.at.offset + b.size <= a.at.offset
  }

  ghost predicate BlocksOk(chunks: seq<Chunk>, blocks: seq<Block>, align: nat)
    requires align > 0
  {
    && (forall i :: 0 <= i < |chunks| ==> chunks[i].used % align == 0)
    && (forall i :: 0 <= i < |blocks| ==> BlockIn(chunks, blocks[i], align))
    && (forall i, j :: 0 <= i < j < |blocks| ==> BlocksApart(blocks[i], blocks[j]))
  }

  lemma AddBlock(chunks: seq<Chunk>, blocks: seq<Block>, c: nat, size: nat, align: nat)
    requires align > 0 && ValidChunks(chunks) && BlocksOk(chunks, blocks, align) && c < |chunks| && chunks[c].Room() >= size
    requires size % align == 0
    ensures var after, b := chunks[c := chunks[c].(used := chunks[c].used + size)], Block(Ptr(c, chunks[c].used), size);
      ValidChunks(after) && BlocksOk(after, blocks + [b], align)
  {
    hide BlockIn;
    var after, b := chunks[c := chunks[c].(used := chunks[c].used + size)], Block(Ptr(c, chunks[c].used), size);
    AlignedSum(chunks[c].used, size, align);
    NewBlockIn(chunks, c, size, align);
    forall i | 0 <= i < |blocks|
      ensures BlockIn(after, blocks[i], align) && BlocksApart(blocks[i], b)
    {
      OldBlockIn(chunks, blocks[i], c, size, align);
    }
  }

  lemma NewBlockIn(chunks: seq<Chunk>, c: nat, size: nat, align: nat)
    requires align > 0 && ValidChunks(chunks) && c < |chunks| && chunks[c].Room() >= size && chunks[c].used % align == 0
    ensures BlockIn(chunks[c := chunks[c].(used := chunks[c].used + size)], Block(Ptr(c, chunks[c].used), size), align)
  {
  }

  lemma OldBlockIn(chunks: seq<Chunk>, b: Block, c: nat, size: nat, align: nat)
    requires align > 0 && BlockIn(chunks, b, align) && c < |chunks| && chunks[c].Valid() && chunks[c].Room() >= size
    ensures BlockIn(chunks[c := chunks[c].(used := chunks[c].used + size)], b, align)
    ensures BlocksApart(b, Block(Ptr(c, chunks[c].used), size))
  {
  }

  lemma BlocksGrow(chunks: seq<Chunk>, after: seq<Chunk>, blocks: seq<Block>, align: nat)
    requires align > 0 && BlocksOk(chunks, blocks, align) && |chunks| <= |after|
    requires forall i :: 0 <= i < |chunks| ==> after[i] == chunks[i]
    requires forall i :: |chunks| <= i < |after| ==> after[i].used == 0
    ensures BlocksOk(after, blocks, align)
  {
    forall i | 0 <= i < |blocks|
      ensures BlockIn(after, blocks[i], align)
    {
      assert BlockIn(chunks, blocks[i], align);
    }
  }

  lemma StringsGrow(chunks: seq<Chunk>, after: seq<Chunk>, strs: seq<Str>)
    requires StringsOk(chunks, strs) && |chunks| <= |after|
    requires forall i :: 0 <= i < |chunks| ==> after[i] == chunks[i]
    requires forall i :: |chunks| <= i < |after| ==> after[i].last == -1
    ensures StringsOk(after, strs)
  {
    forall i | 0 <= i < |strs|
      ensures StrIn(after, strs[i])
    {
      assert StrIn(chunks, strs[i]);
    }
    forall k | 0 <= k < |after|
      ensures LastOk(after, strs, k)
    {
      if k < |chunks| {
        assert LastOk(chunks, strs, k);
      }
    }
  }

  function Used(chunks: seq<Chunk>): nat {
    if chunks == [] then 0 else chunks[0].used + Used(chunks[1..])
  }

  // ----- what is allocated

  /** The bytes that a list of chunks takes, with their headers. */
  function Footprint(chunks: seq<Chunk>, header: nat): nat {
    if chunks == [] then 0 else header + chunks[0].size + Footprint(chunks[1..], header)
  }

  lemma {:induction false} FootprintMore(chunks: seq<Chunk>, chunk: Chunk, header: nat)
    ensures Footprint(chunks + [chunk], header) == Footprint(chunks, header) + header + chunk.size
  {
    if chunks == [] {
      assert [chunk][1..] == [];
    } else {
      assert (chunks + [chunk])[1..] == chunks[1..] + [chunk];
      FootprintMore(chunks[1..], chunk, header);
    }
  }

  lemma {:induction false} FootprintSame(chunks: seq<Chunk>, c: nat, chunk: Chunk, header: nat)
    requires c < |chunks| && chunk.size == chunks[c].size
    ensures Footprint(chunks[c := chunk], header) == Footprint(chunks, header)
  {
    if c > 0 {
      assert chunks[c := chunk][1..] == chunks[1..][c - 1 := chunk];
      FootprintSame(chunks[1..], c - 1, chunk, header);
    } else {
      assert chunks[c := chunk][1..] == chunks[1..];
    }
  }

  /** The new chunk is what a list takes more; a chunk whose use changes takes no more. */
  lemma FootprintGrown(before: seq<Chunk>, size: nat, after: seq<Chunk>, c: nat, chunk: Chunk, header: nat)
    requires ValidChunks(before) && SpaceFound(before, size, after, c) && c < |after| && chunk.size == after[c].size
    ensures Footprint(after[c := chunk], header)
         == Footprint(before, header) + if c < |before| then 0 else header + after[c].size
  {
    hide ValidChunks;
    FootprintSame(after, c, chunk, header);
    if c == |before| {
      assert after == before + [after[c]];
      FootprintMore(before, after[c], header);
    }
  }

  lemma FootprintOne(chunk: Chunk, header: nat)
    ensures Footprint([chunk], header) == header + chunk.size
  {
    assert [chunk][1..] == [];
  }

  lemma {:induction false} UsedMore(chunks: seq<Chunk>, chunk: Chunk)
    ensures Used(chunks + [chunk]) == Used(chunks) + chunk.used
  {
    if chunks == [] {
      assert [chunk][1..] == [];
    } else {
      assert (chunks + [chunk])[1..] == chunks[1..] + [chunk];
      UsedMore(chunks[1..], chunk);
    }
  }

  lemma UsedOne(chunk: Chunk)
    ensures Used([chunk]) == chunk.used
  {
    assert [chunk][1..] == [];
  }

  lemma {:induction false} UsedUpdate(chunks: seq<Chunk>, c: nat, chunk: Chunk)
    requires c < |chunks|
    ensures Used(chunks[c := chunk]) + chunks[c].used == Used(chunks) + chunk.used
  {
    if c > 0 {
      assert chunks[c := chunk][1..] == chunks[1..][c - 1 := chunk];
      UsedUpdate(chunks[1..], c - 1, chunk);
    } else {
      assert chunks[c := chunk][1..] == chunks[1..];
    }
  }

  lemma UsedGrown(before: seq<Chunk>, size: nat, after: seq<Chunk>, c: nat, chunk: Chunk)
    requires ValidChunks(before) && SpaceFound(before, size, after, c) && c < |after|
    ensures Used(after[c := chunk]) + after[c].used == Used(before) + chunk.used
  {
    hide ValidChunks;
    UsedUpdate(after, c, chunk);
    if c == |before| {
      assert after == before + [after[c]];
      UsedMore(before, after[c]);
    }
  }

  /** The bytes of the blocks, and of the strings with their NULs, that have been handed out. */
  function BlockBytes(blocks: seq<Block>): nat {
    if blocks == [] then 0 else BlockBytes(blocks[..|blocks| - 1]) + blocks[|blocks| - 1].size
  }

  function StrBytes(strs: seq<Str>): nat {
    if strs == [] then 0 else StrBytes(strs[..|strs| - 1]) + |strs[|strs| - 1].text| + 1
  }

  lemma BytesMore(blocks: seq<Block>, b: Block, strs: seq<Str>, s: Str)
    ensures BlockBytes(blocks + [b]) == BlockBytes(blocks) + b.size
    ensures StrBytes(strs + [s]) == StrBytes(strs) + |s.text| + 1
  {
    assert (blocks + [b])[..|blocks|] == blocks && (strs + [s])[..|strs|] == strs;
  }

  lemma {:induction false} StrBytesUpdate(strs: seq<Str>, j: nat, s: Str)
    requires j < |strs|
    ensures StrBytes(strs[j := s]) + |strs[j].text| == StrBytes(strs) + |s.text|
  {
    var front := strs[..|strs| - 1];
    if j < |strs| - 1 {
      assert strs[j := s][..|strs| - 1] == front[j := s];
      StrBytesUpdate(front, j, s);
    } else {
      assert strs[j := s][..|strs| - 1] == front;
    }
  }

  ghost predicate MetaOk(chunks: seq<Chunk>, blocks: seq<Block>, align: nat)
    requires align > 0
  {
    ValidChunks(chunks) && Doubling(chunks) && BlocksOk(chunks, blocks, align) && Used(chunks) == BlockBytes(blocks)
  }

  ghost predicate DataOk(chunks: seq<Chunk>, strs: seq<Str>) {
    ValidChunks(chunks) && Doubling(chunks) && StringsOk(chunks, strs) && Used(chunks) == StrBytes(strs)
  }

  lemma AllocKeeps(meta: seq<Chunk>, n: nat, after: seq<Chunk>, c: nat, blocks: seq<Block>, align: nat)
    requires align > 0 && MetaOk(meta, blocks, align) && SpaceFound(meta, n, after, c) && n % align == 0
    ensures c < |after| && |meta| <= |after|
    ensures var b := Block(Ptr(c, after[c].used), n);
      MetaOk(after[c := after[c].(used := after[c].used + n)], blocks + [b], align)
    ensures forall i :: 0 <= i < |meta| ==> after[i] == meta[i]
  {
    hide BlocksOk, Used, BlockBytes;
    SpaceKeeps(meta, n, after, c);
    NothingUsed(meta, n, after, c);
    BlocksGrow(meta, after, blocks, align);
    AddBlock(after, blocks, c, n, align);
    var chunk := after[c].(used := after[c].used + n);
    DoublingSame(after, c, chunk);
    UsedGrown(meta, n, after, c, chunk);
    BytesMore(blocks, Block(Ptr(c, after[c].used), n), [], Str(Ptr(0, 0), ""));
  }

  lemma StrdupKeeps(data: seq<Chunk>, src: string, after: seq<Chunk>, c: nat, strs: seq<Str>)
    requires DataOk(data, strs) && SpaceFound(data, |src| + 1, after, c)
    ensures c < |after| && after[c].Valid() && after[c].Room() > |src|
    ensures Added(after[c], src).size == after[c].size
    ensures DataOk(after[c := Added(after[c], src)], strs + [Str(Ptr(c, after[c].used), src)])
  {
    hide StringsOk, Added, Used, StrBytes;
    SpaceKeeps(data, |src| + 1, after, c);
    NothingUsed(data, |src| + 1, after, c);
    StringsGrow(data, after, strs);
    AddString(after, strs, c, src);
    AddedValid(after[c], src);
    AddedUsed(after[c], src);
    DoublingSame(after, c, Added(after[c], src));
    UsedGrown(data, |src| + 1, after, c, Added(after[c], src));
    BytesMore([], Block(Ptr(0, 0), 0), strs, Str(Ptr(c, after[c].used), src));
  }

  lemma ExtendKeeps(data: seq<Chunk>, strs: seq<Str>, j: nat, src: string)
    requires DataOk(data, strs) && j < |strs| && strs[j].at.chunk < |data| && data[strs[j].at.chunk].Valid()
    requires strs[j].at.offset == data[strs[j].at.chunk].last && data[strs[j].at.chunk].Room() > |src|
    ensures var c, s := strs[j].at.chunk, strs[j];
      && data[c].last + |s.text| + 1 == data[c].used && Extended(data[c], |s.text|, src).size == data[c].size
      && DataOk(data[c := Extended(data[c], |s.text|, src)], strs[j := Str(s.at, s.text + src)])
  {
    hide StringsOk, Extended, Used, StrBytes;
    var c, s := strs[j].at.chunk, strs[j];
    ExtendString(data, strs, j, src);
    OneString(data, strs, j);
    ExtendedValid(data[c], s.text, src);
    DoublingSame(data, c, Extended(data[c], |s.text|, src));
    UsedUpdate(data, c, Extended(data[c], |s.text|, src));
    StrBytesUpdate(strs, j, Str(s.at, s.text + src));
  }

  // ----- the stack

  class Stack {
    const target: Target
    var taken: nat
    var meta: seq<Chunk>
    var data: seq<Chunk>
    ghost var blocks: seq<Block>  // handed out by Alloc
    ghost var strs: seq<Str>      // handed out by Strdup and Strcat, as they are now

    ghost predicate Valid()
      reads this
    {
      && target.Valid() && MetaOk(meta, blocks, target.alignment) && DataOk(data, strs)
      && taken == target.stackSize + Footprint(meta, target.header) + Footprint(data, target.header)
    }

    /** iks_stack_new */
    constructor (target: Target, metaChunk: nat, dataChunk: nat)
      requires target.Valid()
      ensures Valid() && this.target == target && blocks == [] && strs == []
      ensures |meta| == |data| == 1
      ensures meta[0].size == ChunkSize(metaChunk, target.alignment)
      ensures data[0].size == ChunkSize(dataChunk, target.alignment)
      ensures RightSize(metaChunk, target.alignment, meta[0].size) && RightSize(dataChunk, target.alignment, data[0].size)
      ensures taken == target.stackSize + meta[0].size + data[0].size + 2 * target.header
    {
      hide Aligned;
      var m, n := ChunkSize(metaChunk, target.alignment), ChunkSize(dataChunk, target.alignment);
      this.target := target;
      taken := target.stackSize + m + n + target.header * 2;
      meta := [Chunk(m, 0, -1, seq(m, i => '\0'))];
      data := [Chunk(n, 0, -1, seq(n, i => '\0'))];
      blocks, strs := [], [];
      Multiple(0, target.alignment);
      SizesRight(metaChunk, target.alignment);
      SizesRight(dataChunk, target.alignment);
      FootprintOne(Chunk(m, 0, -1, seq(m, i => '\0')), target.header);
      UsedOne(Chunk(m, 0, -1, seq(m, i => '\0')));
      FootprintOne(Chunk(n, 0, -1, seq(n, i => '\0')), target.header);
      UsedOne(Chunk(n, 0, -1, seq(n, i => '\0')));
    }

    lemma HasChunks()
      requires Valid()
      ensures ValidChunks(meta) && ValidChunks(data) && StringsOk(data, strs)
    {
    }

    /** iks_stack_alloc: a new block; what is in the earlier ones stays. */
    method Alloc(size: nat) returns (mem: Ptr)
      requires Valid()
      modifies `meta, `taken, `blocks
      ensures Valid() && blocks == old(blocks) + [Block(mem, BlockSize(size, target.alignment))]
      ensures var n, a := BlockSize(size, target.alignment), target.alignment;
        n >= size && n >= a && n % a == 0 && (size >= a ==> n < size + a) && (size < a ==> n == a)
      ensures |old(meta)| <= |meta| && forall c :: 0 <= c < |old(meta)| ==> meta[c].mem == old(meta)[c].mem
    {
      hide MetaOk, DataOk, Aligned, Footprint;
      var n := BlockSize(size, target.alignment);
      SizesRight(size, target.alignment);
      HasChunks();
      var after, c, grown := FindSpace(meta, n);
      AllocKeeps(meta, n, after, c, blocks, target.alignment);
      FootprintGrown(meta, n, after, c, after[c].(used := after[c].used + n), target.header);
      mem := Ptr(c, after[c].used);
      taken := taken + if grown > 0 then target.header + grown else 0;
      meta := after[c := after[c].(used := after[c].used + n)];
      blocks := blocks + [Block(mem, n)];
    }

    /** iks_stack_strdup */
    method Strdup(src: string) returns (dest: Ptr)
      requires Valid()
      modifies `data, `taken, `strs
      ensures Valid() && strs == old(strs) + [Str(dest, src)]
    {
      hide MetaOk, DataOk, Added, Footprint;
      HasChunks();
      var after, c, grown := FindSpace(data, |src| + 1);
      StrdupKeeps(data, src, after, c, strs);
      FootprintGrown(data, |src| + 1, after, c, Added(after[c], src), target.header);
      dest := Ptr(c, after[c].used);
      taken := taken + if grown > 0 then target.header + grown else 0;
      data := after[c := Added(after[c], src)];
      strs := strs + [Str(dest, src)];
    }

    /** iks_stack_strcat on the j-th string handed out, or on NULL: when it is the last of its chunk and
        there is room it grows in place, otherwise a longer copy is made; either way the result is the old
        text and then src, and no other string has changed. */
    method Strcat(old_: Option<Ptr>, oldLen: nat, src: string, ghost j: nat) returns (ret: Ptr)
      requires Valid() && (old_.Some? ==> j < |strs| && strs[j].at == old_.value && |strs[j].text| == oldLen)
      modifies `data, `taken, `strs
      ensures Valid()
      ensures old_.None? ==> strs == old(strs) + [Str(ret, src)]
      ensures old_.Some? ==> var s := Str(ret, old(strs)[j].text + src);
        strs == if ret == old_.value then old(strs)[j := s] else old(strs) + [s]
      ensures old_.Some? ==> (ret == old_.value <==>
        old(data)[old_.value.chunk].last == old_.value.offset
          && old(data)[old_.value.chunk].size - old(data)[old_.value.chunk].used > |src|)
    {
      hide BlocksOk, StringsOk, Extended;
      if old_.None? {
        ret := Strdup(src);
        return;
      }
      OneString(data, strs, j);
      var c, offset := old_.value.chunk, old_.value.offset;
      var text := data[c].mem[offset..offset + oldLen];
      if data[c].last != offset {
        ret := Strdup(text + src);  // not the last string of its chunk
        NewPlace(data, strs, j);
      } else if data[c].size - data[c].used > |src| {
        ret := old_.value;
        ExtendInPlace(ret, text, src, j);
      } else {
        ret := Strdup(text + src);  // no room
        NewPlace(data, strs, j);
      }
    }

    /** The path of iks_stack_strcat without a new place. */
    method ExtendInPlace(p: Ptr, text: string, src: string, ghost j: nat)
      requires Valid() && j < |strs| && strs[j] == Str(p, text) && p.chunk < |data|
      requires data[p.chunk].last == p.offset && data[p.chunk].Room() > |src|
      modifies `data, `strs
      ensures Valid() && strs == old(strs)[j := Str(p, text + src)]
    {
      hide MetaOk, DataOk, Extended, Footprint;
      HasChunks();
      var c := p.chunk;
      ExtendKeeps(data, strs, j, src);
      FootprintSame(data, c, Extended(data[c], |text|, src), target.header);
      data := data[c := Extended(data[c], |text|, src)];
      strs := strs[j := Str(p, text + src)];
    }

    /** iks_stack_stat */
    method Stat() returns (total: nat, used: nat)
      requires Valid()
      ensures total == target.stackSize + Footprint(meta, target.header) + Footprint(data, target.header)
      ensures used == BlockBytes(blocks) + StrBytes(strs)
    {
      total := taken;
      var m := SumUsed(meta);
      var d := SumUsed(data);
      used := m + d;
    }
  }

  method SumUsed(chunks: seq<Chunk>) returns (used: nat)
    ensures used == Used(chunks)
  {
    used := 0;
    assert chunks[0..] == chunks;
    for i := 0 to |chunks|
      invariant used + Used(chunks[i..]) == Used(chunks)
    {
      assert chunks[i..][0] == chunks[i] && chunks[i..][1..] == chunks[i + 1..];
      used := used + chunks[i].used;
    }
  }

  lemma DoublingSame(chunks: seq<Chunk>, c: nat, chunk: Chunk)
    requires Doubling(chunks) && c < |chunks| && chunk.size == chunks[c].size
    ensures Doubling(chunks[c := chunk])
  {
  }

  lemma OneString(chunks: seq<Chunk>, strs: seq<Str>, j: nat)
    requires StringsOk(chunks, strs) && j < |strs|
    ensures StrIn(chunks, strs[j])
  {
  }

  /** The newest string is somewhere else than an older one. */
  lemma NewPlace(chunks: seq<Chunk>, strs: seq<Str>, j: nat)
    requires StringsOk(chunks, strs) && j < |strs| - 1
    ensures strs[|strs| - 1].at != strs[j].at
  {
    assert Apart(strs[j], strs[|strs| - 1]);
  }

  // ----- what it means

  // ----- any sequence of operations

  /** The caller has variables for its strings; an append goes to a variable, or makes a new one from NULL. */
  datatype Op = Alloc(size: nat) | Strdup(src: string) | Strcat(v: nat, src: string)

  /** What the variables are to hold after one more operation, and after any. */
  function AfterOp(texts: seq<string>, op: Op): seq<string> {
    match op
    case Alloc(_) => texts
    case Strdup(src) => texts + [src]
    case Strcat(v, src) => if v < |texts| then texts[v := texts[v] + src] else texts + [src]
  }

  function Texts(ops: seq<Op>): seq<string> {
    if ops == [] then [] else AfterOp(Texts(ops[..|ops| - 1]), ops[|ops| - 1])
  }

  /** The sizes of the blocks asked for. */
  function Sizes(ops: seq<Op>): seq<nat> {
    if ops == [] then []
    else Sizes(ops[..|ops| - 1]) + if ops[|ops| - 1].Alloc? then [ops[|ops| - 1].size] else []
  }

  lemma OneMoreOp(ops: seq<Op>, op: Op)
    ensures Sizes(ops + [op]) == if op.Alloc? then Sizes(ops) + [op.size] else Sizes(ops)
    ensures Texts(ops + [op]) == AfterOp(Texts(ops), op)
  {
    assert (ops + [op])[..|ops|] == ops;
  }

  /** Variable v is the place of string which[v], and that string is what it is to hold; no two variables have the
      same string. */
  predicate Holds(strs: seq<Str>, at: seq<Ptr>, which: seq<nat>, texts: seq<string>) {
    && |at| == |which| == |texts|
    && (forall v :: 0 <= v < |at| ==> which[v] < |strs| && strs[which[v]] == Str(at[v], texts[v]))
    && forall v, w :: 0 <= v < w < |at| ==> which[v] != which[w]
  }

  lemma HoldsMore(strs: seq<Str>, at: seq<Ptr>, which: seq<nat>, texts: seq<string>, s: Str)
    requires Holds(strs, at, which, texts)
    ensures Holds(strs + [s], at + [s.at], which + [|strs|], texts + [s.text])
  {
  }

  /** A variable gets another string: the same one grown, or the newest. */
  lemma HoldsAppended(strs: seq<Str>, at: seq<Ptr>, which: seq<nat>, texts: seq<string>, v: nat, s: Str)
    requires Holds(strs, at, which, texts) && v < |at|
    ensures s.at == at[v] ==> Holds(strs[which[v] := s], at, which, texts[v := s.text])
    ensures Holds(strs + [s], at[v := s.at], which[v := |strs|], texts[v := s.text])
  {
  }

  predicate HasSizes(blocks: seq<Block>, sizes: seq<nat>, align: nat)
    requires align > 0
  {
    |blocks| == |sizes| && forall i :: 0 <= i < |blocks| ==> blocks[i].size == BlockSize(sizes[i], align)
  }

  /** The variables, with the lengths their owner knows, and the blocks are what they are to be. */
  ghost predicate Keeps(s: Stack, at: seq<Ptr>, lens: seq<nat>, which: seq<nat>, texts: seq<string>, sizes: seq<nat>)
    reads s
  {
    && s.Valid() && s.target.Valid() && Holds(s.strs, at, which, texts) && HasSizes(s.blocks, sizes, s.target.alignment)
    && |lens| == |at| && forall v :: 0 <= v < |at| ==> lens[v] == |texts[v]|
  }

  /** One operation of the caller. */
  method DoOp(s: Stack, op: Op, at: seq<Ptr>, lens: seq<nat>,
              ghost which: seq<nat>, ghost texts: seq<string>, ghost sizes: seq<nat>)
    returns (at': seq<Ptr>, lens': seq<nat>, ghost which': seq<nat>)
    requires Keeps(s, at, lens, which, texts, sizes)
    modifies s
    ensures Keeps(s, at', lens', which', AfterOp(texts, op), if op.Alloc? then sizes + [op.size] else sizes)
  {
    hide Stack.Valid, BlockSize, Holds, HasSizes;
    at', lens', which' := at, lens, which;
    ghost var strs, blocks := s.strs, s.blocks;
    HeldBy(strs, at, which, texts);
    if op.Alloc? {
      var mem := s.Alloc(op.size);
      SizesMore(blocks, sizes, mem, op.size, s.target.alignment);
    } else if op.Strcat? && op.v < |at| {
      at', lens', which' := Append(s, op.v, op.src, at, lens, which, texts, sizes);
    } else {
      var p;
      if op.Strcat? {
        p := s.Strcat(None, 0, op.src, 0);
      } else {
        p := s.Strdup(op.src);
      }
      HoldsMore(strs, at, which, texts, Str(p, op.src));
      at', lens', which' := at + [p], lens + [|op.src|], which + [|strs|];
    }
  }

  /** Appends to variable v. */
  method Append(s: Stack, v: nat, src: string, at: seq<Ptr>, lens: seq<nat>,
                ghost which: seq<nat>, ghost texts: seq<string>, ghost sizes: seq<nat>)
    returns (at': seq<Ptr>, lens': seq<nat>, ghost which': seq<nat>)
    requires Keeps(s, at, lens, which, texts, sizes) && v < |at| == |texts|
    modifies s
    ensures Keeps(s, at', lens', which', texts[v := texts[v] + src], sizes)
  {
    hide Stack.Valid, BlockSize, Holds, HasSizes;
    ghost var strs := s.strs;
    HeldBy(strs, at, which, texts);
    var p := s.Strcat(Some(at[v]), lens[v], src, which[v]);
    HoldsAppended(strs, at, which, texts, v, Str(p, texts[v] + src));
    at', lens' := at[v := p], lens[v := lens[v] + |src|];
    which' := if p == at[v] then which else which[v := |strs|];
    assert p == at[v] ==> at' == at;
  }

  /** Every variable reads as its text, with the NUL, inside its chunk, apart from every other variable; every block has its
      size, is aligned, inside its chunk and apart from every other block. */
  ghost predicate AllInPlace(s: Stack, at: seq<Ptr>, texts: seq<string>, sizes: seq<nat>)
    requires s.target.Valid()
    reads s
  {
    && |at| == |texts|
    && (forall v :: 0 <= v < |at| ==> StrIn(s.data, Str(at[v], texts[v])))
    && (forall v, w :: 0 <= v < w < |at| ==> Apart(Str(at[v], texts[v]), Str(at[w], texts[w])))
    && HasSizes(s.blocks, sizes, s.target.alignment)
    && (forall i :: 0 <= i < |s.blocks| ==> BlockIn(s.meta, s.blocks[i], s.target.alignment))
    && forall i, j :: 0 <= i < j < |s.blocks| ==> BlocksApart(s.blocks[i], s.blocks[j])
  }

  /** Whatever is allocated, copied and appended, in any order: everything is in its place, and no operation has changed a
      variable but the one it appends to. */
  method RunOps(target: Target, metaChunk: nat, dataChunk: nat, ops: seq<Op>) returns (s: Stack, at: seq<Ptr>)
    requires target.Valid()
    ensures fresh(s) && s.Valid() && s.target == target && AllInPlace(s, at, Texts(ops), Sizes(ops))
  {
    hide Stack.Valid, Texts, Sizes, AfterOp, AllInPlace, Keeps, Target.Valid, Aligned;
    s := new Stack(target, metaChunk, dataChunk);
    at := [];
    var lens: seq<nat> := [];
    ghost var which: seq<nat> := [];
    NothingHeld(s);
    for i := 0 to |ops|
      invariant fresh(s) && s.target == target && Keeps(s, at, lens, which, Texts(ops[..i]), Sizes(ops[..i]))
    {
      assert ops[..i + 1] == ops[..i] + [ops[i]];
      OneMoreOp(ops[..i], ops[i]);
      at, lens, which := DoOp(s, ops[i], at, lens, which, Texts(ops[..i]), Sizes(ops[..i]));
    }
    assert ops[..|ops|] == ops;
    AllHeld(s, at, lens, which, Texts(ops), Sizes(ops));
  }

  lemma NothingHeld(s: Stack)
    requires s.Valid() && s.strs == [] && s.blocks == []
    ensures Keeps(s, [], [], [], Texts([]), Sizes([]))
  {
    hide BlocksOk, StringsOk, ValidChunks, Doubling, HasSizes;
    NoneHeld(s.target.alignment);
    assert Texts([]) == [] && Sizes([]) == [];
  }

  lemma NoneHeld(align: nat)
    ensures align > 0 ==> HasSizes([], [], align)
  {
  }

  lemma SizesMore(blocks: seq<Block>, sizes: seq<nat>, mem: Ptr, size: nat, align: nat)
    requires align > 0 && HasSizes(blocks, sizes, align)
    ensures HasSizes(blocks + [Block(mem, BlockSize(size, align))], sizes + [size], align)
  {
    hide BlockSize;
  }

  lemma ApartBoth(strs: seq<Str>, i: nat, j: nat)
    requires i < |strs| && j < |strs| && i != j && forall k, l :: 0 <= k < l < |strs| ==> Apart(strs[k], strs[l])
    ensures Apart(strs[i], strs[j])
  {
    assert if i < j then Apart(strs[i], strs[j]) else Apart(strs[j], strs[i]);
  }

  lemma HeldBy(strs: seq<Str>, at: seq<Ptr>, which: seq<nat>, texts: seq<string>)
    requires Holds(strs, at, which, texts)
    ensures |at| == |which| == |texts|
    ensures forall v :: 0 <= v < |at| ==> which[v] < |strs| && strs[which[v]] == Str(at[v], texts[v])
  {
  }

  lemma AllHeld(s: Stack, at: seq<Ptr>, lens: seq<nat>, which: seq<nat>, texts: seq<string>, sizes: seq<nat>)
    requires Keeps(s, at, lens, which, texts, sizes)
    ensures s.Valid() && s.target.Valid() && AllInPlace(s, at, texts, sizes)
  {
    hide StrIn, Apart, BlockIn, BlocksApart;
    forall v, w | 0 <= v < w < |at|
      ensures Apart(Str(at[v], texts[v]), Str(at[w], texts[w]))
    {
      ApartBoth(s.strs, which[v], which[w]);
    }
  }

  /** The k-th chunk of a list is at least 2^k times as large as the first. */
  lemma {:induction false} ChunksDouble(chunks: seq<Chunk>, k: nat)
    requires Doubling(chunks) && k < |chunks|
    ensures chunks[k].size >= Power2(k) * chunks[0].size
  {
    if k > 0 {
      ChunksDouble(chunks, k - 1);
      assert chunks[(k - 1) + 1].size >= 2 * chunks[k - 1].size;
    }
  }

  function Power2(k: nat): nat {
    if k == 0 then 1 else 2 * Power2(k - 1)
  }
}

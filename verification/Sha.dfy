/** sha.c: the streaming form of SHA-1, one byte at a time into a buffer of words that is never cleared. */
module Sha {
  import opened Sha1

  // ----- the buffer

  /** A word after some bytes have been pushed into what was there before. */
  function Pushes(left: bv32, bytes: seq<bv8>): bv32 {
    if bytes == [] then left else PushByte(Pushes(left, bytes[..|bytes| - 1]), bytes[|bytes| - 1])
  }

  function WordAt(bytes: seq<bv8>, k: nat): bv32
    requires 4 * k + 3 < |bytes|
  {
    Word(bytes[4 * k], bytes[4 * k + 1], bytes[4 * k + 2], bytes[4 * k + 3])
  }

  /** The buffer holds the whole words of the tail, and behind them the rest of the tail pushed into
      `left`, which an earlier block has left there. */
  ghost predicate Filled(buf: seq<bv32>, left: bv32, tail: seq<bv8>) {
    && |buf| == 80 && |tail| <= 64
    && (forall k: nat :: 4 * k + 3 < |tail| ==> buf[k] == WordAt(tail, k))
    && buf[|tail| / 4] == Pushes(left, tail[|tail| - |tail| % 4..])
  }

  lemma PushesWord(left: bv32, bytes: seq<bv8>)
    requires |bytes| == 4
    ensures Pushes(left, bytes) == Word(bytes[0], bytes[1], bytes[2], bytes[3])
  {
    hide PushByte, Word;
    FourPushes(left, bytes[0], bytes[1], bytes[2], bytes[3]);
    var three := bytes[..3];
    var two := three[..2];
    var one := two[..1];
    assert one[..0] == [];
    assert Pushes(left, one) == PushByte(left, bytes[0]);
    assert Pushes(left, two) == PushByte(Pushes(left, one), bytes[1]);
    assert Pushes(left, three) == PushByte(Pushes(left, two), bytes[2]);
  }

  lemma PushesMore(left: bv32, bytes: seq<bv8>, b: bv8)
    ensures Pushes(left, bytes + [b]) == PushByte(Pushes(left, bytes), b)
  {
    hide PushByte;
    assert (bytes + [b])[..|bytes|] == bytes;
  }

  /** What is left in the word that the next byte goes to. */
  function LeftAfter(buf: seq<bv32>, left: bv32, n: nat): bv32
    requires |buf| == 80 && n <= 64
  {
    if n % 4 == 0 then buf[n / 4] else left
  }

  lemma FilledPush(buf: seq<bv32>, left: bv32, tail: seq<bv8>, b: bv8)
    requires Filled(buf, left, tail) && |tail| < 64
    ensures var after := buf[|tail| / 4 := PushByte(buf[|tail| / 4], b)];
      Filled(after, LeftAfter(after, left, |tail| + 1), tail + [b])
  {
    hide PushByte, Word, Pushes;
    var n := |tail|;
    var j, k := n % 4, n / 4;
    var part, more := tail[n - j..], tail + [b];
    var after := buf[k := PushByte(buf[k], b)];
    PushesMore(left, part, b);
    assert more[n - j..] == part + [b];
    if j == 3 {
      assert k == (n - 3) / 4 && 4 * k + 3 == n;
      PushesWord(left, part + [b]);
      assert after[k] == WordAt(more, k);
      assert more[n + 1..] == [];
      PushesNone(after[k + 1]);
    } else {
      assert (n + 1) / 4 == k && (n + 1) % 4 == j + 1;
    }
    forall i: nat | 4 * i + 3 < n
      ensures after[i] == WordAt(more, i)
    {
      assert buf[i] == WordAt(tail, i);
      assert i < k;
    }
  }

  lemma PushesNone(left: bv32)
    ensures Pushes(left, []) == left
  {
  }

  lemma FilledBlock(buf: seq<bv32>, left: bv32, tail: seq<bv8>)
    requires Filled(buf, left, tail) && |tail| == 64
    ensures buf[..16] == Words(tail)
  {
    hide Word, Pushes;
    forall k | 0 <= k < 16
      ensures buf[k] == Words(tail)[k]
    {
      assert buf[k] == WordAt(tail, k);
    }
  }

  // ----- sha_calculate

  /** The choice and the majority function as the code writes them. */
  function CodeCh(b: bv32, c: bv32, d: bv32): bv32 {
    ((c ^ d) & b) ^ d
  }

  function CodeMaj(b: bv32, c: bv32, d: bv32): bv32 {
    (b & c) | (d & (b | c))
  }

  lemma SameChoice(b: bv32, c: bv32, d: bv32)
    ensures CodeCh(b, c, d) == Ch(b, c, d)
  {
    Choice(b, c, d);
  }

  lemma Choice(b: bv32, c: bv32, d: bv32)
    ensures ((c ^ d) & b) ^ d == (b & c) | (!b & d)
  {
  }

  lemma SameMajority(b: bv32, c: bv32, d: bv32)
    ensures CodeMaj(b, c, d) == Maj(b, c, d)
  {
    Majority(b, c, d);
  }

  lemma Majority(b: bv32, c: bv32, d: bv32)
    ensures (b & c) | (d & (b | c)) == (b & c) | (b & d) | (c & d)
  {
  }

  function CodeF(t: nat, b: bv32, c: bv32, d: bv32): bv32 {
    if t < 20 then CodeCh(b, c, d)
    else if t < 40 then Parity(b, c, d)
    else if t < 60 then CodeMaj(b, c, d)
    else Parity(b, c, d)
  }

  /** The body of the macro SHA, with the function and the constant of round t. */
  function CodeRound(t: nat, s: Five, w: bv32): Five {
    Five(Temp(Shift5(s.a), CodeF(t, s.b, s.c, s.d), s.e, w, K(t)), s.a, Shift30(s.b), s.c, s.d)
  }

  lemma CodeRoundSame(t: nat, s: Five, w: bv32)
    ensures CodeRound(t, s, w) == Round(t, s, w)
  {
    hide CodeCh, CodeMaj, Ch, Maj, Parity, K, Shift5, Shift30, Temp;
    SameChoice(s.b, s.c, s.d);
    SameMajority(s.b, s.c, s.d);
  }

  /** The rest of the message schedule, in place behind the block. */
  method Expand(buf: array<bv32>)
    requires buf.Length == 80
    modifies buf
    ensures forall k :: 0 <= k < 80 ==> buf[k] == W(old(buf[..16]), k)
    ensures buf[..16] == old(buf[..16])
  {
    hide W, Mix;
    ghost var block := buf[..16];
    forall k | 0 <= k < 16
      ensures buf[k] == W(block, k)
    {
      ScheduleStart(block, k);
    }
    for i := 16 to 80
      invariant forall k :: 0 <= k < i ==> buf[k] == W(block, k)
      invariant buf[..16] == block
    {
      ScheduleStep(block, i);
      buf[i] := Mix(buf[i - 3], buf[i - 8], buf[i - 14], buf[i - 16]);
    }
  }

  /** The macro SHA: rounds a to b - 1. */
  method ShaRounds(s0: Five, buf: array<bv32>, a: nat, b: nat, ghost hash: Five, ghost block: seq<bv32>) returns (s: Five)
    requires a <= b <= 80 == buf.Length && |block| == 16 && forall k :: 0 <= k < 80 ==> buf[k] == W(block, k)
    requires s0 == Rounds(hash, block, a)
    ensures s == Rounds(hash, block, b)
  {
    hide W, Rounds, Round, CodeRound;
    s := s0;
    for i := a to b
      invariant s == Rounds(hash, block, i)
    {
      RoundsStep(hash, block, i);
      CodeRoundSame(i, s, buf[i]);
      s := CodeRound(i, s, buf[i]);
    }
  }

  /** sha_calculate on five words and a buffer whose first sixteen words are the block. */
  method Calculate(hash: Five, buf: array<bv32>) returns (sum: Five)
    requires buf.Length == 80
    modifies buf
    ensures sum == Process(hash, old(buf[..16])) && buf[..16] == old(buf[..16])
  {
    hide W, Rounds, Sum;
    ghost var block := buf[..16];
    Expand(buf);
    RoundsStep(hash, block, 0);
    var s := ShaRounds(hash, buf, 0, 20, hash, block);
    s := ShaRounds(s, buf, 20, 40, hash, block);
    s := ShaRounds(s, buf, 40, 60, hash, block);
    s := ShaRounds(s, buf, 60, 80, hash, block);
    sum := Sum(hash, s);
  }

  // ----- iksha

  class Sha {
    var hash: Five
    const buf: array<bv32>
    var blen: nat
    var lenlo: nat
    var lenhi: nat
    ghost var left: bv32
    ghost var fed: seq<bv8>  // everything fed since the reset

    /** The bytes that are not in the hash yet. */
    ghost function Tail(): seq<bv8>
      requires blen <= |fed|
      reads `blen, `fed
    {
      fed[|fed| - blen..]
    }

    /** The whole blocks fed so far are in the hash, the rest is in the buffer. */
    ghost predicate Hashed()
      reads `hash, `blen, `left, `fed, buf
    {
      && buf.Length == 80 && blen <= 64 && blen <= |fed| && (|fed| - blen) % 64 == 0
      && hash == Blocks(fed[..|fed| - blen]) && Filled(buf[..], left, Tail())
    }

    ghost predicate Valid()
      reads this, buf
    {
      Hashed() && blen < 64 && lenlo == Low(8 * |fed|) && lenhi == High(8 * |fed|)
    }

    /** iks_sha_new with iks_sha_reset */
    constructor ()
      ensures Valid() && fed == [] && fresh(buf)
    {
      hide Filled, Blocks, Low, High, Sha.Valid;
      hash := H0;
      buf := new bv32[80](i => 0);
      blen, lenlo, lenhi, fed := 0, 0, 0, [];
      new;
      left := buf[0];
      NothingYet();
    }

    lemma NothingYet()
      requires hash == H0 && buf.Length == 80 && left == buf[0] && blen == lenlo == lenhi == 0 && fed == []
      ensures Valid()
    {
      hide Filled, Blocks, Low, High, Sha.Hashed;
      NothingFed();
      NothingHashed();
      assert 8 * |fed| == 0;
    }

    lemma NothingHashed()
      requires hash == Blocks([]) && buf.Length == 80 && left == buf[0] && blen == 0 && fed == []
      ensures Hashed()
    {
      hide Filled, Blocks;
      FilledNone(buf[..]);
      assert fed[..|fed| - blen] == [] && Tail() == [];
    }

    /** Puts a byte into the buffer. */
    method Place(b: bv8)
      requires Hashed() && blen < 64
      modifies `blen, `left, `fed, buf
      ensures Hashed() && fed == old(fed) + [b] && blen == old(blen) + 1
    {
      hide Filled, Blocks, PushByte;
      ghost var tail := Tail();
      FilledPush(buf[..], left, tail, b);
      BlocksMore(fed, blen, b);
      buf[blen / 4] := PushByte(buf[blen / 4], b);
      left := LeftAfter(buf[..], left, blen + 1);
      blen := blen + 1;
      fed := fed + [b];
      assert Tail() == tail + [b];
    }

    /** A full buffer goes into the hash. */
    method Flush()
      requires Hashed() && blen == 64
      modifies `hash, `blen, `left, buf
      ensures Hashed() && blen == 0
    {
      hide Filled, Blocks, Process, Words;
      FilledBlock(buf[..], left, Tail());
      assert buf[..][..16] == buf[..16];
      BlocksWhole(fed);
      hash := Calculate(hash, buf);
      blen := 0;
      left := buf[0];
      assert Tail() == [] && fed[..|fed|] == fed;
      FilledNone(buf[..]);
    }

    /** One pass of the loop of sha_buffer. */
    method PushOne(b: bv8)
      requires Valid()
      modifies this, buf
      ensures Valid() && fed == old(fed) + [b] && blen == (old(blen) + 1) % 64
    {
      hide Sha.Hashed, Low, High;
      CountMore(|fed|);
      Place(b);
      if blen % 64 == 0 {
        Flush();
      }
      lenlo := (lenlo + 8) % 0x1_0000_0000;
      lenhi := (lenhi + if lenlo < 8 then 1 else 0) % 0x1_0000_0000;
    }

    /** sha_buffer, whose length is an int: a negative one feeds nothing. */
    method Push(data: seq<bv8>, len: int)
      requires Valid() && len <= |data|
      modifies this, buf
      ensures Valid() && fed == old(fed) + if len < 0 then [] else data[..len]
    {
      hide Sha.Valid;
      var i := 0;
      while i < len
        invariant 0 <= i && (i == 0 || i <= len) && Valid() && fed == old(fed) + data[..i]
      {
        PushOne(data[i]);
        assert data[..i + 1] == data[..i] + [data[i]];
        i := i + 1;
      }
    }

    /** iks_sha_hash with finish: the padding is pushed through the same buffer. With the fewest zero bytes
        that bring the count to 56 modulo 64 the last block holds the length in bits. */
    method Finish()
      requires Valid() && |fed| < 0x2000_0000_0000_0000
      modifies this, buf
      ensures hash == Digest(old(fed)) && blen == 0
    {
      hide Sha.Hashed, Low, High, Blocks;
      ghost var msg := fed;
      var pad := Bytes4(lenhi) + Bytes4(lenlo);
      LengthWords(|msg|);
      PushOne(0x80);
      ghost var k := ZeroCount(|msg|);
      ghost var z := 0;
      assert fed == msg + [0x80] + Zeros(0);
      BlenIs();
      while blen != 56
        invariant Valid() && z <= k && fed == msg + [0x80] + Zeros(z) && blen == |fed| % 64
        decreases k - z
      {
        LeastZeros(|msg|, z);
        PushOne(0);
        z := z + 1;
        assert Zeros(z) == Zeros(z - 1) + [0];
        BlenIs();
      }
      LeastZeros(|msg|, z);
      Push(pad, 8);
      assert pad[..8] == pad;
      Padded(msg, pad);
      BlenIs();
      AllHashed();
    }

    lemma BlenIs()
      requires Valid()
      ensures blen == |fed| % 64
    {
      hide Filled, Blocks, Low, High;
      Remainder(|fed|, blen);
    }

    lemma AllHashed()
      requires Valid() && blen == 0
      ensures hash == Blocks(fed)
    {
      hide Filled, Blocks;
      assert fed[..|fed|] == fed;
    }

    /** iks_sha_hash: an empty piece is skipped; what is fed of the others depends on what becomes of their size
        when it is passed on as an int. */
    method Hash(data: seq<bv8>, finish: bool)
      requires Valid() && (finish ==> |fed| + |Taken(data)| < 0x2000_0000_0000_0000)
      modifies this, buf
      ensures !finish ==> Valid() && fed == old(fed) + Taken(data)
      ensures finish ==> hash == Digest(old(fed) + Taken(data))
    {
      hide Sha.Valid, Digest;
      if data != [] {
        Push(data, IntOf(|data|));
      } else {
        assert old(fed) + Taken(data) == fed;
      }
      if finish {
        Finish();
      }
    }
  }

  // ----- pieces

  /** A size_t as an int of 32 bits. */
  function IntOf(n: nat): (r: int)
    ensures -0x8000_0000 <= r <= n && r < 0x8000_0000
    ensures r == n <==> n < 0x8000_0000
  {
    var low := n % 0x1_0000_0000;
    if low < 0x8000_0000 then low else low - 0x1_0000_0000
  }

  /** What iks_sha_hash feeds of a piece. */
  function Taken(data: seq<bv8>): seq<bv8> {
    data[..if IntOf(|data|) < 0 then 0 else IntOf(|data|)]
  }

  /** A piece is fed whole exactly when its size fits an int. A piece of 2^31 bytes is not fed at all. */
  lemma TakenWholeIff(data: seq<bv8>)
    ensures Taken(data) == data <==> |data| < 0x8000_0000
    ensures |Taken(data)| <= |data| && (Taken(data) != data ==> |Taken(data)| < |data|)
    ensures |data| == 0x8000_0000 ==> Taken(data) == []
  {
    hide IntOf;
    assert |data| == 0x8000_0000 ==> IntOf(|data|) == -0x8000_0000 by { HalfRange(); }
    assert data[..|data|] == data;
  }

  lemma HalfRange()
    ensures IntOf(0x8000_0000) == -0x8000_0000
  {
  }

  function Concat(pieces: seq<seq<bv8>>): seq<bv8> {
    if pieces == [] then [] else pieces[0] + Concat(pieces[1..])
  }

  function TakenEach(pieces: seq<seq<bv8>>): seq<seq<bv8>> {
    if pieces == [] then [] else [Taken(pieces[0])] + TakenEach(pieces[1..])
  }

  /** A message is hashed whole exactly when every piece of it is below 2^31 bytes. */
  lemma {:induction false} WholeMessageIff(pieces: seq<seq<bv8>>)
    ensures Concat(TakenEach(pieces)) == Concat(pieces) <==> forall i :: 0 <= i < |pieces| ==> |pieces[i]| < 0x8000_0000
    ensures |Concat(TakenEach(pieces))| <= |Concat(pieces)|
    ensures Concat(TakenEach(pieces)) != Concat(pieces) ==> |Concat(TakenEach(pieces))| < |Concat(pieces)|
  {
    hide Taken;
    if pieces != [] {
      TakenWholeIff(pieces[0]);
      WholeMessageIff(pieces[1..]);
      assert TakenEach(pieces)[1..] == TakenEach(pieces[1..]);
    }
  }

  /** However a message is cut into pieces below 2^31 bytes, the five words are the digest of the whole. For larger
      pieces they are the digest of what is fed of them. */
  method HashPieces(pieces: seq<seq<bv8>>) returns (digest: Five)
    requires |Concat(pieces)| < 0x2000_0000_0000_0000
    ensures digest == Digest(Concat(TakenEach(pieces)))
    ensures (forall i :: 0 <= i < |pieces| ==> |pieces[i]| < 0x8000_0000) ==> digest == Digest(Concat(pieces))
  {
    hide Sha.Valid, Digest, Taken;
    ghost var all := Concat(TakenEach(pieces));
    var sha := new Sha();
    WholeMessageIff(pieces);
    NothingTaken();
    assert pieces[0..] == pieces && sha.fed + all == all;
    for i := 0 to |pieces|
      invariant fresh(sha) && fresh(sha.buf) && sha.Valid() && sha.fed + Concat(TakenEach(pieces[i..])) == all
    {
      ghost var rest, fed := Concat(TakenEach(pieces[i + 1..])), sha.fed;
      assert pieces[i..][0] == pieces[i] && pieces[i..][1..] == pieces[i + 1..];
      assert TakenEach(pieces[i..])[1..] == TakenEach(pieces[i + 1..]);
      sha.Hash(pieces[i], false);
      assert (fed + Taken(pieces[i])) + rest == fed + (Taken(pieces[i]) + rest);
    }
    assert pieces[|pieces|..] == [] && sha.fed + [] == sha.fed;
    sha.Hash([], true);
    digest := sha.hash;
  }

  lemma NothingTaken()
    ensures Taken([]) == [] && Concat(TakenEach([])) == []
  {
  }

  lemma Remainder(n: nat, b: nat)
    requires b < 64 && b <= n && (n - b) % 64 == 0
    ensures n % 64 == b
  {
  }

  /** z zero bytes behind the 1 bit: too few while the count is not 56, and never more than needed. */
  lemma LeastZeros(n: nat, z: nat)
    requires z <= ZeroCount(n)
    ensures (n + 1 + z) % 64 == 56 <==> z == ZeroCount(n)
  {
    var r := (n + 1) % 64;
    assert (n + 1 + z) % 64 == (r + z) % 64;
  }

  lemma LengthWords(n: nat)
    requires n < 0x2000_0000_0000_0000
    ensures Bytes4(High(8 * n)) + Bytes4(Low(8 * n)) == LengthBytes(8 * n)
  {
  }

  lemma Padded(msg: seq<bv8>, pad: seq<bv8>)
    requires pad == LengthBytes(8 * |msg|)
    ensures msg + [0x80] + Zeros(ZeroCount(|msg|)) + pad == Pad(msg)
  {
    hide LengthBytes, ZeroCount;
    var zs := Zeros(ZeroCount(|msg|));
    assert msg + [0x80] + zs + pad == msg + ([0x80] + zs + pad);
  }

  // ----- the 64-bit length in two words

  function Low(n: nat): (r: nat)
    ensures r < 0x1_0000_0000
  {
    n % 0x1_0000_0000
  }

  function High(n: nat): (r: nat)
    ensures r < 0x1_0000_0000
  {
    n / 0x1_0000_0000 % 0x1_0000_0000
  }

  lemma WordsOf(k: nat, q: nat, r: nat)
    requires r < 0x1_0000_0000 && k == q * 0x1_0000_0000 + r
    ensures Low(k) == r && High(k) == q % 0x1_0000_0000
  {
  }

  /** The carry: the low word is below 8 after adding 8 exactly when it has wrapped. */
  lemma CountMore(n: nat)
    ensures var lo := (Low(8 * n) + 8) % 0x1_0000_0000;
      && lo == Low(8 * (n + 1))
      && High(8 * (n + 1)) == (High(8 * n) + if lo < 8 then 1 else 0) % 0x1_0000_0000
  {
    var q, r := 8 * n / 0x1_0000_0000, 8 * n % 0x1_0000_0000;
    assert r % 8 == 0;
    hide Low, High;
    WordsOf(8 * n, q, r);
    if r + 8 == 0x1_0000_0000 {
      WordsOf(8 * (n + 1), q + 1, 0);
      HighCarry(q);
    } else {
      WordsOf(8 * (n + 1), q, r + 8);
    }
  }

  lemma HighCarry(q: nat)
    ensures (q + 1) % 0x1_0000_0000 == (q % 0x1_0000_0000 + 1) % 0x1_0000_0000
  {
  }

  lemma NothingFed()
    ensures Blocks([]) == H0 && Low(0) == 0 && High(0) == 0
  {
  }

  lemma FilledNone(buf: seq<bv32>)
    requires |buf| == 80
    ensures Filled(buf, buf[0], [])
  {
  }

  lemma BlocksMore(fed: seq<bv8>, blen: nat, b: bv8)
    requires blen <= |fed|
    ensures (fed + [b])[..|fed + [b]| - (blen + 1)] == fed[..|fed| - blen]
  {
  }

  lemma BlocksWhole(fed: seq<bv8>)
    requires |fed| >= 64 && |fed| % 64 == 0
    ensures Blocks(fed) == Process(Blocks(fed[..|fed| - 64]), Words(fed[|fed| - 64..]))
  {
    hide Process, Words;
  }
}

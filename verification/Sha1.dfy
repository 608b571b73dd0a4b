/** RFC 3174 on byte sequences: sections 4 (padding), 5 (functions and constants) and 6.1 (method 1). */
module Sha1 {

  datatype Five = Five(a: bv32, b: bv32, c: bv32, d: bv32, e: bv32)

  // ----- section 5

  /** S^n(X), the circular left shift, for the three amounts in use. */
  function Shift1(x: bv32): bv32 {
    (x << 1) | (x >> 31)
  }

  function Shift5(x: bv32): bv32 {
    (x << 5) | (x >> 27)
  }

  function Shift30(x: bv32): bv32 {
    (x << 30) | (x >> 2)
  }

  function Ch(b: bv32, c: bv32, d: bv32): bv32 {
    (b & c) | (!b & d)
  }

  function Parity(b: bv32, c: bv32, d: bv32): bv32 {
    b ^ c ^ d
  }

  function Maj(b: bv32, c: bv32, d: bv32): bv32 {
    (b & c) | (b & d) | (c & d)
  }

  function F(t: nat, b: bv32, c: bv32, d: bv32): bv32 {
    if t < 20 then Ch(b, c, d)
    else if t < 40 then Parity(b, c, d)
    else if t < 60 then Maj(b, c, d)
    else Parity(b, c, d)
  }

  function K(t: nat): bv32 {
    if t < 20 then 0x5A827999
    else if t < 40 then 0x6ED9EBA1
    else if t < 60 then 0x8F1BBCDC
    else 0xCA62C1D6
  }

  // ----- section 6.1

  /** Step b. */
  function Mix(w3: bv32, w8: bv32, w14: bv32, w16: bv32): bv32 {
    Shift1(w3 ^ w8 ^ w14 ^ w16)
  }

  /** The message schedule of a block of sixteen words. */
  function W(block: seq<bv32>, t: nat): bv32
    requires |block| == 16
  {
    if t < 16 then block[t]
    else Mix(W(block, t - 3), W(block, t - 8), W(block, t - 14), W(block, t - 16))
  }

  /** Step d: one round. */
  function Round(t: nat, s: Five, w: bv32): Five {
    Five(Temp(Shift5(s.a), F(t, s.b, s.c, s.d), s.e, w, K(t)), s.a, Shift30(s.b), s.c, s.d)
  }

  function Temp(a: bv32, f: bv32, e: bv32, w: bv32, k: bv32): bv32 {
    a + f + e + w + k
  }

  function Rounds(h: Five, block: seq<bv32>, t: nat): Five
    requires |block| == 16
  {
    if t == 0 then h else Round(t - 1, Rounds(h, block, t - 1), W(block, t - 1))
  }

  function Sum(h: Five, s: Five): Five {
    Five(h.a + s.a, h.b + s.b, h.c + s.c, h.d + s.d, h.e + s.e)
  }

  function Process(h: Five, block: seq<bv32>): Five
    requires |block| == 16
  {
    Sum(h, Rounds(h, block, 80))
  }

  lemma ScheduleStep(block: seq<bv32>, t: nat)
    requires |block| == 16 && t >= 16
    ensures W(block, t) == Mix(W(block, t - 3), W(block, t - 8), W(block, t - 14), W(block, t - 16))
  {
    hide Mix;
  }

  lemma ScheduleStart(block: seq<bv32>, t: nat)
    requires |block| == 16 && t < 16
    ensures W(block, t) == block[t]
  {
  }

  lemma RoundsStep(h: Five, block: seq<bv32>, t: nat)
    requires |block| == 16
    ensures Rounds(h, block, t + 1) == Round(t, Rounds(h, block, t), W(block, t))
    ensures Rounds(h, block, 0) == h
  {
  }

  const H0 := Five(0x67452301, 0xEFCDAB89, 0x98BADCFE, 0x10325476, 0xC3D2E1F0)

  /** Four bytes to a word, the first the most significant. */
  function Word(b0: bv8, b1: bv8, b2: bv8, b3: bv8): bv32 {
    (b0 as bv32 << 24) | (b1 as bv32 << 16) | (b2 as bv32 << 8) | b3 as bv32
  }

  function Words(bytes: seq<bv8>): (ws: seq<bv32>)
    requires |bytes| % 4 == 0
    ensures |ws| == |bytes| / 4
  {
    seq(|bytes| / 4, i requires 0 <= i < |bytes| / 4 => Word(bytes[4 * i], bytes[4 * i + 1], bytes[4 * i + 2], bytes[4 * i + 3]))
  }

  /** All blocks of a padded message. */
  function Blocks(msg: seq<bv8>): Five
    requires |msg| % 64 == 0
  {
    if msg == [] then H0 else Process(Blocks(msg[..|msg| - 64]), Words(msg[|msg| - 64..]))
  }

  // ----- section 4

  /** How many zero bytes follow the 1 bit: as few as leave room for the length in the last block. */
  function ZeroCount(n: nat): (k: nat)
    ensures k < 64 && (n + 1 + k) % 64 == 56
  {
    var r := (n + 1) % 64;
    if r <= 56 then 56 - r else 120 - r
  }

  function Zeros(k: nat): (zs: seq<bv8>)
    ensures |zs| == k
  {
    seq(k, i => 0)
  }

  /** The eight bytes of a 64-bit number, the most significant first. */
  function LengthBytes(n: nat): (bs: seq<bv8>)
    ensures |bs| == 8
  {
    Bytes4(n / 0x1_0000_0000 % 0x1_0000_0000) + Bytes4(n % 0x1_0000_0000)
  }

  function Bytes4(n: nat): (bs: seq<bv8>)
    requires n < 0x1_0000_0000
    ensures |bs| == 4
  {
    [(n / 0x100_0000) as bv8, (n / 0x1_0000 % 0x100) as bv8, (n / 0x100 % 0x100) as bv8, (n % 0x100) as bv8]
  }

  function Pad(msg: seq<bv8>): (padded: seq<bv8>)
    ensures |padded| % 64 == 0
  {
    PadLength(|msg|);
    msg + Padding(|msg|)
  }

  function Padding(n: nat): (bytes: seq<bv8>)
    ensures |bytes| == 1 + ZeroCount(n) + 8
  {
    [0x80] + Zeros(ZeroCount(n)) + LengthBytes(8 * n)
  }

  lemma PadLength(n: nat)
    ensures (n + (1 + ZeroCount(n) + 8)) % 64 == 0
  {
    var x := n + 1 + ZeroCount(n);
    assert x % 64 == 56;
    assert (x + 8) % 64 == 0;
  }

  function Digest(msg: seq<bv8>): Five {
    Blocks(Pad(msg))
  }

  // ----- words as they are filled

  /** Pushing a byte into a word from the right. */
  function PushByte(w: bv32, b: bv8): bv32 {
    (w << 8) | b as bv32
  }

  /** After four pushes nothing is left of what was in the word. */
  lemma FourPushes(w: bv32, b0: bv8, b1: bv8, b2: bv8, b3: bv8)
    ensures PushByte(PushByte(PushByte(PushByte(w, b0), b1), b2), b3) == Word(b0, b1, b2, b3)
  {
  }
}

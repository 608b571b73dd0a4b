/** cdogBase64.c against section 4 of RFC 4648. Bytes are numbers below 256; shifts and masks are
    written as arithmetic, and `|` is defined bit by bit. */
module Base64 {

  // ----- bitwise or

  function Or(a: nat, b: nat): nat {
    if a == 0 && b == 0 then 0
    else 2 * Or(a / 2, b / 2) + if a % 2 == 1 || b % 2 == 1 then 1 else 0
  }

  function Power2(k: nat): (p: nat)
    ensures p > 0
  {
    if k == 0 then 1 else 2 * Power2(k - 1)
  }

  lemma {:induction false} OrNothing(a: nat)
    ensures Or(a, 0) == a && Or(0, a) == a
  {
    if a > 0 {
      OrNothing(a / 2);
    }
  }

  /** Where no bits meet, `|` adds. */
  lemma {:induction false} OrAdds(high: nat, low: nat, k: nat)
    requires low < Power2(k)
    ensures Or(high * Power2(k), low) == high * Power2(k) + low
    ensures Or(low, high * Power2(k)) == high * Power2(k) + low
  {
    if k == 0 {
      OrNothing(high);
    } else {
      var p := Power2(k - 1);
      assert high * Power2(k) == 2 * (high * p);
      OrAdds(high, low / 2, k - 1);
    }
  }

  lemma Or2(high: nat, low: nat)
    requires low < 4
    ensures Or(high * 4, low) == Or(low, high * 4) == high * 4 + low
  {
    assert Power2(2) == 4;
    OrAdds(high, low, 2);
  }

  lemma Or4(high: nat, low: nat)
    requires low < 16
    ensures Or(high * 16, low) == Or(low, high * 16) == high * 16 + low
  {
    assert Power2(4) == 16;
    OrAdds(high, low, 4);
  }

  lemma Or6(high: nat, low: nat)
    requires low < 64
    ensures Or(high * 64, low) == Or(low, high * 64) == high * 64 + low
  {
    assert Power2(6) == 64;
    OrAdds(high, low, 6);
  }

  // ----- the alphabet, table 1

  function Letter(v: nat): char
    requires v < 64
  {
    if v < 26 then 'A' + v as char
    else if v < 52 then 'a' + (v - 26) as char
    else if v < 62 then '0' + (v - 52) as char
    else if v == 62 then '+' else '/'
  }

  /** strchr in the alphabet; a character that is not there counts as the first. */
  function Value(c: char): (v: nat)
    ensures v < 64
  {
    if 'A' <= c <= 'Z' then (c - 'A') as nat
    else if 'a' <= c <= 'z' then (c - 'a') as nat + 26
    else if '0' <= c <= '9' then (c - '0') as nat + 52
    else if c == '+' then 62
    else if c == '/' then 63
    else 0
  }

  lemma ValueOfLetter(v: nat)
    requires v < 64
    ensures Value(Letter(v)) == v && Letter(v) != '\0' && Letter(v) != '='
  {
  }

  // ----- section 4: 24-bit groups

  predicate Bytes(bs: seq<nat>) {
    forall i :: 0 <= i < |bs| ==> bs[i] < 256
  }

  /** Four letters of six bits each for a group of 24 bits. */
  function Group(v: nat): (s: string)
    requires v < 0x100_0000
    ensures |s| == 4
  {
    [Letter(v / 0x4_0000), Letter(v / 0x1000 % 64), Letter(v / 64 % 64), Letter(v % 64)]
  }

  function Join3(b0: nat, b1: nat, b2: nat): (v: nat)
    requires b0 < 256 && b1 < 256 && b2 < 256
    ensures v < 0x100_0000
  {
    b0 * 0x1_0000 + b1 * 0x100 + b2
  }

  /** The encoding: a short last group is filled with zero bits, and its missing letters are `=`. */
  function Encode(bs: seq<nat>): string
    requires Bytes(bs)
  {
    if bs == [] then ""
    else if |bs| == 1 then Group(Join3(bs[0], 0, 0))[..2] + "=="
    else if |bs| == 2 then Group(Join3(bs[0], bs[1], 0))[..3] + "="
    else Group(Join3(bs[0], bs[1], bs[2])) + Encode(bs[3..])
  }

  /** Three bytes for four values of six bits; of a short last group only the whole bytes. */
  function Decode(vs: seq<nat>): (bs: seq<nat>)
    requires Sextets(vs)
    ensures |bs| == |vs| * 6 / 8
  {
    if |vs| < 4 then Three(vs)[..|vs| * 6 / 8]
    else Three(vs[..4]) + Decode(vs[4..])
  }

  /** The bytes of up to four values, as if the others were 0. */
  function Three(vs: seq<nat>): (bs: seq<nat>)
    requires |vs| <= 4 && Sextets(vs)
    ensures |bs| == 3
  {
    Split3(At(vs, 0) * 0x4_0000 + At(vs, 1) * 0x1000 + At(vs, 2) * 64 + At(vs, 3))
  }

  function Split3(v: nat): (bs: seq<nat>)
    ensures |bs| == 3
  {
    [v / 0x1_0000, v / 0x100 % 0x100, v % 0x100]
  }

  function At(vs: seq<nat>, i: nat): nat {
    if i < |vs| then vs[i] else 0
  }

  function Values(s: string): (vs: seq<nat>)
    ensures |vs| == |s| && Sextets(vs) && forall i :: 0 <= i < |vs| ==> vs[i] == Value(s[i])
  {
    if s == "" then [] else [Value(s[0])] + Values(s[1..])
  }

  /** Zero bytes up to a multiple of three. */
  function Filled(bs: seq<nat>): seq<nat> {
    if |bs| % 3 == 0 then bs else if |bs| % 3 == 1 then bs + [0, 0] else bs + [0]
  }

  lemma Quotient(v: nat, n: nat, q: nat, r: nat)
    requires n in {64, 0x1000, 0x4_0000, 0x100, 0x1_0000} && v == q * n + r && r < n
    ensures v / n == q && v % n == r
  {
  }

  /** The four six-bit digits of a number. */
  lemma Digits64(s0: nat, s1: nat, s2: nat, s3: nat)
    requires s0 < 64 && s1 < 64 && s2 < 64 && s3 < 64
    ensures var v := s0 * 0x4_0000 + s1 * 0x1000 + s2 * 64 + s3;
      v / 0x4_0000 == s0 && v / 0x1000 % 64 == s1 && v / 64 % 64 == s2 && v % 64 == s3
  {
    var v := s0 * 0x4_0000 + s1 * 0x1000 + s2 * 64 + s3;
    Quotient(v, 0x4_0000, s0, s1 * 0x1000 + s2 * 64 + s3);
    Quotient(v, 0x1000, s0 * 64 + s1, s2 * 64 + s3);
    Quotient(v, 64, s0 * 0x1000 + s1 * 64 + s2, s3);
    Quotient(s0 * 64 + s1, 64, s0, s1);
    Quotient(s0 * 0x1000 + s1 * 64 + s2, 64, s0 * 64 + s1, s2);
  }

  /** The three eight-bit digits of a number. */
  lemma Digits256(b0: nat, b1: nat, b2: nat)
    requires b0 < 256 && b1 < 256 && b2 < 256
    ensures var v := Join3(b0, b1, b2); v / 0x1_0000 == b0 && v / 0x100 % 0x100 == b1 && v % 0x100 == b2
  {
    var v := Join3(b0, b1, b2);
    Quotient(v, 0x1_0000, b0, b1 * 0x100 + b2);
    Quotient(v, 0x100, b0 * 0x100 + b1, b2);
    Quotient(b0 * 0x100 + b1, 0x100, b0, b1);
  }

  /** What the encoder's shifts compute. */
  lemma GroupSplits(b0: nat, b1: nat, b2: nat)
    requires b0 < 256 && b1 < 256 && b2 < 256
    ensures var s1, s2 := b0 % 4 * 16 + b1 / 16, b1 % 16 * 4 + b2 / 64;
      && s1 < 64 && s2 < 64
      && Join3(b0, b1, b2) == (b0 / 4) * 0x4_0000 + s1 * 0x1000 + s2 * 64 + b2 % 64
      && Group(Join3(b0, b1, b2)) == [Letter(b0 / 4), Letter(s1), Letter(s2), Letter(b2 % 64)]
  {
    hide Letter;
    Digits64(b0 / 4, b0 % 4 * 16 + b1 / 16, b1 % 16 * 4 + b2 / 64, b2 % 64);
  }

  // ----- round trip

  lemma {:induction false} ValuesConcat(s: string, t: string)
    ensures Values(s + t) == Values(s) + Values(t)
  {
    hide Value;
  }

  predicate Sextets(vs: seq<nat>) {
    forall i :: 0 <= i < |vs| ==> vs[i] < 64
  }

  lemma LettersValues(s0: nat, s1: nat, s2: nat, s3: nat)
    requires s0 < 64 && s1 < 64 && s2 < 64 && s3 < 64
    ensures Values([Letter(s0), Letter(s1), Letter(s2), Letter(s3)]) == [s0, s1, s2, s3]
  {
    hide Letter, Value;
    ValueOfLetter(s0);
    ValueOfLetter(s1);
    ValueOfLetter(s2);
    ValueOfLetter(s3);
  }

  lemma ThreeIs(s0: nat, s1: nat, s2: nat, s3: nat, b0: nat, b1: nat, b2: nat)
    requires s0 < 64 && s1 < 64 && s2 < 64 && s3 < 64 && b0 < 256 && b1 < 256 && b2 < 256
    requires Join3(b0, b1, b2) == s0 * 0x4_0000 + s1 * 0x1000 + s2 * 64 + s3
    ensures Three([s0, s1, s2, s3]) == [b0, b1, b2]
  {
    hide Split3, Join3;
    SplitJoin(b0, b1, b2);
  }

  lemma SplitJoin(b0: nat, b1: nat, b2: nat)
    requires b0 < 256 && b1 < 256 && b2 < 256
    ensures Split3(Join3(b0, b1, b2)) == [b0, b1, b2]
  {
    hide Join3;
    Digits256(b0, b1, b2);
  }

  lemma DecodeGroup(b0: nat, b1: nat, b2: nat)
    requires b0 < 256 && b1 < 256 && b2 < 256
    ensures Three(Values(Group(Join3(b0, b1, b2)))) == [b0, b1, b2]
  {
    hide Letter, Value, Values, Three, Group, Join3;
    GroupSplits(b0, b1, b2);
    var s0, s1, s2, s3 := b0 / 4, b0 % 4 * 16 + b1 / 16, b1 % 16 * 4 + b2 / 64, b2 % 64;
    SmallDigits(b0, b2);
    LettersValues(s0, s1, s2, s3);
    ThreeIs(s0, s1, s2, s3, b0, b1, b2);
  }

  lemma SmallDigits(b0: nat, b2: nat)
    requires b0 < 256
    ensures b0 / 4 < 64 && b2 % 64 < 64
  {
  }

  lemma SameValues(s: string, t: string)
    requires |s| == |t| && forall i :: 0 <= i < |s| ==> Value(s[i]) == Value(t[i])
    ensures Values(s) == Values(t)
  {
    hide Value;
  }

  /** A short last group decodes as if its missing bytes were there and zero. */
  lemma ShortGroup(b0: nat, b1: nat, n: nat)
    requires b0 < 256 && b1 < 256 && 2 <= n <= 3 && (n == 2 ==> b1 == 0)
    ensures Values(Group(Join3(b0, b1, 0))[..n] + (if n == 2 then "==" else "=")) == Values(Group(Join3(b0, b1, 0)))
  {
    hide Letter, Group, Join3, Values, Value;
    GroupSplits(b0, b1, 0);
    NoBits();
    var g := Group(Join3(b0, b1, 0));
    SameValues(g[..n] + (if n == 2 then "==" else "="), g);
  }

  lemma NoBits()
    ensures Value('=') == Value(Letter(0)) == 0
  {
  }

  lemma DecodeFour(vs: seq<nat>, rest: seq<nat>)
    requires |vs| == 4 && Sextets(vs) && Sextets(rest)
    ensures Sextets(vs + rest) && Decode(vs + rest) == Three(vs) + Decode(rest)
  {
    hide Three;
    assert (vs + rest)[..4] == vs && (vs + rest)[4..] == rest;
  }

  lemma EncodeParts(bs: seq<nat>)
    requires Bytes(bs) && bs != []
    ensures |bs| == 1 ==> Encode(bs) == Group(Join3(bs[0], 0, 0))[..2] + "=="
    ensures |bs| == 2 ==> Encode(bs) == Group(Join3(bs[0], bs[1], 0))[..3] + "="
    ensures |bs| >= 3 ==> Encode(bs) == Group(Join3(bs[0], bs[1], bs[2])) + Encode(bs[3..])
  {
    hide Group, Join3;
  }

  lemma FilledParts(bs: seq<nat>)
    ensures |bs| == 1 ==> Filled(bs) == [bs[0], 0, 0]
    ensures |bs| == 2 ==> Filled(bs) == [bs[0], bs[1], 0]
    ensures |bs| >= 3 ==> Filled(bs) == [bs[0], bs[1], bs[2]] + Filled(bs[3..])
  {
    if |bs| >= 3 {
      assert bs == [bs[0], bs[1], bs[2]] + bs[3..];
      assert |bs[3..]| % 3 == |bs| % 3;
    }
  }

  /** Decoding an encoding gives the bytes, and zeros up to a multiple of three. */
  lemma {:induction false} DecodeEncode(bs: seq<nat>)
    requires Bytes(bs)
    ensures Decode(Values(Encode(bs))) == Filled(bs)
  {
    hide Group, Three, Value, Values, Join3, Encode, Decode, Filled;
    if bs == [] {
      NothingCoded();
    } else {
      var b1, b2 := if |bs| > 1 then bs[1] else 0, if |bs| > 2 then bs[2] else 0;
      var g := Group(Join3(bs[0], b1, b2));
      EncodeParts(bs);
      FilledParts(bs);
      DecodeGroup(bs[0], b1, b2);
      if |bs| >= 3 {
        DecodeEncode(bs[3..]);
        ValuesConcat(g, Encode(bs[3..]));
        DecodeFour(Values(g), Values(Encode(bs[3..])));
      } else {
        ShortGroup(bs[0], b1, |bs| + 1);
        DecodeFour(Values(g), []);
        assert Values(g) + [] == Values(g);
        NothingCoded();
      }
    }
  }

  lemma NothingCoded()
    ensures Values(Encode([])) == [] && Decode([]) == [] && Filled([]) == []
  {
  }

  // ----- base64_encode

  lemma {:induction false} EncodeLength(bs: seq<nat>)
    requires Bytes(bs)
    ensures |Encode(bs)| == (|bs| + 2) / 3 * 4 < |bs| * 8 / 6 + 4
  {
    hide Group, Join3, Encode;
    if bs == [] {
      NothingCoded();
      assert Encode([]) == "" by { EncodeNothing(); }
    } else {
      EncodeParts(bs);
      if |bs| >= 3 {
        EncodeLength(bs[3..]);
        EncodeRoom(|bs|);
      }
    }
  }

  lemma EncodeNothing()
    ensures Encode([]) == ""
  {
  }

  lemma EncodeRoom(n: nat)
    requires n >= 3
    ensures (n + 2) / 3 == (n - 3 + 2) / 3 + 1 && (n + 2) / 3 * 4 < n * 8 / 6 + 4
  {
  }

  /** The body of the loop of base64_encode. */
  method WriteGroup(ret: array<char>, res: nat, b0: nat, b1: nat, b2: nat)
    requires res + 4 <= ret.Length && b0 < 256 && b1 < 256 && b2 < 256
    modifies ret
    ensures ret[..res + 4] == old(ret[..res]) + Group(Join3(b0, b1, b2))
  {
    hide Letter, Group, Join3, Or;
    SmallDigits(b0, b2);
    Shifts(b0, b1, b2);
    GroupSplits(b0, b1, b2);
    ret[res] := Letter(b0 / 4);
    var t := b0 % 4 * 16;
    ret[res + 1] := Letter(Or(t, b1 / 16));
    t := b1 % 16 * 4;
    ret[res + 2] := Letter(Or(t, b2 / 64));
    ret[res + 3] := Letter(b2 % 64);
  }

  lemma Shifts(b0: nat, b1: nat, b2: nat)
    requires b0 < 256 && b1 < 256 && b2 < 256
    ensures Or(b0 % 4 * 16, b1 / 16) == b0 % 4 * 16 + b1 / 16 < 64
    ensures Or(b1 % 16 * 4, b2 / 64) == b1 % 16 * 4 + b2 / 64 < 64
  {
    Or4(b0 % 4, b1 / 16);
    Or2(b1 % 16, b2 / 64);
  }

  /** The last group, of one or two bytes. */
  method WriteShort(ret: array<char>, res: nat, b0: nat, b1: nat, n: nat)
    requires res + 4 <= ret.Length && b0 < 256 && b1 < 256 && 1 <= n <= 2 && (n == 1 ==> b1 == 0)
    modifies ret
    ensures ret[..res + 4] == old(ret[..res]) + Group(Join3(b0, b1, 0))[..n + 1] + (if n == 1 then "==" else "=")
  {
    hide Letter, Group, Join3, Or;
    SmallDigits(b0, 0);
    Shifts(b0, b1, 0);
    GroupSplits(b0, b1, 0);
    ret[res] := Letter(b0 / 4);
    if n == 2 {
      var t := b0 % 4 * 16;
      ret[res + 1] := Letter(Or(t, b1 / 16));
      ret[res + 2] := Letter(b1 % 16 * 4);
      ret[res + 3] := '=';
    } else {
      ret[res + 1] := Letter(b0 % 4 * 16);
      ret[res + 2] := '=';
      ret[res + 3] := '=';
    }
  }

  /** base64_encode, on the bytes it is to encode: len of them, or those before the NUL when len is 0. */
  method Base64Encode(buf: seq<nat>) returns (save: array<char>)
    requires Bytes(buf)
    ensures fresh(save) && save.Length == |buf| * 8 / 6 + 4 > |Encode(buf)|
    ensures save[..|Encode(buf)|] == Encode(buf) && save[|Encode(buf)|] == '\0'
  {
    hide Group, Join3, Encode, Letter;
    EncodeLength(buf);
    save := new char[|buf| * 8 / 6 + 4];
    var k, res := 0, 0;
    assert buf[0..] == buf;
    while 3 * k + 2 < |buf|
      invariant 3 * k <= |buf| && res == 4 * k && res <= |Encode(buf)|
      invariant save[..res] + Encode(buf[3 * k..]) == Encode(buf)
    {
      var rest := buf[3 * k..];
      EncodeParts(rest);
      assert rest[3..] == buf[3 * (k + 1)..];
      WriteGroup(save, res, rest[0], rest[1], rest[2]);
      res := res + 4;
      k := k + 1;
    }
    var rest := buf[3 * k..];
    if rest != [] {
      EncodeParts(rest);
      WriteShort(save, res, rest[0], if |rest| == 2 then rest[1] else 0, |rest|);
      res := res + 4;
    } else {
      EncodeNothing();
    }
    assert save[..res] == Encode(buf);
    save[res] := '\0';
  }

  // ----- base64_decode

  lemma ThreeFormula(g: seq<nat>)
    requires |g| <= 4 && Sextets(g)
    ensures var s0, s1, s2, s3 := At(g, 0), At(g, 1), At(g, 2), At(g, 3);
      Three(g) == [s0 * 4 + s1 / 16, s1 % 16 * 16 + s2 / 4, s2 % 4 * 64 + s3]
  {
    hide Split3;
    var s0, s1, s2, s3 := At(g, 0), At(g, 1), At(g, 2), At(g, 3);
    assert s0 < 64 && s1 < 64 && s2 < 64 && s3 < 64;
    SplitJoin(s0 * 4 + s1 / 16, s1 % 16 * 16 + s2 / 4, s2 % 4 * 64 + s3);
  }

  /** Shifts to the left that leave the byte. */
  lemma LeftShifts(v: nat)
    requires v < 64
    ensures v * 4 % 256 == v * 4 && v * 16 % 256 == v % 16 * 16 && v * 64 % 256 == v % 4 * 64
  {
    Quotient(v * 16, 0x100, v / 16, v % 16 * 16);
    Quotient(v * 64, 0x100, v / 4, v % 4 * 64);
  }

  lemma Three1(v: nat)
    requires v < 64
    ensures Three([]) == [0, 0, 0] && Three([v]) == [Or(0, v * 4 % 256), 0, 0]
  {
    hide Three, Or;
    ThreeFormula([]);
    ThreeFormula([v]);
    LeftShifts(v);
    OrNothing(v * 4);
  }

  lemma Three2(s0: nat, v: nat)
    requires s0 < 64 && v < 64
    ensures Three([s0]) == [s0 * 4, 0, 0] && Three([s0, v]) == [Or(s0 * 4, v / 16), Or(0, v * 16 % 256), 0]
  {
    hide Three, Or;
    ThreeFormula([s0]);
    ThreeFormula([s0, v]);
    LeftShifts(v);
    OrNothing(v % 16 * 16);
    Or2(s0, v / 16);
  }

  lemma Three3(s0: nat, s1: nat, v: nat)
    requires s0 < 64 && s1 < 64 && v < 64
    ensures Three([s0, s1]) == [s0 * 4 + s1 / 16, s1 % 16 * 16, 0]
    ensures Three([s0, s1, v]) == [s0 * 4 + s1 / 16, Or(s1 % 16 * 16, v / 4), Or(0, v * 64 % 256)]
  {
    hide Three, Or;
    ThreeFormula([s0, s1]);
    ThreeFormula([s0, s1, v]);
    LeftShifts(v);
    OrNothing(v % 4 * 64);
    Or4(s1 % 16, v / 4);
  }

  lemma Three4(s0: nat, s1: nat, s2: nat, v: nat)
    requires s0 < 64 && s1 < 64 && s2 < 64 && v < 64
    ensures Three([s0, s1, s2]) == [s0 * 4 + s1 / 16, s1 % 16 * 16 + s2 / 4, s2 % 4 * 64]
    ensures Three([s0, s1, s2, v]) == [s0 * 4 + s1 / 16, s1 % 16 * 16 + s2 / 4, Or(s2 % 4 * 64, v)]
  {
    hide Three, Or;
    ThreeFormula([s0, s1, s2]);
    ThreeFormula([s0, s1, s2, v]);
    Or6(s2 % 4, v);
  }

  /** One value more: the two bytes that the code changes, and how. */
  lemma ThreeStep(g: seq<nat>, v: nat)
    requires |g| < 4 && Sextets(g) && v < 64
    ensures Sextets(g + [v])
    ensures var a, b := Three(g), Three(g + [v]);
      && (|g| == 0 ==> a == [0, 0, 0] && b == [Or(a[0], v * 4 % 256), 0, 0])
      && (|g| == 1 ==> a[1] == a[2] == 0 && b == [Or(a[0], v / 16), Or(a[1], v * 16 % 256), 0])
      && (|g| == 2 ==> a[2] == 0 && b == [a[0], Or(a[1], v / 4), Or(a[2], v * 64 % 256)])
      && (|g| == 3 ==> b == [a[0], a[1], Or(a[2], v)])
  {
    hide Three, Or;
    if |g| == 0 {
      Three1(v);
      assert g == [] && g + [v] == [v];
    } else if |g| == 1 {
      Three2(g[0], v);
      assert g == [g[0]] && g + [v] == [g[0], v];
    } else if |g| == 2 {
      Three3(g[0], g[1], v);
      assert g == [g[0], g[1]] && g + [v] == [g[0], g[1], v];
    } else {
      Three4(g[0], g[1], g[2], v);
      assert g == [g[0], g[1], g[2]] && g + [v] == [g[0], g[1], g[2], v];
    }
  }

  /** The memory while group k is being read: whole groups, then the group so far as if the rest were 0. */
  ghost predicate Decoding(mem: seq<nat>, vs: seq<nat>, k: nat, i: nat)
    requires Sextets(vs)
  {
    && 4 * k <= i <= |vs| && i <= 4 * k + 3 && |mem| == |vs| * 6 / 8 + 1
    && Sextets(vs[..4 * k]) && Sextets(vs[4 * k..i]) && mem[..3 * k] == Decode(vs[..4 * k])
    && forall j :: 3 * k <= j < |mem| ==> mem[j] == if j < 3 * k + 3 then Three(vs[4 * k..i])[j - 3 * k] else 0
  }

  lemma {:induction false} DecodeParts(vs: seq<nat>, k: nat)
    requires Sextets(vs) && 4 * k <= |vs| <= 4 * k + 4
    ensures Sextets(vs[..4 * k]) && Sextets(vs[4 * k..])
    ensures Decode(vs) == Decode(vs[..4 * k]) + Three(vs[4 * k..])[..(|vs| - 4 * k) * 6 / 8]
  {
    hide Three;
    if k == 0 {
      assert vs[..0] == [] && vs[0..] == vs;
      if |vs| == 4 {
        assert vs[..4] == vs && vs[4..] == [];
        assert Decode([]) == [];
      }
    } else {
      var rest := vs[4..];
      DecodeParts(rest, k - 1);
      assert rest[..4 * (k - 1)] == vs[..4 * k][4..] && rest[4 * (k - 1)..] == vs[4 * k..];
      assert vs[..4 * k][..4] == vs[..4];
    }
  }

  /** What the switch of base64_decode does to the memory. */
  function Stepped(mem: seq<nat>, res: nat, index: nat, val: nat): (after: seq<nat>)
    requires index < 4 && res < |mem| && (index == 1 || index == 2 ==> res + 1 < |mem|)
    ensures |after| == |mem|
  {
    if index == 0 then mem[res := Or(mem[res], val * 4 % 256)]
    else if index == 1 then mem[res := Or(mem[res], val / 16)][res + 1 := Or(mem[res + 1], val * 16 % 256)]
    else if index == 2 then mem[res := Or(mem[res], val / 4)][res + 1 := Or(mem[res + 1], val * 64 % 256)]
    else mem[res := Or(mem[res], val)]
  }

  /** Where the output pointer is. */
  function Res(k: nat, index: nat): nat {
    3 * k + if index <= 1 then 0 else index - 1
  }

  lemma InBounds(n: nat, k: nat, index: nat)
    requires index < 4 && 4 * k + index < n
    ensures Res(k, index) < n * 6 / 8 + 1
    ensures index == 1 || index == 2 ==> Res(k, index) + 1 < n * 6 / 8 + 1
  {
  }

  /** What is in front of the output pointer stays. */
  lemma SteppedKeeps(mem: seq<nat>, res: nat, index: nat, val: nat, n: nat)
    requires index < 4 && n <= res < |mem| && (index == 1 || index == 2 ==> res + 1 < |mem|)
    ensures Stepped(mem, res, index, val)[..n] == mem[..n] && |Stepped(mem, res, index, val)| == |mem|
  {
    hide Or;
  }

  lemma DecodingStep(mem: seq<nat>, vs: seq<nat>, k: nat, index: nat)
    requires Sextets(vs) && index < 4 && 4 * k + index < |vs| && Decoding(mem, vs, k, 4 * k + index)
    ensures Res(k, index) < |mem| && (index == 1 || index == 2 ==> Res(k, index) + 1 < |mem|)
    ensures var after := Stepped(mem, Res(k, index), index, vs[4 * k + index]);
      Decoding(after, vs, if index == 3 then k + 1 else k, 4 * k + index + 1)
  {
    hide Or, Three, Decode;
    var i := 4 * k + index;
    InBounds(|vs|, k, index);
    var g, v := vs[4 * k..i], vs[i];
    ThreeStep(g, v);
    assert vs[4 * k..i + 1] == g + [v];
    var after := Stepped(mem, Res(k, index), index, v);
    SteppedKeeps(mem, Res(k, index), index, v, 3 * k);
    if index == 3 {
      GroupDone(mem, after, vs, k);
    }
  }

  lemma GroupDone(mem: seq<nat>, after: seq<nat>, vs: seq<nat>, k: nat)
    requires Sextets(vs) && 4 * k + 4 <= |vs| && |after| == |vs| * 6 / 8 + 1 && |mem| == |after|
    requires Sextets(vs[..4 * k]) && Sextets(vs[4 * k..4 * k + 4]) && after[..3 * k] == Decode(vs[..4 * k])
    requires forall j :: 3 * k <= j < |mem| ==> after[j] == if j < 3 * k + 3 then Three(vs[4 * k..4 * k + 4])[j - 3 * k] else 0
    ensures Decoding(after, vs, k + 1, 4 * k + 4)
  {
    hide Or, Three;
    var done := vs[..4 * k + 4];
    DecodeParts(done, k);
    assert done[..4 * k] == vs[..4 * k] && done[4 * k..] == vs[4 * k..4 * k + 4];
    assert Three([]) == [0, 0, 0] by { Three1(0); }
    assert vs[4 * (k + 1)..4 * k + 4] == [];
    var g := Three(vs[4 * k..4 * k + 4]);
    FourInRoom(|vs|, k);
    assert after[3 * k] == g[0] && after[3 * k + 1] == g[1] && after[3 * k + 2] == g[2];
    assert after[..3 * k + 3] == after[..3 * k] + [after[3 * k], after[3 * k + 1], after[3 * k + 2]];
    assert g == [g[0], g[1], g[2]] && g[..3] == g;
  }

  lemma FourInRoom(n: nat, k: nat)
    requires 4 * k + 4 <= n
    ensures 3 * k + 3 <= n * 6 / 8
  {
  }

  /** The NUL at the end takes the place of a byte that is not whole. */
  lemma DecodingEnds(mem: seq<nat>, vs: seq<nat>, k: nat, index: nat)
    requires Sextets(vs) && index < 4 && |vs| == 4 * k + index && Decoding(mem, vs, k, |vs|)
    ensures Res(k, index) == |mem| - 1 && mem[..|mem| - 1] == Decode(vs)
  {
    hide Or, Three, Decode;
    DecodeParts(vs, k);
    assert vs[4 * k..|vs|] == vs[4 * k..];
    var n := index * 6 / 8;
    assert |mem| == 3 * k + n + 1;
    assert mem[3 * k..3 * k + n] == Three(vs[4 * k..])[..n];
    assert mem[..|mem| - 1] == mem[..3 * k] + mem[3 * k..3 * k + n];
  }

  method DecodeValue(save: array<nat>, res: nat, index: nat, val: nat) returns (next: nat)
    requires index < 4 && res < save.Length && (index == 1 || index == 2 ==> res + 1 < save.Length)
    modifies save
    ensures save[..] == Stepped(old(save[..]), res, index, val)
    ensures next == if index == 0 then res else res + 1
  {
    hide Or;
    next := res;
    if index == 0 {
      save[next] := Or(save[next], val * 4 % 256);
    } else if index == 1 {
      save[next] := Or(save[next], val / 16);
      next := next + 1;
      save[next] := Or(save[next], val * 16 % 256);
    } else if index == 2 {
      save[next] := Or(save[next], val / 4);
      next := next + 1;
      save[next] := Or(save[next], val * 64 % 256);
    } else {
      save[next] := Or(save[next], val);
      next := next + 1;
    }
  }

  /** base64_decode, on any string: all writes are inside strlen * 6 / 8 + 1 bytes, which in the end hold the
      whole bytes and a NUL. */
  method Base64Decode(buf: string) returns (save: array<nat>)
    ensures fresh(save) && save.Length == |buf| * 6 / 8 + 1
    ensures save[..] == Decode(Values(buf)) + [0]
  {
    hide Or, Three, Decode, Value, Decoding, Stepped;
    ghost var vs := Values(buf);
    save := new nat[|buf| * 6 / 8 + 1](i => 0);
    var i: nat, index: nat, res: nat := 0, 0, 0;
    ghost var k: nat := 0;
    DecodingStarts(save[..], vs);
    while i < |buf|
      invariant index < 4 && i == 4 * k + index <= |buf| && res == Res(k, index)
      invariant save.Length == |vs| * 6 / 8 + 1 && Decoding(save[..], vs, k, i)
    {
      DecodingStep(save[..], vs, k, index);
      var val := Value(buf[i]);
      i := i + 1;
      res := DecodeValue(save, res, index, val);
      if index == 3 {
        k := k + 1;
      }
      index := (index + 1) % 4;
    }
    DecodingEnds(save[..], vs, k, index);
    save[res] := 0;
    assert save[..] == save[..|save[..]| - 1] + [0];
  }

  lemma DecodingStarts(mem: seq<nat>, vs: seq<nat>)
    requires Sextets(vs) && |mem| == |vs| * 6 / 8 + 1 && forall j :: 0 <= j < |mem| ==> mem[j] == 0
    ensures Decoding(mem, vs, 0, 0)
  {
    hide Three;
    assert vs[..0] == [] && vs[0..0] == [] && mem[..0] == [];
    Three1(0);
    assert Decode([]) == [];
  }

  /** Encode, then decode: the bytes, zeros up to a multiple of three, and a NUL. */
  method EncodeAndDecode(buf: seq<nat>) returns (save: array<nat>)
    requires Bytes(buf)
    ensures save[..] == Filled(buf) + [0]
  {
    hide Encode, Decode, Values, Filled;
    var coded := Base64Encode(buf);
    var n := 0;
    EncodedHasNoNul(buf);
    while coded[n] != '\0'
      invariant n <= |Encode(buf)|
      decreases |Encode(buf)| - n
    {
      assert coded[..|Encode(buf)|][n] == Encode(buf)[n] || n == |Encode(buf)|;
      n := n + 1;
    }
    save := Base64Decode(coded[..n]);
    DecodeEncode(buf);
  }

  lemma {:induction false} EncodedHasNoNul(bs: seq<nat>)
    requires Bytes(bs)
    ensures forall i :: 0 <= i < |Encode(bs)| ==> Encode(bs)[i] != '\0'
  {
    hide Letter, Join3, Encode;
    if bs == [] {
      EncodeNothing();
    } else {
      EncodeParts(bs);
      var b1, b2 := if |bs| > 1 then bs[1] else 0, if |bs| > 2 then bs[2] else 0;
      GroupNotNul(Join3(bs[0], b1, b2));
      if |bs| >= 3 {
        EncodedHasNoNul(bs[3..]);
      }
    }
  }

  lemma GroupNotNul(v: nat)
    requires v < 0x100_0000
    ensures forall i :: 0 <= i < 4 ==> Group(v)[i] != '\0'
  {
    hide Letter;
    ValueOfLetter(v / 0x4_0000);
    ValueOfLetter(v / 0x1000 % 64);
    ValueOfLetter(v / 64 % 64);
    ValueOfLetter(v % 64);
  }

  // ----- published examples

  /** The order of the letters in table 1 of RFC 4648. */
  lemma AlphabetOrder(v: nat)
    requires v < 64
    ensures v == 0 ==> Letter(v) == 'A'
    ensures v > 0 ==> Letter(v) == match v
      case 26 => 'a'
      case 52 => '0'
      case 62 => '+'
      case 63 => '/'
      case _ => Letter(v - 1) + 1 as char
    ensures v == 25 ==> Letter(v) == 'Z'
    ensures v == 51 ==> Letter(v) == 'z'
    ensures v == 61 ==> Letter(v) == '9'
  {
  }

  lemma GroupEncoded(b0: nat, b1: nat, b2: nat)
    requires b0 < 256 && b1 < 256 && b2 < 256
    ensures Encode([b0, b1, b2]) == Group(b0 * 0x1_0000 + b1 * 0x100 + b2)
    ensures Encode([b0, b1]) == Group(b0 * 0x1_0000 + b1 * 0x100)[..3] + "="
    ensures Encode([b0]) == Group(b0 * 0x1_0000)[..2] + "=="
  {
    hide Group;
    assert [b0, b1, b2][3..] == [];
  }

  lemma SomeLetters()
    ensures Letter(25) == 'Z' && Letter(38) == 'm' && Letter(61) == '9' && Letter(47) == 'v' && Letter(60) == '8'
    ensures Letter(0) == 'A' && Letter(32) == 'g' && Letter(24) == 'Y' && Letter(5) == 'F' && Letter(50) == 'y'
  {
  }

  lemma GroupsSpelled()
    ensures Group(0x666F6F) == "Zm9v" && Group(0x666F00) == "Zm8A" && Group(0x660000) == "ZgAA" && Group(0x626172) == "YmFy"
  {
    hide Letter;
    SomeLetters();
  }

  /** Examples of section 10 of RFC 4648, with a last group of every length. */
  lemma Examples()
    ensures Encode([0x66]) == "Zg==" && Encode([0x66, 0x6F]) == "Zm8="
    ensures Encode([0x66, 0x6F, 0x6F]) == "Zm9v" && Encode([0x66, 0x6F, 0x6F, 0x62, 0x61, 0x72]) == "Zm9vYmFy"
  {
    hide Group, Encode;
    GroupEncoded(0x66, 0x6F, 0x6F);
    GroupEncoded(0x62, 0x61, 0x72);
    GroupsSpelled();
    var bs: seq<nat> := [0x66, 0x6F, 0x6F, 0x62, 0x61, 0x72];
    EncodeParts(bs);
    assert bs[3..] == [0x62, 0x61, 0x72];
    assert "ZgAA"[..2] + "==" == "Zg==" && "Zm8A"[..3] + "=" == "Zm8=" && "Zm9v" + "YmFy" == "Zm9vYmFy";
  }

  /** A character that is no letter counts like 'A'. */
  lemma OtherCharacter(c: char)
    ensures (Letter(Value(c)) == c || Value(c) == 0) && Value('A') == 0
  {
  }

  /** Decoding the letters of "TWFu", and what is left of them when the last are missing. */
  lemma DecodedExamples()
    ensures Decode([19, 22, 5, 46]) == [0x4D, 0x61, 0x6E]
    ensures Decode([19, 22, 5]) == [0x4D, 0x61] && Decode([19, 22]) == [0x4D] && Decode([19]) == []
  {
    var vs: seq<nat> := [19, 22, 5, 46];
    assert vs[..4] == vs && vs[4..] == [];
    assert Split3(19 * 0x4_0000 + 22 * 0x1000 + 5 * 64 + 46) == [0x4D, 0x61, 0x6E];
  }
}

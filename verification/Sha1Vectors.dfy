/** The two messages with published digests: section 7.3 of RFC 3174, and the repository's own test of iks_sha. */
module Sha1Vectors {
  import opened Sha1

  // ----- computing with known words

  /** Sixteen words of a message schedule. */
  datatype Sixteen = Sixteen(
    a0: bv32, a1: bv32, a2: bv32, a3: bv32, a4: bv32, a5: bv32, a6: bv32, a7: bv32,
    a8: bv32, a9: bv32, a10: bv32, a11: bv32, a12: bv32, a13: bv32, a14: bv32, a15: bv32)

  /** The words of a schedule from t on. */
  predicate Row(block: seq<bv32>, t: nat, w: Sixteen)
    requires |block| == 16
  {
    && W(block, t) == w.a0
    && W(block, t + 1) == w.a1
    && W(block, t + 2) == w.a2
    && W(block, t + 3) == w.a3
    && W(block, t + 4) == w.a4
    && W(block, t + 5) == w.a5
    && W(block, t + 6) == w.a6
    && W(block, t + 7) == w.a7
    && W(block, t + 8) == w.a8
    && W(block, t + 9) == w.a9
    && W(block, t + 10) == w.a10
    && W(block, t + 11) == w.a11
    && W(block, t + 12) == w.a12
    && W(block, t + 13) == w.a13
    && W(block, t + 14) == w.a14
    && W(block, t + 15) == w.a15
  }

  /** The next sixteen words, eight and eight. */
  predicate FollowsLow(w: Sixteen, v: Sixteen) {
    && v.a0 == Mix(w.a13, w.a8, w.a2, w.a0)
    && v.a1 == Mix(w.a14, w.a9, w.a3, w.a1)
    && v.a2 == Mix(w.a15, w.a10, w.a4, w.a2)
    && v.a3 == Mix(v.a0, w.a11, w.a5, w.a3)
    && v.a4 == Mix(v.a1, w.a12, w.a6, w.a4)
    && v.a5 == Mix(v.a2, w.a13, w.a7, w.a5)
    && v.a6 == Mix(v.a3, w.a14, w.a8, w.a6)
    && v.a7 == Mix(v.a4, w.a15, w.a9, w.a7)
  }

  predicate FollowsHigh(w: Sixteen, v: Sixteen) {
    && v.a8 == Mix(v.a5, v.a0, w.a10, w.a8)
    && v.a9 == Mix(v.a6, v.a1, w.a11, w.a9)
    && v.a10 == Mix(v.a7, v.a2, w.a12, w.a10)
    && v.a11 == Mix(v.a8, v.a3, w.a13, w.a11)
    && v.a12 == Mix(v.a9, v.a4, w.a14, w.a12)
    && v.a13 == Mix(v.a10, v.a5, w.a15, w.a13)
    && v.a14 == Mix(v.a11, v.a6, v.a0, w.a14)
    && v.a15 == Mix(v.a12, v.a7, v.a1, w.a15)
  }

  function Four(t: nat, s: Five, w0: bv32, w1: bv32, w2: bv32, w3: bv32): Five {
    Round(t + 3, Round(t + 2, Round(t + 1, Round(t, s, w0), w1), w2), w3)
  }

  /** The states after four, eight, twelve and sixteen rounds. */
  datatype States = States(s1: Five, s2: Five, s3: Five, s4: Five)

  predicate Leads(t: nat, s: Five, w: Sixteen, r: States) {
    && Four(t, s, w.a0, w.a1, w.a2, w.a3) == r.s1
    && Four(t + 4, r.s1, w.a4, w.a5, w.a6, w.a7) == r.s2
    && Four(t + 8, r.s2, w.a8, w.a9, w.a10, w.a11) == r.s3
    && Four(t + 12, r.s3, w.a12, w.a13, w.a14, w.a15) == r.s4
  }

  lemma RowFollows(block: seq<bv32>, t: nat, w: Sixteen, v: Sixteen)
    requires |block| == 16 && Row(block, t, w) && FollowsLow(w, v) && FollowsHigh(w, v)
    ensures Row(block, t + 16, v)
  {
    hide Mix, W;
    ScheduleStep(block, t + 16);
    ScheduleStep(block, t + 17);
    ScheduleStep(block, t + 18);
    ScheduleStep(block, t + 19);
    ScheduleStep(block, t + 20);
    ScheduleStep(block, t + 21);
    ScheduleStep(block, t + 22);
    ScheduleStep(block, t + 23);
    ScheduleStep(block, t + 24);
    ScheduleStep(block, t + 25);
    ScheduleStep(block, t + 26);
    ScheduleStep(block, t + 27);
    ScheduleStep(block, t + 28);
    ScheduleStep(block, t + 29);
    ScheduleStep(block, t + 30);
    ScheduleStep(block, t + 31);
  }

  lemma FourRounds(h: Five, block: seq<bv32>, t: nat)
    requires |block| == 16
    ensures Rounds(h, block, t + 4)
         == Four(t, Rounds(h, block, t), W(block, t), W(block, t + 1), W(block, t + 2), W(block, t + 3))
  {
    hide Round, W, Rounds;
    RoundsStep(h, block, t);
    RoundsStep(h, block, t + 1);
    RoundsStep(h, block, t + 2);
    RoundsStep(h, block, t + 3);
  }

  lemma SixteenRounds(h: Five, block: seq<bv32>, t: nat, s: Five, w: Sixteen, r: States)
    requires |block| == 16 && Rounds(h, block, t) == s && Row(block, t, w) && Leads(t, s, w, r)
    ensures Rounds(h, block, t + 16) == r.s4
  {
    hide Four, W, Rounds;
    FourRounds(h, block, t);
    FourRounds(h, block, t + 4);
    FourRounds(h, block, t + 8);
    FourRounds(h, block, t + 12);
  }

  /** A row of rounds, and the next row of words. */
  lemma NextRow(h: Five, block: seq<bv32>, t: nat, s: Five, w: Sixteen, r: States, v: Sixteen)
    requires |block| == 16 && Rounds(h, block, t) == s && Row(block, t, w)
    requires Leads(t, s, w, r) && FollowsLow(w, v) && FollowsHigh(w, v)
    ensures Rounds(h, block, t + 16) == r.s4 && Row(block, t + 16, v)
  {
    hide *;
    RowFollows(block, t, w, v);
    SixteenRounds(h, block, t, s, w, r);
  }

  /** The first row of words is the block. */
  lemma FirstRow(h: Five, block: seq<bv32>, w: Sixteen)
    requires |block| == 16 && block == WordsOf(w)
    ensures Rounds(h, block, 0) == h && Row(block, 0, w)
  {
    hide W;
    ScheduleStart(block, 0);
    ScheduleStart(block, 1);
    ScheduleStart(block, 2);
    ScheduleStart(block, 3);
    ScheduleStart(block, 4);
    ScheduleStart(block, 5);
    ScheduleStart(block, 6);
    ScheduleStart(block, 7);
    ScheduleStart(block, 8);
    ScheduleStart(block, 9);
    ScheduleStart(block, 10);
    ScheduleStart(block, 11);
    ScheduleStart(block, 12);
    ScheduleStart(block, 13);
    ScheduleStart(block, 14);
    ScheduleStart(block, 15);
  }

  function WordsOf(w: Sixteen): (ws: seq<bv32>)
    ensures |ws| == 16
  {
    [w.a0, w.a1, w.a2, w.a3, w.a4, w.a5, w.a6, w.a7, w.a8, w.a9, w.a10, w.a11, w.a12, w.a13, w.a14, w.a15]
  }

  lemma ProcessIs(h: Five, block: seq<bv32>)
    requires |block| == 16
    ensures Process(h, block) == Sum(h, Rounds(h, block, 80))
  {
  }

  // ----- "abc"

  const ABC_DIGEST := Five(0xA9993E36, 0x4706816A, 0xBA3E2571, 0x7850C26C, 0x9CD0D89D)

  const ABC_W0 :=
    Sixteen(0x61626380, 0x00000000, 0x00000000, 0x00000000, 0x00000000, 0x00000000, 0x00000000, 0x00000000,
            0x00000000, 0x00000000, 0x00000000, 0x00000000, 0x00000000, 0x00000000, 0x00000000, 0x00000018)

  const ABC_W1 :=
    Sixteen(0xC2C4C700, 0x00000000, 0x00000030, 0x85898E01, 0x00000000, 0x00000060, 0x0B131C03, 0x00000030,
            0x85898EC1, 0x16263806, 0x00000000, 0x00000180, 0x2C4C700C, 0x000000F0, 0x93AFB507, 0x5898E048)

  const ABC_W2 :=
    Sixteen(0x8E9A9202, 0x00000600, 0xB131C0F0, 0x16263BC6, 0x4EBED41E, 0x626380A1, 0x16263806, 0x000018C0,
            0xD2E138C4, 0x00000F00, 0x3AFB5079, 0x898E04E5, 0xE2BA3C2B, 0x000060C0, 0x053A37CD, 0x74458547)

  const ABC_W3 :=
    Sixteen(0xDA9415ED, 0x26380A16, 0x626383A1, 0x4EBF54DE, 0x3835B44B, 0x0000F600, 0x1E84C7A3, 0x98E04D98,
            0x651D16A0, 0x62658CA1, 0x458544D6, 0x44584CB7, 0x7BA06619, 0x6380AEA2, 0x0AE55269, 0x627B49A1)

  const ABC_W4 :=
    Sixteen(0x7CD45C9D, 0x000F0000, 0xFB50753A, 0xEC6765E8, 0xBA3C2BE2, 0x0060C000, 0x3A37CD05, 0x458546F4,
            0xB8599DD6, 0x380A1A26, 0x01E02203, 0xE7CC3456, 0xE6E60B69, 0x00F60A00, 0x5795EF4F, 0x822E0879)

  const ABC_R0 := States(
    Five(0xCDD8E11B, 0xA1390F08, 0x626414DB, 0xC045BF0C, 0x59D148C0),
    Five(0x9E8C07D4, 0x993E30C1, 0x0FF1F290, 0xB3F52677, 0xF3763846),
    Five(0x63188FE4, 0xFBDA9E89, 0x60D47E4A, 0x12DAB8CA, 0x27A301F5),
    Five(0x20BDD62F, 0x196BEE77, 0x644A3DA5, 0x1181ED99, 0x18C623F9))

  const ABC_R1 := States(
    Five(0xFD9E1D7D, 0xDC64901D, 0x20AA99CA, 0xD3A49608, 0xC82F758B),
    Five(0xD541F12D, 0x21283486, 0x0CE88EFF, 0x868DEC32, 0x7F67875F),
    Five(0x4AA84D97, 0xBE35FBD5, 0x12104EE9, 0xB1D59F71, 0x75507C4B),
    Five(0x3B845D33, 0x1267B407, 0x717EEBD7, 0xA0DC2D4B, 0xD2AA1365))

  const ABC_R2 := States(
    Five(0xDCBBB0CB, 0x21796AD4, 0x4B03AF04, 0x811BEA82, 0xCEE1174C),
    Five(0x32DE1CBA, 0x4C986405, 0xF718E5CF, 0x03D447F6, 0xF72EEC32),
    Five(0xEE1B1AAF, 0x7F193DC5, 0x25C28357, 0xFF21F7B7, 0x8CB7872E),
    Five(0xBEAD02CA, 0xA01B846C, 0x8714787C, 0x503CA382, 0xFB86C6AB))

  const ABC_R3 := States(
    Five(0x3847AD66, 0x641DB2CE, 0x4481CC71, 0xEEBCE4CD, 0xAFAB40B2),
    Five(0x5E6456AF, 0x7B71F76D, 0x09FA7C76, 0x792410DB, 0x8E11EB59),
    Five(0x3F52DE5A, 0x09D785FD, 0x3498BFD4, 0xF211824F, 0xD79915AB),
    Five(0x6B61C9E1, 0xB66C020B, 0x9523272C, 0xF5D5B051, 0x8FD4B796))

  const ABC_R4 := States(
    Five(0x78DD4D2B, 0x0C3DF2B4, 0x4405957E, 0x0677E9EB, 0x5AD87278),
    Five(0x39859DE7, 0xC199F8C7, 0x8FC96230, 0x125C24F0, 0xDE37534A),
    Five(0x63F7DAB7, 0x5EE76897, 0xC45E4FDB, 0x3B6D0B79, 0xCE616779),
    Five(0x42541B35, 0x5738D5E1, 0x21834873, 0x681E6DF6, 0xD8FDF6AD))

  lemma AbcRow0()
    ensures Leads(0, H0, ABC_W0, ABC_R0)
  {
  }

  lemma AbcNext0()
    ensures FollowsLow(ABC_W0, ABC_W1)
    ensures FollowsHigh(ABC_W0, ABC_W1)
  {
  }

  lemma AbcRow1()
    ensures Leads(16, ABC_R0.s4, ABC_W1, ABC_R1)
  {
  }

  lemma AbcNext1()
    ensures FollowsLow(ABC_W1, ABC_W2)
    ensures FollowsHigh(ABC_W1, ABC_W2)
  {
  }

  lemma AbcRow2()
    ensures Leads(32, ABC_R1.s4, ABC_W2, ABC_R2)
  {
  }

  lemma AbcNext2()
    ensures FollowsLow(ABC_W2, ABC_W3)
    ensures FollowsHigh(ABC_W2, ABC_W3)
  {
  }

  lemma AbcRow3()
    ensures Leads(48, ABC_R2.s4, ABC_W3, ABC_R3)
  {
  }

  lemma AbcNext3()
    ensures FollowsLow(ABC_W3, ABC_W4)
    ensures FollowsHigh(ABC_W3, ABC_W4)
  {
  }

  lemma AbcRow4()
    ensures Leads(64, ABC_R3.s4, ABC_W4, ABC_R4)
  {
  }

  lemma AbcBlock(block: seq<bv32>)
    requires |block| == 16 && block == WordsOf(ABC_W0)
    ensures Process(H0, block) == ABC_DIGEST
  {
    hide *;
    FirstRow(H0, block, ABC_W0);
    AbcRow0();
    AbcNext0();
    NextRow(H0, block, 0, H0, ABC_W0, ABC_R0, ABC_W1);
    AbcRow1();
    AbcNext1();
    NextRow(H0, block, 16, ABC_R0.s4, ABC_W1, ABC_R1, ABC_W2);
    AbcRow2();
    AbcNext2();
    NextRow(H0, block, 32, ABC_R1.s4, ABC_W2, ABC_R2, ABC_W3);
    AbcRow3();
    AbcNext3();
    NextRow(H0, block, 48, ABC_R2.s4, ABC_W3, ABC_R3, ABC_W4);
    AbcRow4();
    SixteenRounds(H0, block, 64, ABC_R3.s4, ABC_W4, ABC_R4);
    ProcessIs(H0, block);
    AbcSum();
  }

  lemma AbcSum()
    ensures Sum(H0, ABC_R4.s4) == ABC_DIGEST
  {
  }

  // ----- the message of two blocks

  const LONG_DIGEST := Five(0x84983E44, 0x1C3BD26E, 0xBAAE4AA1, 0xF95129E5, 0xE54670F1)

  /** The five words between the blocks. */
  const LONG_MIDDLE := Five(0xF4286818, 0xC37B27AE, 0x0408F581, 0x84677148, 0x4A566572)

  const LONG_A_W0 :=
    Sixteen(0x61626364, 0x62636465, 0x63646566, 0x64656667, 0x65666768, 0x66676869, 0x6768696A, 0x68696A6B,
            0x696A6B6C, 0x6A6B6C6D, 0x6B6C6D6E, 0x6C6D6E6F, 0x6D6E6F70, 0x6E6F7071, 0x80000000, 0x00000000)

  const LONG_A_W1 :=
    Sixteen(0x0A063A3E, 0xD8DADCDF, 0xDADCDEC0, 0xC8D2B4BE, 0x6F757B5B, 0x757B5967, 0x8DA16D70, 0xDAEEFABA,
            0xFAF6CAB6, 0xA6FB675A, 0x0C604CC8, 0x604CC02C, 0x49C0E6E2, 0x2EE8CBBC, 0xCFD72EC4, 0x97E9810E)

  const LONG_A_W2 :=
    Sixteen(0x0989CBE8, 0xF24843FE, 0x5C40D0BA, 0xA8D9CC3B, 0xB2B9666E, 0xBA7B71B7, 0x20B28A72, 0xB28AF500,
            0x8AC87842, 0x289ADDF4, 0x56D51F21, 0xD96B7FD2, 0x3868E778, 0xAB5E4848, 0x7F0E2118, 0xDE87A111)

  const LONG_A_W3 :=
    Sixteen(0xE8BE56B0, 0x1A0AE652, 0xCD5611C8, 0x46EF29DC, 0x60D3DA6D, 0xDDF3BA6E, 0x2737F5E9, 0x4888A710,
            0xD2A1177B, 0x9999633B, 0xD6C69D03, 0xCCF6127B, 0x7C58FE6D, 0xFDD99C68, 0xF8E32074, 0xE0BA3C7D)

  const LONG_A_W4 :=
    Sixteen(0x152198D6, 0x7B3F1982, 0x37F2D5B7, 0x8596323E, 0x810790D6, 0xBEA0A942, 0x11C7E1B1, 0x6158D101,
            0x5FCD77D9, 0x7F2F12E6, 0xF868CFB1, 0xD6E997E9, 0xF526B852, 0xB7578DCC, 0x55D99DF4, 0x1FF69958)

  const LONG_A_R0 := States(
    Five(0x2C4F6EAC, 0x5109913A, 0xBAFCED14, 0xC045BF05, 0x59D148C0),
    Five(0x45833F0F, 0xDB04CB58, 0x65AE1462, 0xCCFD2B96, 0x0B13DBAB),
    Five(0xE19ECAA2, 0x8993EA77, 0x98D42BF6, 0xB15970D7, 0xD160CFC3),
    Five(0x42637E39, 0xB2E7A8BE, 0x4CBE52A1, 0xA180D207, 0xB867B2A8))

  const LONG_A_R1 := States(
    Five(0x6C445652, 0x944B1BD1, 0x509AE70D, 0x1AC1A012, 0x5098DF8E),
    Five(0xFD224575, 0xE2B92DC4, 0xC254445D, 0x6560DB69, 0x9B111594),
    Five(0xD526A644, 0x2972F7C7, 0x96850B06, 0xBBAE0B66, 0x7F48915D),
    Five(0x52E31F60, 0xA9C84BEC, 0x816D15EC, 0x78448908, 0x3549A991))

  const LONG_A_R2 := States(
    Five(0xAB7C32EE, 0xE9AC987C, 0x4C71D5AA, 0x16BCC90B, 0x14B8C7D8),
    Five(0xADEB7478, 0x24957F22, 0x50FE1EBA, 0x564CFF26, 0xAADF0CBB),
    Five(0x633E9561, 0xF9BCB8DE, 0x1E6F3EC2, 0x35C39404, 0x2B7ADD1E),
    Five(0xC8A69090, 0xA2AD4F02, 0xB1BA8907, 0x26307A99, 0x58CFA558))

  const LONG_A_R3 := States(
    Five(0x8D2E76C8, 0x86E358BA, 0x1FA11BD6, 0x220D0580, 0x3229A424),
    Five(0x776C3910, 0x36D1230A, 0x7B7AA56C, 0x33A24B84, 0x234B9DB2),
    Five(0x9EF775C3, 0xF03D3782, 0xEB029E53, 0xE9A06DC8, 0x1DDB0E44),
    Five(0x513F9CA0, 0x2BFAF7A8, 0x10203537, 0xCD8952C4, 0xE7BDDD70))

  const LONG_A_R4 := States(
    Five(0x6D17C9FD, 0x14A82DA9, 0x440DF4B5, 0x79625720, 0x144FE728),
    Five(0x84065712, 0x112B96E3, 0xFF7DBBFF, 0x4B1EC1EF, 0x5B45F27F),
    Five(0x1A0E0E0A, 0x352D9F4B, 0x7148438D, 0x6AE27EDC, 0xA10195C4),
    Five(0x8CE34517, 0xD3AD7C25, 0x6B4E1883, 0x74351CD2, 0x86838382))

  lemma LongARow0()
    ensures Leads(0, H0, LONG_A_W0, LONG_A_R0)
  {
  }

  lemma LongANext0()
    ensures FollowsLow(LONG_A_W0, LONG_A_W1)
    ensures FollowsHigh(LONG_A_W0, LONG_A_W1)
  {
  }

  lemma LongARow1()
    ensures Leads(16, LONG_A_R0.s4, LONG_A_W1, LONG_A_R1)
  {
  }

  lemma LongANext1()
    ensures FollowsLow(LONG_A_W1, LONG_A_W2)
    ensures FollowsHigh(LONG_A_W1, LONG_A_W2)
  {
  }

  lemma LongARow2()
    ensures Leads(32, LONG_A_R1.s4, LONG_A_W2, LONG_A_R2)
  {
  }

  lemma LongANext2()
    ensures FollowsLow(LONG_A_W2, LONG_A_W3)
    ensures FollowsHigh(LONG_A_W2, LONG_A_W3)
  {
  }

  lemma LongARow3()
    ensures Leads(48, LONG_A_R2.s4, LONG_A_W3, LONG_A_R3)
  {
  }

  lemma LongANext3()
    ensures FollowsLow(LONG_A_W3, LONG_A_W4)
    ensures FollowsHigh(LONG_A_W3, LONG_A_W4)
  {
  }

  lemma LongARow4()
    ensures Leads(64, LONG_A_R3.s4, LONG_A_W4, LONG_A_R4)
  {
  }

  lemma LongABlock(block: seq<bv32>)
    requires |block| == 16 && block == WordsOf(LONG_A_W0)
    ensures Process(H0, block) == LONG_MIDDLE
  {
    hide *;
    FirstRow(H0, block, LONG_A_W0);
    LongARow0();
    LongANext0();
    NextRow(H0, block, 0, H0, LONG_A_W0, LONG_A_R0, LONG_A_W1);
    LongARow1();
    LongANext1();
    NextRow(H0, block, 16, LONG_A_R0.s4, LONG_A_W1, LONG_A_R1, LONG_A_W2);
    LongARow2();
    LongANext2();
    NextRow(H0, block, 32, LONG_A_R1.s4, LONG_A_W2, LONG_A_R2, LONG_A_W3);
    LongARow3();
    LongANext3();
    NextRow(H0, block, 48, LONG_A_R2.s4, LONG_A_W3, LONG_A_R3, LONG_A_W4);
    LongARow4();
    SixteenRounds(H0, block, 64, LONG_A_R3.s4, LONG_A_W4, LONG_A_R4);
    ProcessIs(H0, block);
    LongASum();
  }

  lemma LongASum()
    ensures Sum(H0, LONG_A_R4.s4) == LONG_MIDDLE
  {
  }

  const LONG_B_W0 :=
    Sixteen(0x00000000, 0x00000000, 0x00000000, 0x00000000, 0x00000000, 0x00000000, 0x00000000, 0x00000000,
            0x00000000, 0x00000000, 0x00000000, 0x00000000, 0x00000000, 0x00000000, 0x00000000, 0x000001C0)

  const LONG_B_W1 :=
    Sixteen(0x00000000, 0x00000000, 0x00000380, 0x00000000, 0x00000000, 0x00000700, 0x00000000, 0x00000380,
            0x00000E00, 0x00000000, 0x00000000, 0x00001C00, 0x00000000, 0x00000D80, 0x00003800, 0x00000480)

  const LONG_B_W2 :=
    Sixteen(0x00000000, 0x00007000, 0x00000E00, 0x00003600, 0x0000E000, 0x00000E00, 0x00000000, 0x0001CE00,
            0x00000000, 0x0000D800, 0x00038000, 0x00004F00, 0x00000000, 0x00070E00, 0x0000EE00, 0x00037500)

  const LONG_B_W3 :=
    Sixteen(0x000E0000, 0x0000E000, 0x00003600, 0x001CEE00, 0x00000000, 0x000DF000, 0x00380000, 0x0004C600,
            0x0000E000, 0x0070EE00, 0x000EE000, 0x00369E00, 0x00E00000, 0x000ED600, 0x0000E000, 0x01CEA600)

  const LONG_B_W4 :=
    Sixteen(0x00000000, 0x00D80000, 0x0380E000, 0x004F0000, 0x00000000, 0x070E0000, 0x00EE0000, 0x03751C00,
            0x0E000000, 0x00E0E000, 0x00363800, 0x1CEE9000, 0x00000000, 0x0DF09000, 0x3800E000, 0x04C77400)

  const LONG_B_R0 := States(
    Five(0xEEF743C6, 0xC352BB05, 0xD34F7163, 0x4B7C95FA, 0x3D0A1A06),
    Five(0xC6946813, 0xE7FA0377, 0x1510E457, 0xD078D09D, 0xBBBDD0F1),
    Five(0x43A2792F, 0x6BA94F63, 0xAE14E2B2, 0x7F778778, 0xF1A51A04),
    Five(0xD9772360, 0x258B0BAA, 0x2898132A, 0xFFB35EEF, 0xD0E89E4B))

  const LONG_B_R1 := States(
    Five(0xD8992153, 0xC2EB709F, 0x2946D62F, 0x9541F6DB, 0x365DC8D8),
    Five(0x8FBAA5B9, 0x9AD594B9, 0x7BA1C02F, 0xCDD20BD7, 0xF6264854),
    Five(0x5C416DAF, 0x50BCE434, 0x7BB14148, 0xE23ED619, 0x63EEA96E),
    Five(0x8A4AF384, 0x17986223, 0x028BEC42, 0xC90A6F97, 0xD7105B6B))

  const LONG_B_R2 := States(
    Five(0x696DA404, 0x295CC25B, 0xFC57C13C, 0xDAD8A664, 0x2292BCE1),
    Five(0x03BB6310, 0x84E2A5F2, 0x21F56E03, 0xB3BD6B84, 0x1A5B6901),
    Five(0xEC1D3D61, 0x28589152, 0x2FEC95DA, 0xF0B63DD7, 0x00EED8C4),
    Five(0x46F93B68, 0x7316056A, 0xB0F40CFA, 0xCF2BB5EB, 0x7B074F58))

  const LONG_B_R3 := States(
    Five(0x89FBD41D, 0x7E4672C0, 0x21435047, 0xB7239FC9, 0x11BE4EDA),
    Five(0x6DA72E7F, 0x2BDBB8CB, 0x10C7596F, 0x05E5F88A, 0x627EF507),
    Five(0xA65818F7, 0x5B086C42, 0xB9E15956, 0xEA1256A6, 0xDB69CB9F),
    Five(0xD504902B, 0xF66D9BF4, 0x24D85327, 0xDEAAC406, 0xE996063D))

  const LONG_B_R4 := States(
    Five(0xF6226BBF, 0x083E90C3, 0x62DA1E06, 0x982A7698, 0xF541240A),
    Five(0xAE1B8E7B, 0x8B2C7573, 0x66277459, 0xDDB0158E, 0xFD889AEF),
    Five(0x6BC02DFE, 0xD28D83AD, 0xC5BCEEAE, 0xB2861037, 0xEB86E39E),
    Five(0x906FD62C, 0x58C0AAC0, 0xB6A55520, 0x74E9B89D, 0x9AF00B7F))

  lemma LongBRow0()
    ensures Leads(0, LONG_MIDDLE, LONG_B_W0, LONG_B_R0)
  {
  }

  lemma LongBNext0()
    ensures FollowsLow(LONG_B_W0, LONG_B_W1)
    ensures FollowsHigh(LONG_B_W0, LONG_B_W1)
  {
  }

  lemma LongBRow1()
    ensures Leads(16, LONG_B_R0.s4, LONG_B_W1, LONG_B_R1)
  {
  }

  lemma LongBNext1()
    ensures FollowsLow(LONG_B_W1, LONG_B_W2)
    ensures FollowsHigh(LONG_B_W1, LONG_B_W2)
  {
  }

  lemma LongBRow2()
    ensures Leads(32, LONG_B_R1.s4, LONG_B_W2, LONG_B_R2)
  {
  }

  lemma LongBNext2()
    ensures FollowsLow(LONG_B_W2, LONG_B_W3)
    ensures FollowsHigh(LONG_B_W2, LONG_B_W3)
  {
  }

  lemma LongBRow3()
    ensures Leads(48, LONG_B_R2.s4, LONG_B_W3, LONG_B_R3)
  {
  }

  lemma LongBNext3()
    ensures FollowsLow(LONG_B_W3, LONG_B_W4)
    ensures FollowsHigh(LONG_B_W3, LONG_B_W4)
  {
  }

  lemma LongBRow4()
    ensures Leads(64, LONG_B_R3.s4, LONG_B_W4, LONG_B_R4)
  {
  }

  lemma LongBBlock(block: seq<bv32>)
    requires |block| == 16 && block == WordsOf(LONG_B_W0)
    ensures Process(LONG_MIDDLE, block) == LONG_DIGEST
  {
    hide *;
    FirstRow(LONG_MIDDLE, block, LONG_B_W0);
    LongBRow0();
    LongBNext0();
    NextRow(LONG_MIDDLE, block, 0, LONG_MIDDLE, LONG_B_W0, LONG_B_R0, LONG_B_W1);
    LongBRow1();
    LongBNext1();
    NextRow(LONG_MIDDLE, block, 16, LONG_B_R0.s4, LONG_B_W1, LONG_B_R1, LONG_B_W2);
    LongBRow2();
    LongBNext2();
    NextRow(LONG_MIDDLE, block, 32, LONG_B_R1.s4, LONG_B_W2, LONG_B_R2, LONG_B_W3);
    LongBRow3();
    LongBNext3();
    NextRow(LONG_MIDDLE, block, 48, LONG_B_R2.s4, LONG_B_W3, LONG_B_R3, LONG_B_W4);
    LongBRow4();
    SixteenRounds(LONG_MIDDLE, block, 64, LONG_B_R3.s4, LONG_B_W4, LONG_B_R4);
    ProcessIs(LONG_MIDDLE, block);
    LongBSum();
  }

  lemma LongBSum()
    ensures Sum(LONG_MIDDLE, LONG_B_R4.s4) == LONG_DIGEST
  {
  }

  // ----- the messages

  /** The bytes of "abc". */
  const ABC: seq<bv8> := [0x61, 0x62, 0x63]

  /** The bytes of "abcdbcdecdefdefgefghfghighijhijkijkljklmklmnlmnomnopnopq", sixteen a row. */
  const LONG_0: seq<bv8> := [0x61, 0x62, 0x63, 0x64, 0x62, 0x63, 0x64, 0x65, 0x63, 0x64, 0x65, 0x66, 0x64, 0x65, 0x66, 0x67]
  const LONG_1: seq<bv8> := [0x65, 0x66, 0x67, 0x68, 0x66, 0x67, 0x68, 0x69, 0x67, 0x68, 0x69, 0x6A, 0x68, 0x69, 0x6A, 0x6B]
  const LONG_2: seq<bv8> := [0x69, 0x6A, 0x6B, 0x6C, 0x6A, 0x6B, 0x6C, 0x6D, 0x6B, 0x6C, 0x6D, 0x6E, 0x6C, 0x6D, 0x6E, 0x6F]
  const LONG_3: seq<bv8> := [0x6D, 0x6E, 0x6F, 0x70, 0x6E, 0x6F, 0x70, 0x71]
  const LONG := LONG_0 + LONG_1 + LONG_2 + LONG_3

  lemma NoBytes()
    ensures Bytes4(0) == [0, 0, 0, 0]
  {
  }

  lemma Length24()
    ensures LengthBytes(24) == [0, 0, 0, 0, 0, 0, 0, 24]
  {
    hide Bytes4;
    NoBytes();
    assert Bytes4(24) == [0, 0, 0, 24] by { Bytes24(); }
  }

  lemma Bytes24()
    ensures Bytes4(24) == [0, 0, 0, 24]
  {
  }

  lemma ZeroWord()
    ensures Word(0, 0, 0, 0) == 0
  {
  }

  lemma AbcPadded()
    ensures Pad(ABC) == [0x61, 0x62, 0x63, 0x80] + Zeros(52) + [0, 0, 0, 0, 0, 0, 0, 24]
  {
    hide LengthBytes, Zeros;
    Length24();
    assert ZeroCount(3) == 52;
    assert ABC + ([0x80] + Zeros(52) + LengthBytes(24)) == [0x61, 0x62, 0x63, 0x80] + Zeros(52) + LengthBytes(24);
  }

  lemma WordIn(p: seq<bv8>, i: nat)
    requires |p| == 64 && i < 16
    ensures Words(p)[i] == Word(p[4 * i], p[4 * i + 1], p[4 * i + 2], p[4 * i + 3])
  {
    hide Word;
  }

  lemma AbcWord0()
    ensures Word(0x61, 0x62, 0x63, 0x80) == 0x61626380 && Word(0, 0, 0, 24) == 24
  {
  }

  lemma AbcBlockWords()
    ensures WordsOf(ABC_W0)[0] == 0x61626380 && WordsOf(ABC_W0)[15] == 24
    ensures forall i :: 1 <= i < 15 ==> WordsOf(ABC_W0)[i] == 0
  {
  }

  lemma AbcBytes()
    ensures var p := Pad(ABC);
      && |p| == 64 && p[0] == 0x61 && p[1] == 0x62 && p[2] == 0x63 && p[3] == 0x80
      && (forall i :: 4 <= i < 63 ==> p[i] == 0) && p[63] == 24
  {
    hide Pad;
    AbcPadded();
  }

  lemma ZeroWordIn(p: seq<bv8>, i: nat)
    requires |p| == 64 && i < 16 && p[4 * i] == 0 && p[4 * i + 1] == 0 && p[4 * i + 2] == 0 && p[4 * i + 3] == 0
    ensures Words(p)[i] == 0
  {
    hide Word, Words;
    WordIn(p, i);
    ZeroWord();
  }

  lemma AbcWords()
    ensures |Pad(ABC)| == 64 && Words(Pad(ABC)) == WordsOf(ABC_W0)
  {
    hide Word, Pad, Words, WordsOf;
    var p := Pad(ABC);
    AbcBytes();
    AbcWord0();
    AbcBlockWords();
    WordIn(p, 0);
    WordIn(p, 15);
    forall i | 1 <= i < 15
      ensures Words(p)[i] == 0
    {
      ZeroWordIn(p, i);
    }
    SameWords(Words(p), WordsOf(ABC_W0));
  }

  lemma SameWords(x: seq<bv32>, y: seq<bv32>)
    requires |x| == 16 && |y| == 16 && x[0] == y[0] && x[15] == y[15] && forall i :: 1 <= i < 15 ==> x[i] == 0 && y[i] == 0
    ensures x == y
  {
  }

  lemma OneBlock(p: seq<bv8>)
    requires |p| == 64
    ensures Blocks(p) == Process(H0, Words(p))
  {
    hide Process;
    assert p[..0] == [] && p[0..] == p;
  }

  /** The digest of "abc" is the published one. */
  lemma AbcDigest()
    ensures Digest([0x61, 0x62, 0x63]) == Five(0xA9993E36, 0x4706816A, 0xBA3E2571, 0x7850C26C, 0x9CD0D89D)
  {
    hide Process, Pad, Blocks, WordsOf, Words;
    AbcWords();
    OneBlock(Pad(ABC));
    AbcBlock(Words(Pad(ABC)));
  }

  lemma LongWords()
    ensures Word(0x61, 0x62, 0x63, 0x64) == 0x61626364 && Word(0x62, 0x63, 0x64, 0x65) == 0x62636465
    ensures Word(0x63, 0x64, 0x65, 0x66) == 0x63646566 && Word(0x64, 0x65, 0x66, 0x67) == 0x64656667
    ensures Word(0x65, 0x66, 0x67, 0x68) == 0x65666768 && Word(0x66, 0x67, 0x68, 0x69) == 0x66676869
    ensures Word(0x67, 0x68, 0x69, 0x6A) == 0x6768696A && Word(0x68, 0x69, 0x6A, 0x6B) == 0x68696A6B
    ensures Word(0x69, 0x6A, 0x6B, 0x6C) == 0x696A6B6C && Word(0x6A, 0x6B, 0x6C, 0x6D) == 0x6A6B6C6D
    ensures Word(0x6B, 0x6C, 0x6D, 0x6E) == 0x6B6C6D6E && Word(0x6C, 0x6D, 0x6E, 0x6F) == 0x6C6D6E6F
    ensures Word(0x6D, 0x6E, 0x6F, 0x70) == 0x6D6E6F70 && Word(0x6E, 0x6F, 0x70, 0x71) == 0x6E6F7071
    ensures Word(0x80, 0, 0, 0) == 0x80000000 && Word(0, 0, 1, 0xC0) == 448
  {
  }

  lemma WordsConcat(x: seq<bv8>, y: seq<bv8>)
    requires |x| % 4 == 0 && |y| % 4 == 0
    ensures Words(x + y) == Words(x) + Words(y)
  {
    hide Word;
    forall i | 0 <= i < |Words(x + y)|
      ensures Words(x + y)[i] == (Words(x) + Words(y))[i]
    {
      if i >= |x| / 4 {
        var j := 4 * i - |x|;
        assert (x + y)[4 * i] == y[j] && (x + y)[4 * i + 1] == y[j + 1];
        assert (x + y)[4 * i + 2] == y[j + 2] && (x + y)[4 * i + 3] == y[j + 3];
      }
    }
  }

  /** Sixteen bytes are four words. */
  lemma WordsOfRow(r: seq<bv8>)
    requires |r| == 16
    ensures Words(r) == [Word(r[0], r[1], r[2], r[3]), Word(r[4], r[5], r[6], r[7]),
                         Word(r[8], r[9], r[10], r[11]), Word(r[12], r[13], r[14], r[15])]
  {
    hide Word;
  }

  const LONG_END: seq<bv8> := LONG_3 + [0x80, 0, 0, 0, 0, 0, 0, 0]

  lemma LongRows()
    ensures Words(LONG_0) == [0x61626364, 0x62636465, 0x63646566, 0x64656667]
    ensures Words(LONG_1) == [0x65666768, 0x66676869, 0x6768696A, 0x68696A6B]
    ensures Words(LONG_2) == [0x696A6B6C, 0x6A6B6C6D, 0x6B6C6D6E, 0x6C6D6E6F]
    ensures Words(LONG_END) == [0x6D6E6F70, 0x6E6F7071, 0x80000000, 0]
  {
    hide Words, Word;
    LongWords();
    ZeroWord();
    WordsOfRow(LONG_0);
    WordsOfRow(LONG_1);
    WordsOfRow(LONG_2);
    WordsOfRow(LONG_END);
  }

  lemma LongFirst()
    ensures Words(LONG_0 + LONG_1 + LONG_2 + LONG_END) == WordsOf(LONG_A_W0)
  {
    hide Words;
    LongRows();
    WordsConcat(LONG_0, LONG_1);
    WordsConcat(LONG_0 + LONG_1, LONG_2);
    WordsConcat(LONG_0 + LONG_1 + LONG_2, LONG_END);
  }

  lemma Bytes448()
    ensures Bytes4(448) == [0, 0, 1, 0xC0]
  {
  }

  lemma Length448()
    ensures LengthBytes(448) == [0, 0, 0, 0, 0, 0, 1, 0xC0] && ZeroCount(56) == 63
  {
    hide Bytes4;
    NoBytes();
    Bytes448();
  }

  /** The second block has nothing but the length. */
  function LastBlock(): (p: seq<bv8>)
    ensures |p| == 64
  {
    Zeros(56) + [0, 0, 0, 0, 0, 0, 1, 0xC0]
  }

  lemma LongPadded()
    ensures |LONG_0 + LONG_1 + LONG_2 + LONG_END| == 64
    ensures Pad(LONG) == (LONG_0 + LONG_1 + LONG_2 + LONG_END) + LastBlock()
  {
    hide LengthBytes, Zeros;
    Length448();
    var a := LONG_0 + LONG_1 + LONG_2;
    SevenZeros();
    assert LONG + ([0x80] + Zeros(63) + LengthBytes(448)) == (a + LONG_END) + LastBlock();
  }

  lemma SevenZeros()
    ensures Zeros(63) == [0, 0, 0, 0, 0, 0, 0] + Zeros(56)
  {
  }

  lemma LongBlockWords()
    ensures WordsOf(LONG_B_W0)[15] == 448
    ensures forall i :: 0 <= i < 15 ==> WordsOf(LONG_B_W0)[i] == 0
  {
  }

  lemma LongSecond()
    ensures Words(LastBlock()) == WordsOf(LONG_B_W0)
  {
    hide Word, Words, WordsOf;
    LongWords();
    LongBlockWords();
    var p := LastBlock();
    WordIn(p, 15);
    forall i | 0 <= i < 15
      ensures Words(p)[i] == WordsOf(LONG_B_W0)[i]
    {
      ZeroWordIn(p, i);
    }
  }

  lemma TwoBlocks(p: seq<bv8>, q: seq<bv8>)
    requires |p| == 64 && |q| == 64
    ensures Blocks(p + q) == Process(Process(H0, Words(p)), Words(q))
  {
    hide Process, Words;
    OneBlock(p);
    assert (p + q)[..64] == p && (p + q)[64..] == q;
  }

  /** So is the digest of a message of two blocks. */
  lemma LongDigest()
    ensures |LONG| == 56
    ensures Digest(LONG) == Five(0x84983E44, 0x1C3BD26E, 0xBAAE4AA1, 0xF95129E5, 0xE54670F1)
  {
    hide Process, Pad, Blocks, WordsOf, Words, LastBlock;
    LongPadded();
    LongFirst();
    LongSecond();
    TwoBlocks(LONG_0 + LONG_1 + LONG_2 + LONG_END, LastBlock());
    LongABlock(Words(LONG_0 + LONG_1 + LONG_2 + LONG_END));
    LongBBlock(Words(LastBlock()));
  }
}

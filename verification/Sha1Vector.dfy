/** SHA-1 of "abc", the first example of the standard: every constant, rotation
    and selection of the specification takes part in it. */
module Sha1Vector {
  import opened Bytes
  import opened Sha1

  const ABC: seq<Byte> := [0x61, 0x62, 0x63]

  // ----- The padded message -----

  function Block(): (b: seq<Byte>)
    ensures |b| == 64
  {
    [0x61, 0x62, 0x63, 0x80] + ZeroBytes(59) + [0x18]
  }

  lemma PaddedIsBlock()
    ensures Pad(ABC) == Block()
  {
    hide BeBytes;
    LengthIs();
    assert PadZeros(3) == 52;
    assert Pad(ABC) == ABC + [0x80] + ZeroBytes(52) + BeBytes(24, 8);
  }

  lemma LengthIs()
    ensures BeBytes(24, 8) == ZeroBytes(7) + [0x18]
  {
    ZerosAre(7);
    assert BeBytes(24, 8) == BeBytes(0, 7) + [24];
  }

  lemma {:induction false} ZerosAre(k: nat)
    ensures BeBytes(0, k) == ZeroBytes(k)
  {
    if k > 0 {
      ZerosAre(k - 1);
    }
  }

  // ----- The message schedule -----

  lemma Packed()
    ensures Pack(0x61, 0x62, 0x63, 0x80) == 0x61626380 && Pack(0, 0, 0, 0) == 0 && Pack(0, 0, 0, 0x18) == 0x18
  {
  }

  lemma FirstWords(b: seq<Byte>)
    requires b == Block()
    ensures Schedule(b, 0) == 0x61626380 && Schedule(b, 15) == 0x18
    ensures forall t :: 1 <= t < 15 ==> Schedule(b, t) == 0
  {
    Packed();
    hide Pack;
    assert b[0] == 0x61 && b[1] == 0x62 && b[2] == 0x63 && b[3] == 0x80;
    assert b[60] == 0 && b[61] == 0 && b[62] == 0 && b[63] == 0x18;
    forall t | 1 <= t < 15 ensures Schedule(b, t) == 0 {
      assert b[4 * t] == 0 && b[4 * t + 1] == 0 && b[4 * t + 2] == 0 && b[4 * t + 3] == 0;
    }
  }

  function Left1(x: Word): Word {
    (x << 1) | (x >> 31)
  }

  function Left5(x: Word): Word {
    (x << 5) | (x >> 27)
  }

  function Left30(x: Word): Word {
    (x << 30) | (x >> 2)
  }

  lemma Rotations(x: Word)
    ensures Rotl(x, 1) == Left1(x) && Rotl(x, 5) == Left5(x) && Rotl(x, 30) == Left30(x)
  {
  }

  function Mixed(x: Word, y: Word, z: Word, u: Word): Word {
    Left1(Xor4(x, y, z, u))
  }

  /** One word from four earlier ones. */
  lemma {:induction false} OneWord(b: seq<Byte>, t: nat)
    requires |b| == 64 && 16 <= t < 80
    ensures Schedule(b, t) == Mixed(Schedule(b, t - 3), Schedule(b, t - 8), Schedule(b, t - 14), Schedule(b, t - 16))
  {
    hide Rotl, Left1, Xor4;
    Rotations(Xor4(Schedule(b, t - 3), Schedule(b, t - 8), Schedule(b, t - 14), Schedule(b, t - 16)));
  }

  /** The words from `t` on. */
  predicate WordsAre(b: seq<Byte>, t: nat, w0: Word, w1: Word, w2: Word, w3: Word, w4: Word, w5: Word, w6: Word, w7: Word)
    requires |b| == 64 && t + 7 < 80
  {
    && Schedule(b, t) == w0 && Schedule(b, t + 1) == w1 && Schedule(b, t + 2) == w2 && Schedule(b, t + 3) == w3
    && Schedule(b, t + 4) == w4 && Schedule(b, t + 5) == w5 && Schedule(b, t + 6) == w6 && Schedule(b, t + 7) == w7
  }

  lemma {:induction false} EightWords(b: seq<Byte>, t: nat)
    requires |b| == 64 && 16 <= t <= 72
    ensures Schedule(b, t) == Mixed(Schedule(b, t - 3), Schedule(b, t - 8), Schedule(b, t - 14), Schedule(b, t - 16))
    ensures Schedule(b, t + 1) == Mixed(Schedule(b, t - 2), Schedule(b, t - 7), Schedule(b, t - 13), Schedule(b, t - 15))
    ensures Schedule(b, t + 2) == Mixed(Schedule(b, t - 1), Schedule(b, t - 6), Schedule(b, t - 12), Schedule(b, t - 14))
    ensures Schedule(b, t + 3) == Mixed(Schedule(b, t), Schedule(b, t - 5), Schedule(b, t - 11), Schedule(b, t - 13))
    ensures Schedule(b, t + 4) == Mixed(Schedule(b, t + 1), Schedule(b, t - 4), Schedule(b, t - 10), Schedule(b, t - 12))
    ensures Schedule(b, t + 5) == Mixed(Schedule(b, t + 2), Schedule(b, t - 3), Schedule(b, t - 9), Schedule(b, t - 11))
    ensures Schedule(b, t + 6) == Mixed(Schedule(b, t + 3), Schedule(b, t - 2), Schedule(b, t - 8), Schedule(b, t - 10))
    ensures Schedule(b, t + 7) == Mixed(Schedule(b, t + 4), Schedule(b, t - 1), Schedule(b, t - 7), Schedule(b, t - 9))
  {
    hide Schedule, Mixed;
    OneWord(b, t);
    OneWord(b, t + 1);
    OneWord(b, t + 2);
    OneWord(b, t + 3);
    OneWord(b, t + 4);
    OneWord(b, t + 5);
    OneWord(b, t + 6);
    OneWord(b, t + 7);
  }

  lemma Words0(b: seq<Byte>)
    requires b == Block()
    ensures WordsAre(b, 0, 0x61626380, 0x00000000, 0x00000000, 0x00000000, 0x00000000, 0x00000000, 0x00000000, 0x00000000)
    ensures WordsAre(b, 8, 0x00000000, 0x00000000, 0x00000000, 0x00000000, 0x00000000, 0x00000000, 0x00000000, 0x00000018)
  {
    hide Schedule, Block;
    FirstWords(b);
    assert forall t :: 1 <= t < 15 ==> Schedule(b, t) == 0;
  }

  lemma Words16(b: seq<Byte>)
    requires b == Block()
    ensures WordsAre(b, 16, 0xC2C4C700, 0x00000000, 0x00000030, 0x85898E01, 0x00000000, 0x00000060, 0x0B131C03, 0x00000030)
  {
    hide Schedule, Block;
    Words0(b);
    EightWords(b, 16);
  }

  lemma Words24(b: seq<Byte>)
    requires b == Block()
    ensures WordsAre(b, 24, 0x85898EC1, 0x16263806, 0x00000000, 0x00000180, 0x2C4C700C, 0x000000F0, 0x93AFB507, 0x5898E048)
  {
    hide Schedule, Block;
    Words16(b);
    Words0(b);
    EightWords(b, 24);
  }

  lemma Words32(b: seq<Byte>)
    requires b == Block()
    ensures WordsAre(b, 32, 0x8E9A9202, 0x00000600, 0xB131C0F0, 0x16263BC6, 0x4EBED41E, 0x626380A1, 0x16263806, 0x000018C0)
  {
    hide Schedule, Block;
    Words24(b);
    Words16(b);
    EightWords(b, 32);
  }

  lemma Words40(b: seq<Byte>)
    requires b == Block()
    ensures WordsAre(b, 40, 0xD2E138C4, 0x00000F00, 0x3AFB5079, 0x898E04E5, 0xE2BA3C2B, 0x000060C0, 0x053A37CD, 0x74458547)
  {
    hide Schedule, Block;
    Words32(b);
    Words24(b);
    EightWords(b, 40);
  }

  lemma Words48(b: seq<Byte>)
    requires b == Block()
    ensures WordsAre(b, 48, 0xDA9415ED, 0x26380A16, 0x626383A1, 0x4EBF54DE, 0x3835B44B, 0x0000F600, 0x1E84C7A3, 0x98E04D98)
  {
    hide Schedule, Block;
    Words40(b);
    Words32(b);
    EightWords(b, 48);
  }

  lemma Words56(b: seq<Byte>)
    requires b == Block()
    ensures WordsAre(b, 56, 0x651D16A0, 0x62658CA1, 0x458544D6, 0x44584CB7, 0x7BA06619, 0x6380AEA2, 0x0AE55269, 0x627B49A1)
  {
    hide Schedule, Block;
    Words48(b);
    Words40(b);
    EightWords(b, 56);
  }

  lemma Words64(b: seq<Byte>)
    requires b == Block()
    ensures WordsAre(b, 64, 0x7CD45C9D, 0x000F0000, 0xFB50753A, 0xEC6765E8, 0xBA3C2BE2, 0x0060C000, 0x3A37CD05, 0x458546F4)
  {
    hide Schedule, Block;
    Words56(b);
    Words48(b);
    EightWords(b, 64);
  }

  lemma Words72(b: seq<Byte>)
    requires b == Block()
    ensures WordsAre(b, 72, 0xB8599DD6, 0x380A1A26, 0x01E02203, 0xE7CC3456, 0xE6E60B69, 0x00F60A00, 0x5795EF4F, 0x822E0879)
  {
    hide Schedule, Block;
    Words64(b);
    Words56(b);
    EightWords(b, 72);
  }

  // ----- The rounds -----

  function Next(v: Hash, f: Word, k: Word, w: Word): Hash {
    Hash(Add(Add(Add(Add(Left5(v.a), f), v.e), k), w), v.a, Left30(v.b), v.c, v.d)
  }

  /** A round of each of the four kinds. */
  function First(v: Hash, w: Word): Hash {
    Next(v, Choose(v.b, v.c, v.d), 0x5A827999, w)
  }

  function Second(v: Hash, w: Word): Hash {
    Next(v, Parity(v.b, v.c, v.d), 0x6ED9EBA1, w)
  }

  function Third(v: Hash, w: Word): Hash {
    Next(v, Majority(v.b, v.c, v.d), 0x8F1BBCDC, w)
  }

  function Fourth(v: Hash, w: Word): Hash {
    Next(v, Parity(v.b, v.c, v.d), 0xCA62C1D6, w)
  }

  lemma RoundIs(v: Hash, w: Word, t: nat)
    ensures OneRound(v, w, t) == Next(v, RoundFunction(t, v.b, v.c, v.d), RoundConstant(t), w)
  {
    hide RoundFunction, RoundConstant, Add, Rotl, Left1, Left5, Left30;
    Rotations(v.a);
    Rotations(v.b);
  }

  lemma KindIs(v: Hash, w: Word, t: nat)
    ensures t < 20 ==> OneRound(v, w, t) == First(v, w)
    ensures 20 <= t < 40 ==> OneRound(v, w, t) == Second(v, w)
    ensures 40 <= t < 60 ==> OneRound(v, w, t) == Third(v, w)
    ensures 60 <= t ==> OneRound(v, w, t) == Fourth(v, w)
  {
    hide OneRound, Next, Choose, Parity, Majority;
    RoundIs(v, w, t);
  }

  function First4(v: Hash, w0: Word, w1: Word, w2: Word, w3: Word): Hash {
    First(First(First(First(v, w0), w1), w2), w3)
  }

  function Second4(v: Hash, w0: Word, w1: Word, w2: Word, w3: Word): Hash {
    Second(Second(Second(Second(v, w0), w1), w2), w3)
  }

  function Third4(v: Hash, w0: Word, w1: Word, w2: Word, w3: Word): Hash {
    Third(Third(Third(Third(v, w0), w1), w2), w3)
  }

  function Fourth4(v: Hash, w0: Word, w1: Word, w2: Word, w3: Word): Hash {
    Fourth(Fourth(Fourth(Fourth(v, w0), w1), w2), w3)
  }

  lemma FirstRounds()
    ensures First4(INITIAL, 0x61626380, 0x00000000, 0x00000000, 0x00000000)
      == Hash(0xCDD8E11B, 0xA1390F08, 0x626414DB, 0xC045BF0C, 0x59D148C0)
    ensures First4(Hash(0xCDD8E11B, 0xA1390F08, 0x626414DB, 0xC045BF0C, 0x59D148C0), 0x00000000, 0x00000000, 0x00000000, 0x00000000)
      == Hash(0x9E8C07D4, 0x993E30C1, 0x0FF1F290, 0xB3F52677, 0xF3763846)
    ensures First4(Hash(0x9E8C07D4, 0x993E30C1, 0x0FF1F290, 0xB3F52677, 0xF3763846), 0x00000000, 0x00000000, 0x00000000, 0x00000000)
      == Hash(0x63188FE4, 0xFBDA9E89, 0x60D47E4A, 0x12DAB8CA, 0x27A301F5)
    ensures First4(Hash(0x63188FE4, 0xFBDA9E89, 0x60D47E4A, 0x12DAB8CA, 0x27A301F5), 0x00000000, 0x00000000, 0x00000000, 0x00000018)
      == Hash(0x20BDD62F, 0x196BEE77, 0x644A3DA5, 0x1181ED99, 0x18C623F9)
    ensures First4(Hash(0x20BDD62F, 0x196BEE77, 0x644A3DA5, 0x1181ED99, 0x18C623F9), 0xC2C4C700, 0x00000000, 0x00000030, 0x85898E01)
      == Hash(0xFD9E1D7D, 0xDC64901D, 0x20AA99CA, 0xD3A49608, 0xC82F758B)
  {
  }

  lemma SecondRounds()
    ensures Second4(Hash(0xFD9E1D7D, 0xDC64901D, 0x20AA99CA, 0xD3A49608, 0xC82F758B), 0x00000000, 0x00000060, 0x0B131C03, 0x00000030)
      == Hash(0xD541F12D, 0x21283486, 0x0CE88EFF, 0x868DEC32, 0x7F67875F)
    ensures Second4(Hash(0xD541F12D, 0x21283486, 0x0CE88EFF, 0x868DEC32, 0x7F67875F), 0x85898EC1, 0x16263806, 0x00000000, 0x00000180)
      == Hash(0x4AA84D97, 0xBE35FBD5, 0x12104EE9, 0xB1D59F71, 0x75507C4B)
    ensures Second4(Hash(0x4AA84D97, 0xBE35FBD5, 0x12104EE9, 0xB1D59F71, 0x75507C4B), 0x2C4C700C, 0x000000F0, 0x93AFB507, 0x5898E048)
      == Hash(0x3B845D33, 0x1267B407, 0x717EEBD7, 0xA0DC2D4B, 0xD2AA1365)
    ensures Second4(Hash(0x3B845D33, 0x1267B407, 0x717EEBD7, 0xA0DC2D4B, 0xD2AA1365), 0x8E9A9202, 0x00000600, 0xB131C0F0, 0x16263BC6)
      == Hash(0xDCBBB0CB, 0x21796AD4, 0x4B03AF04, 0x811BEA82, 0xCEE1174C)
    ensures Second4(Hash(0xDCBBB0CB, 0x21796AD4, 0x4B03AF04, 0x811BEA82, 0xCEE1174C), 0x4EBED41E, 0x626380A1, 0x16263806, 0x000018C0)
      == Hash(0x32DE1CBA, 0x4C986405, 0xF718E5CF, 0x03D447F6, 0xF72EEC32)
  {
  }

  lemma ThirdRounds()
    ensures Third4(Hash(0x32DE1CBA, 0x4C986405, 0xF718E5CF, 0x03D447F6, 0xF72EEC32), 0xD2E138C4, 0x00000F00, 0x3AFB5079, 0x898E04E5)
      == Hash(0xEE1B1AAF, 0x7F193DC5, 0x25C28357, 0xFF21F7B7, 0x8CB7872E)
    ensures Third4(Hash(0xEE1B1AAF, 0x7F193DC5, 0x25C28357, 0xFF21F7B7, 0x8CB7872E), 0xE2BA3C2B, 0x000060C0, 0x053A37CD, 0x74458547)
      == Hash(0xBEAD02CA, 0xA01B846C, 0x8714787C, 0x503CA382, 0xFB86C6AB)
    ensures Third4(Hash(0xBEAD02CA, 0xA01B846C, 0x8714787C, 0x503CA382, 0xFB86C6AB), 0xDA9415ED, 0x26380A16, 0x626383A1, 0x4EBF54DE)
      == Hash(0x3847AD66, 0x641DB2CE, 0x4481CC71, 0xEEBCE4CD, 0xAFAB40B2)
    ensures Third4(Hash(0x3847AD66, 0x641DB2CE, 0x4481CC71, 0xEEBCE4CD, 0xAFAB40B2), 0x3835B44B, 0x0000F600, 0x1E84C7A3, 0x98E04D98)
      == Hash(0x5E6456AF, 0x7B71F76D, 0x09FA7C76, 0x792410DB, 0x8E11EB59)
    ensures Third4(Hash(0x5E6456AF, 0x7B71F76D, 0x09FA7C76, 0x792410DB, 0x8E11EB59), 0x651D16A0, 0x62658CA1, 0x458544D6, 0x44584CB7)
      == Hash(0x3F52DE5A, 0x09D785FD, 0x3498BFD4, 0xF211824F, 0xD79915AB)
  {
  }

  lemma FourthRounds()
    ensures Fourth4(Hash(0x3F52DE5A, 0x09D785FD, 0x3498BFD4, 0xF211824F, 0xD79915AB), 0x7BA06619, 0x6380AEA2, 0x0AE55269, 0x627B49A1)
      == Hash(0x6B61C9E1, 0xB66C020B, 0x9523272C, 0xF5D5B051, 0x8FD4B796)
    ensures Fourth4(Hash(0x6B61C9E1, 0xB66C020B, 0x9523272C, 0xF5D5B051, 0x8FD4B796), 0x7CD45C9D, 0x000F0000, 0xFB50753A, 0xEC6765E8)
      == Hash(0x78DD4D2B, 0x0C3DF2B4, 0x4405957E, 0x0677E9EB, 0x5AD87278)
    ensures Fourth4(Hash(0x78DD4D2B, 0x0C3DF2B4, 0x4405957E, 0x0677E9EB, 0x5AD87278), 0xBA3C2BE2, 0x0060C000, 0x3A37CD05, 0x458546F4)
      == Hash(0x39859DE7, 0xC199F8C7, 0x8FC96230, 0x125C24F0, 0xDE37534A)
    ensures Fourth4(Hash(0x39859DE7, 0xC199F8C7, 0x8FC96230, 0x125C24F0, 0xDE37534A), 0xB8599DD6, 0x380A1A26, 0x01E02203, 0xE7CC3456)
      == Hash(0x63F7DAB7, 0x5EE76897, 0xC45E4FDB, 0x3B6D0B79, 0xCE616779)
    ensures Fourth4(Hash(0x63F7DAB7, 0x5EE76897, 0xC45E4FDB, 0x3B6D0B79, 0xCE616779), 0xE6E60B69, 0x00F60A00, 0x5795EF4F, 0x822E0879)
      == Hash(0x42541B35, 0x5738D5E1, 0x21834873, 0x681E6DF6, 0xD8FDF6AD)
  {
  }

  lemma {:induction false} FourRounds(b: seq<Byte>, t: nat)
    requires |b| == 64 && t + 4 <= 80
    ensures
      var v := Rounds(INITIAL, b, t);
      var w0, w1, w2, w3 := Schedule(b, t), Schedule(b, t + 1), Schedule(b, t + 2), Schedule(b, t + 3);
      && (t < 17 ==> Rounds(INITIAL, b, t + 4) == First4(v, w0, w1, w2, w3))
      && (20 <= t < 37 ==> Rounds(INITIAL, b, t + 4) == Second4(v, w0, w1, w2, w3))
      && (40 <= t < 57 ==> Rounds(INITIAL, b, t + 4) == Third4(v, w0, w1, w2, w3))
      && (60 <= t ==> Rounds(INITIAL, b, t + 4) == Fourth4(v, w0, w1, w2, w3))
  {
    hide OneRound, First, Second, Third, Fourth, Schedule;
    KindIs(Rounds(INITIAL, b, t), Schedule(b, t), t);
    KindIs(Rounds(INITIAL, b, t + 1), Schedule(b, t + 1), t + 1);
    KindIs(Rounds(INITIAL, b, t + 2), Schedule(b, t + 2), t + 2);
    KindIs(Rounds(INITIAL, b, t + 3), Schedule(b, t + 3), t + 3);
  }

  lemma After20(b: seq<Byte>)
    requires b == Block()
    ensures Rounds(INITIAL, b, 20) == Hash(0xFD9E1D7D, 0xDC64901D, 0x20AA99CA, 0xD3A49608, 0xC82F758B)
  {
    hide Block, Schedule, Rounds, First4, Second4, Third4, Fourth4;
    FirstRounds();
    NoRounds(b);
    Words0(b);
    Words16(b);
    FourRounds(b, 0);
    FourRounds(b, 4);
    FourRounds(b, 8);
    FourRounds(b, 12);
    FourRounds(b, 16);
  }

  lemma After40(b: seq<Byte>)
    requires b == Block()
    ensures Rounds(INITIAL, b, 40) == Hash(0x32DE1CBA, 0x4C986405, 0xF718E5CF, 0x03D447F6, 0xF72EEC32)
  {
    hide Block, Schedule, Rounds, First4, Second4, Third4, Fourth4;
    SecondRounds();
    After20(b);
    Words16(b);
    Words24(b);
    Words32(b);
    FourRounds(b, 20);
    FourRounds(b, 24);
    FourRounds(b, 28);
    FourRounds(b, 32);
    FourRounds(b, 36);
  }

  lemma After60(b: seq<Byte>)
    requires b == Block()
    ensures Rounds(INITIAL, b, 60) == Hash(0x3F52DE5A, 0x09D785FD, 0x3498BFD4, 0xF211824F, 0xD79915AB)
  {
    hide Block, Schedule, Rounds, First4, Second4, Third4, Fourth4;
    ThirdRounds();
    After40(b);
    Words40(b);
    Words48(b);
    Words56(b);
    FourRounds(b, 40);
    FourRounds(b, 44);
    FourRounds(b, 48);
    FourRounds(b, 52);
    FourRounds(b, 56);
  }

  lemma After80(b: seq<Byte>)
    requires b == Block()
    ensures Rounds(INITIAL, b, 80) == Hash(0x42541B35, 0x5738D5E1, 0x21834873, 0x681E6DF6, 0xD8FDF6AD)
  {
    hide Block, Schedule, Rounds, First4, Second4, Third4, Fourth4;
    FourthRounds();
    After60(b);
    Words56(b);
    Words64(b);
    Words72(b);
    FourRounds(b, 60);
    FourRounds(b, 64);
    FourRounds(b, 68);
    FourRounds(b, 72);
    FourRounds(b, 76);
  }

  lemma NoRounds(b: seq<Byte>)
    requires |b| == 64
    ensures Rounds(INITIAL, b, 0) == INITIAL
  {
  }

  /** The digest of "abc", as FIPS 180-4 gives it. */
  lemma AbcDigest()
    ensures Digest(ABC) == Hash(0xA9993E36, 0x4706816A, 0xBA3E2571, 0x7850C26C, 0x9CD0D89D)
  {
    hide Block, Rounds, Pad;
    var b := Block();
    PaddedIsBlock();
    After80(b);
    assert b[..0] == [] && b[0..] == b;
    assert FoldBlocks(INITIAL, []) == INITIAL;
  }
}

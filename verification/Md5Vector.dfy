/**
 * A published digest: that of the 62 letters and digits in the test suite of RFC 1321 (section A.5), two
 * blocks long, derived round by round.  It ties down the constants, functions and schedules of module Rfc1321.
 */
module Md5Vector {
  import opened Rfc1321
  import opened Md5Rounds
  import opened Md5

  /** A to Z, a to z, 0 to 9. */
  function Letter(i: nat): Byte
    requires i < 62
  {
    if i < 26 then 'A' as int + i else if i < 52 then 'a' as int + i - 26 else '0' as int + i - 52
  }

  function Message(): (m: seq<Byte>)
    ensures |m| == 62
  {
    seq(62, i requires 0 <= i < 62 => Letter(i))
  }

  function FirstBlock(): (b: seq<Byte>)
    ensures |b| == 64
  {
    Message() + [0x80, 0]
  }

  function SecondBlock(): (b: seq<Byte>)
    ensures |b| == 64
  {
    Zeros(56) + [0xf0, 1, 0, 0, 0, 0, 0, 0]
  }

  lemma Padded()
    ensures Pad(Message()) == FirstBlock() + SecondBlock()
  {
    hide LittleEndian;
    assert Zeros(57) == [0] + Zeros(56);
    LengthBytes();
    assert Pad(Message()) == Message() + [0x80] + ([0] + Zeros(56)) + [0xf0, 1, 0, 0, 0, 0, 0, 0];
  }

  lemma LengthBytes()
    ensures LittleEndian(496, 8) == [0xf0, 1, 0, 0, 0, 0, 0, 0]
  {
    assert LittleEndian(0, 6) == [0, 0, 0, 0, 0, 0];
    assert LittleEndian(1, 7) == [1] + LittleEndian(0, 6);
    assert LittleEndian(496, 8) == [0xf0] + LittleEndian(1, 7);
  }

  ghost predicate IsFirst(x: seq<Word>)
  {
    && |x| == 16
    && x[0] == Word(0x44434241) && x[1] == Word(0x48474645) && x[2] == Word(0x4c4b4a49) && x[3] == Word(0x504f4e4d)
    && x[4] == Word(0x54535251) && x[5] == Word(0x58575655) && x[6] == Word(0x62615a59) && x[7] == Word(0x66656463)
    && x[8] == Word(0x6a696867) && x[9] == Word(0x6e6d6c6b) && x[10] == Word(0x7271706f) && x[11] == Word(0x76757473)
    && x[12] == Word(0x7a797877) && x[13] == Word(0x33323130) && x[14] == Word(0x37363534) && x[15] == Word(0x00803938)
  }

  ghost predicate IsSecond(x: seq<Word>)
  {
    && |x| == 16
    && x[0] == Word(0x00000000) && x[1] == Word(0x00000000) && x[2] == Word(0x00000000) && x[3] == Word(0x00000000)
    && x[4] == Word(0x00000000) && x[5] == Word(0x00000000) && x[6] == Word(0x00000000) && x[7] == Word(0x00000000)
    && x[8] == Word(0x00000000) && x[9] == Word(0x00000000) && x[10] == Word(0x00000000) && x[11] == Word(0x00000000)
    && x[12] == Word(0x00000000) && x[13] == Word(0x00000000) && x[14] == Word(0x000001f0) && x[15] == Word(0x00000000)
  }

  lemma FirstWords()
    ensures IsFirst(Words(FirstBlock()))
  {
    hide WordOf;
    WordIs(65, 66, 67, 68, Word(0x44434241));
    WordIs(69, 70, 71, 72, Word(0x48474645));
    WordIs(73, 74, 75, 76, Word(0x4c4b4a49));
    WordIs(77, 78, 79, 80, Word(0x504f4e4d));
    WordIs(81, 82, 83, 84, Word(0x54535251));
    WordIs(85, 86, 87, 88, Word(0x58575655));
    WordIs(89, 90, 97, 98, Word(0x62615a59));
    WordIs(99, 100, 101, 102, Word(0x66656463));
    WordIs(103, 104, 105, 106, Word(0x6a696867));
    WordIs(107, 108, 109, 110, Word(0x6e6d6c6b));
    WordIs(111, 112, 113, 114, Word(0x7271706f));
    WordIs(115, 116, 117, 118, Word(0x76757473));
    WordIs(119, 120, 121, 122, Word(0x7a797877));
    WordIs(48, 49, 50, 51, Word(0x33323130));
    WordIs(52, 53, 54, 55, Word(0x37363534));
    WordIs(56, 57, 128, 0, Word(0x00803938));
  }

  lemma SecondWords()
    ensures IsSecond(Words(SecondBlock()))
  {
    hide WordOf;
    WordIs(0, 0, 0, 0, Word(0x00000000));
    WordIs(0xf0, 1, 0, 0, Word(0x000001f0));
  }

  lemma FirstRound1(x: seq<Word>)
    requires IsFirst(x)
    ensures
      Steps(Regs(Word(0x67452301), Word(0xefcdab89), Word(0x98badcfe), Word(0x10325476)), x, 0, 64) ==
      Steps(Regs(Word(0x3cbdcd45), Word(0x5d38e690), Word(0xfa148c8a), Word(0xb8dec763)), x, 16, 64)
  {
    hide Steps, Mix, T, Shift, WordIndex;
    Round1Constants();
    FourSets(Regs(Word(0x67452301), Word(0xefcdab89), Word(0x98badcfe), Word(0x10325476)),
             Regs(Word(0xc6c10796), Word(0x27bce07a), Word(0x11067980), Word(0x99a09999)), x, 0, 64);
    FourSets(Regs(Word(0xc6c10796), Word(0x27bce07a), Word(0x11067980), Word(0x99a09999)),
             Regs(Word(0xf22e6c4e), Word(0xa4799506), Word(0xa95a2fc0), Word(0xb4ac9218)), x, 4, 64);
    FourSets(Regs(Word(0xf22e6c4e), Word(0xa4799506), Word(0xa95a2fc0), Word(0xb4ac9218)),
             Regs(Word(0x1eb3e7c1), Word(0x8a7612ec), Word(0xca27520b), Word(0xa6e70cfe)), x, 8, 64);
    FourSets(Regs(Word(0x1eb3e7c1), Word(0x8a7612ec), Word(0xca27520b), Word(0xa6e70cfe)),
             Regs(Word(0x3cbdcd45), Word(0x5d38e690), Word(0xfa148c8a), Word(0xb8dec763)), x, 12, 64);
  }

  lemma FirstRound2(x: seq<Word>)
    requires IsFirst(x)
    ensures
      Steps(Regs(Word(0x3cbdcd45), Word(0x5d38e690), Word(0xfa148c8a), Word(0xb8dec763)), x, 16, 64) ==
      Steps(Regs(Word(0x9b085fa9), Word(0xdd789ecc), Word(0x5993248f), Word(0x4400a9bd)), x, 32, 64)
  {
    hide Steps, Mix, T, Shift, WordIndex;
    Round2Constants();
    FourSets(Regs(Word(0x3cbdcd45), Word(0x5d38e690), Word(0xfa148c8a), Word(0xb8dec763)),
             Regs(Word(0x04b9d52a), Word(0x47ae7c81), Word(0xd3ee3ed1), Word(0x783002eb)), x, 16, 64);
    FourSets(Regs(Word(0x04b9d52a), Word(0x47ae7c81), Word(0xd3ee3ed1), Word(0x783002eb)),
             Regs(Word(0x2d7d8a3f), Word(0x75292030), Word(0x4b534dc3), Word(0xd1210823)), x, 20, 64);
    FourSets(Regs(Word(0x2d7d8a3f), Word(0x75292030), Word(0x4b534dc3), Word(0xd1210823)),
             Regs(Word(0x9d2a6e33), Word(0xf2ff6ea0), Word(0xd473b564), Word(0x0e8d2e44)), x, 24, 64);
    FourSets(Regs(Word(0x9d2a6e33), Word(0xf2ff6ea0), Word(0xd473b564), Word(0x0e8d2e44)),
             Regs(Word(0x9b085fa9), Word(0xdd789ecc), Word(0x5993248f), Word(0x4400a9bd)), x, 28, 64);
  }

  lemma FirstRound3(x: seq<Word>)
    requires IsFirst(x)
    ensures
      Steps(Regs(Word(0x9b085fa9), Word(0xdd789ecc), Word(0x5993248f), Word(0x4400a9bd)), x, 32, 64) ==
      Steps(Regs(Word(0x2dbee21d), Word(0xf166f514), Word(0xee46e961), Word(0xe95c3a43)), x, 48, 64)
  {
    hide Steps, Mix, T, Shift, WordIndex;
    Round3Constants();
    FourSets(Regs(Word(0x9b085fa9), Word(0xdd789ecc), Word(0x5993248f), Word(0x4400a9bd)),
             Regs(Word(0x21c8d2b7), Word(0x1b9504f8), Word(0x056ec119), Word(0x1d55a18e)), x, 32, 64);
    FourSets(Regs(Word(0x21c8d2b7), Word(0x1b9504f8), Word(0x056ec119), Word(0x1d55a18e)),
             Regs(Word(0x436b7fe9), Word(0xcf0341ed), Word(0xf404c2f6), Word(0x075800c1)), x, 36, 64);
    FourSets(Regs(Word(0x436b7fe9), Word(0xcf0341ed), Word(0xf404c2f6), Word(0x075800c1)),
             Regs(Word(0x888e7d8a), Word(0x047b9419), Word(0xce620273), Word(0xbbdaecd8)), x, 40, 64);
    FourSets(Regs(Word(0x888e7d8a), Word(0x047b9419), Word(0xce620273), Word(0xbbdaecd8)),
             Regs(Word(0x2dbee21d), Word(0xf166f514), Word(0xee46e961), Word(0xe95c3a43)), x, 44, 64);
  }

  lemma FirstRound4(x: seq<Word>)
    requires IsFirst(x)
    ensures
      Steps(Regs(Word(0x2dbee21d), Word(0xf166f514), Word(0xee46e961), Word(0xe95c3a43)), x, 48, 64) ==
      Steps(Regs(Word(0x1cb80f0a), Word(0xef2e3a46), Word(0x10f68731), Word(0xea3d3eb4)), x, 64, 64)
  {
    hide Steps, Mix, T, Shift, WordIndex;
    Round4Constants();
    FourSets(Regs(Word(0x2dbee21d), Word(0xf166f514), Word(0xee46e961), Word(0xe95c3a43)),
             Regs(Word(0xe47fd4f3), Word(0x7a13bc5c), Word(0xf22aedcc), Word(0xfb887751)), x, 48, 64);
    FourSets(Regs(Word(0xe47fd4f3), Word(0x7a13bc5c), Word(0xf22aedcc), Word(0xfb887751)),
             Regs(Word(0xa691d430), Word(0xefb0e72f), Word(0x3fc23df6), Word(0x528452f2)), x, 52, 64);
    FourSets(Regs(Word(0xa691d430), Word(0xefb0e72f), Word(0x3fc23df6), Word(0x528452f2)),
             Regs(Word(0x27145703), Word(0x49d9a5b4), Word(0x374fbe79), Word(0x21a11069)), x, 56, 64);
    FourSets(Regs(Word(0x27145703), Word(0x49d9a5b4), Word(0x374fbe79), Word(0x21a11069)),
             Regs(Word(0x1cb80f0a), Word(0xef2e3a46), Word(0x10f68731), Word(0xea3d3eb4)), x, 60, 64);
  }

  lemma SecondRound1(x: seq<Word>)
    requires IsSecond(x)
    ensures
      Steps(Regs(Word(0x83fd320b), Word(0xdefbe5cf), Word(0xa9b1642f), Word(0xfa6f932a)), x, 0, 64) ==
      Steps(Regs(Word(0xa70737da), Word(0xa36f556f), Word(0x96f6586e), Word(0x5473f8a7)), x, 16, 64)
  {
    hide Steps, Mix, T, Shift, WordIndex;
    Round1Constants();
    FourSets(Regs(Word(0x83fd320b), Word(0xdefbe5cf), Word(0xa9b1642f), Word(0xfa6f932a)),
             Regs(Word(0xeda23ed1), Word(0xddcf0634), Word(0x3c307338), Word(0x989939cf)), x, 0, 64);
    FourSets(Regs(Word(0xeda23ed1), Word(0xddcf0634), Word(0x3c307338), Word(0x989939cf)),
             Regs(Word(0x75144433), Word(0x99b6b699), Word(0xc783cb60), Word(0xc8875807)), x, 4, 64);
    FourSets(Regs(Word(0x75144433), Word(0x99b6b699), Word(0xc783cb60), Word(0xc8875807)),
             Regs(Word(0xa60a3f69), Word(0x64cc7c5a), Word(0x64db26e9), Word(0xaa6630be)), x, 8, 64);
    FourSets(Regs(Word(0xa60a3f69), Word(0x64cc7c5a), Word(0x64db26e9), Word(0xaa6630be)),
             Regs(Word(0xa70737da), Word(0xa36f556f), Word(0x96f6586e), Word(0x5473f8a7)), x, 12, 64);
  }

  lemma SecondRound2(x: seq<Word>)
    requires IsSecond(x)
    ensures
      Steps(Regs(Word(0xa70737da), Word(0xa36f556f), Word(0x96f6586e), Word(0x5473f8a7)), x, 16, 64) ==
      Steps(Regs(Word(0x24eba695), Word(0x9c03e2e8), Word(0x10c42a2f), Word(0x4bd0378b)), x, 32, 64)
  {
    hide Steps, Mix, T, Shift, WordIndex;
    Round2Constants();
    FourSets(Regs(Word(0xa70737da), Word(0xa36f556f), Word(0x96f6586e), Word(0x5473f8a7)),
             Regs(Word(0xa5050ad3), Word(0x82b8827c), Word(0x27dcd8b4), Word(0x28776046)), x, 16, 64);
    FourSets(Regs(Word(0xa5050ad3), Word(0x82b8827c), Word(0x27dcd8b4), Word(0x28776046)),
             Regs(Word(0xe04f070c), Word(0xdf35cb56), Word(0xc0d22b61), Word(0x2f3cd2a2)), x, 20, 64);
    FourSets(Regs(Word(0xe04f070c), Word(0xdf35cb56), Word(0xc0d22b61), Word(0x2f3cd2a2)),
             Regs(Word(0x242dd210), Word(0x2291191a), Word(0x5c295967), Word(0x576ace33)), x, 24, 64);
    FourSets(Regs(Word(0x242dd210), Word(0x2291191a), Word(0x5c295967), Word(0x576ace33)),
             Regs(Word(0x24eba695), Word(0x9c03e2e8), Word(0x10c42a2f), Word(0x4bd0378b)), x, 28, 64);
  }

  lemma SecondRound3(x: seq<Word>)
    requires IsSecond(x)
    ensures
      Steps(Regs(Word(0x24eba695), Word(0x9c03e2e8), Word(0x10c42a2f), Word(0x4bd0378b)), x, 32, 64) ==
      Steps(Regs(Word(0x54c9eb3a), Word(0x79c0710a), Word(0x2ec86f72), Word(0xd4d9c6ac)), x, 48, 64)
  {
    hide Steps, Mix, T, Shift, WordIndex;
    Round3Constants();
    FourSets(Regs(Word(0x24eba695), Word(0x9c03e2e8), Word(0x10c42a2f), Word(0x4bd0378b)),
             Regs(Word(0x5be1d526), Word(0xa2448453), Word(0x9f4a1a7e), Word(0x9e414279)), x, 32, 64);
    FourSets(Regs(Word(0x5be1d526), Word(0xa2448453), Word(0x9f4a1a7e), Word(0x9e414279)),
             Regs(Word(0xe14e403d), Word(0xfe314121), Word(0x60cc183a), Word(0xe8cfd670)), x, 36, 64);
    FourSets(Regs(Word(0xe14e403d), Word(0xfe314121), Word(0x60cc183a), Word(0xe8cfd670)),
             Regs(Word(0xfff62809), Word(0x7c7e974c), Word(0x8cb5221c), Word(0xe37209ac)), x, 40, 64);
    FourSets(Regs(Word(0xfff62809), Word(0x7c7e974c), Word(0x8cb5221c), Word(0xe37209ac)),
             Regs(Word(0x54c9eb3a), Word(0x79c0710a), Word(0x2ec86f72), Word(0xd4d9c6ac)), x, 44, 64);
  }

  lemma SecondRound4(x: seq<Word>)
    requires IsSecond(x)
    ensures
      Steps(Regs(Word(0x54c9eb3a), Word(0x79c0710a), Word(0x2ec86f72), Word(0xd4d9c6ac)), x, 48, 64) ==
      Steps(Regs(Word(0x14ae42c6), Word(0x16dd9203), Word(0x826afd76), Word(0xa52dae75)), x, 64, 64)
  {
    hide Steps, Mix, T, Shift, WordIndex;
    Round4Constants();
    FourSets(Regs(Word(0x54c9eb3a), Word(0x79c0710a), Word(0x2ec86f72), Word(0xd4d9c6ac)),
             Regs(Word(0x02095af1), Word(0x2ba98e3f), Word(0xa8dcfe26), Word(0x13d245fd)), x, 48, 64);
    FourSets(Regs(Word(0x02095af1), Word(0x2ba98e3f), Word(0xa8dcfe26), Word(0x13d245fd)),
             Regs(Word(0xe126c1aa), Word(0xfb7bcee0), Word(0x6f287ff5), Word(0x96b00fa7)), x, 52, 64);
    FourSets(Regs(Word(0xe126c1aa), Word(0xfb7bcee0), Word(0x6f287ff5), Word(0x96b00fa7)),
             Regs(Word(0x452c1099), Word(0x5ac74608), Word(0xc197ea8e), Word(0xca801ba6)), x, 56, 64);
    FourSets(Regs(Word(0x452c1099), Word(0x5ac74608), Word(0xc197ea8e), Word(0xca801ba6)),
             Regs(Word(0x14ae42c6), Word(0x16dd9203), Word(0x826afd76), Word(0xa52dae75)), x, 60, 64);
  }

  lemma FirstUpdate()
    ensures
      BlockUpdate(INIT, FirstBlock()) ==
      Regs(Word(0x83fd320b), Word(0xdefbe5cf), Word(0xa9b1642f), Word(0xfa6f932a))
  {
    hide Words, Step;
    FirstWords();
    FirstRound1(Words(FirstBlock()));
    FirstRound2(Words(FirstBlock()));
    FirstRound3(Words(FirstBlock()));
    FirstRound4(Words(FirstBlock()));
  }

  lemma SecondUpdate()
    ensures
      BlockUpdate(Regs(Word(0x83fd320b), Word(0xdefbe5cf), Word(0xa9b1642f), Word(0xfa6f932a)), SecondBlock()) ==
      Regs(Word(0x98ab74d1), Word(0xf5d977d2), Word(0x2c1c61a5), Word(0x9f9d419f))
  {
    hide Words, Step;
    SecondWords();
    SecondRound1(Words(SecondBlock()));
    SecondRound2(Words(SecondBlock()));
    SecondRound3(Words(SecondBlock()));
    SecondRound4(Words(SecondBlock()));
  }

  lemma OutputBytes(w: Word, b0: Byte, b1: Byte, b2: Byte, b3: Byte)
    requires w.bits as int == b0 + b1 * 0x100 + b2 * 0x1_0000 + b3 * 0x100_0000
    ensures WordBytes(w) == [b0, b1, b2, b3]
  {
    FourBytesOf(b0, b1, b2, b3);
  }

  /** d174ab98d277d9f5a5611c2c9f419d9f */
  lemma PublishedDigest()
    ensures Digest(Message()) ==
      [0xd1, 0x74, 0xab, 0x98, 0xd2, 0x77, 0xd9, 0xf5,
       0xa5, 0x61, 0x1c, 0x2c, 0x9f, 0x41, 0x9d, 0x9f]
  {
    hide BlockUpdate, WordBytes, Absorb, Pad;
    Padded();
    EmptyAbsorbs();
    AbsorbBlock(INIT, [], FirstBlock());
    AbsorbBlock(INIT, FirstBlock(), SecondBlock());
    assert [] + FirstBlock() == FirstBlock();
    FirstUpdate();
    SecondUpdate();
    OutputBytes(Word(0x98ab74d1), 0xd1, 0x74, 0xab, 0x98);
    OutputBytes(Word(0xf5d977d2), 0xd2, 0x77, 0xd9, 0xf5);
    OutputBytes(Word(0x2c1c61a5), 0xa5, 0x61, 0x1c, 0x2c);
    OutputBytes(Word(0x9f9d419f), 0x9f, 0x41, 0x9d, 0x9f);
  }

  lemma EmptyAbsorbs()
    ensures Absorb(INIT, []) == INIT
  {
  }
}

/**
 * One block of the MD5 implementation in package/luci-0.11/contrib/lar/md5.c: the macros,
 * the constants as the code writes them, and the 64 hand-unrolled SET lines with renamed
 * registers, each round proved to be sixteen steps of the reference in module Rfc1321.
 */
module Md5Rounds {
  import opened Rfc1321

  const T_MASK: bv32 := 0xFFFFFFFF

  const T1: Word := Word(T_MASK ^ 0x28955b87)
  const T2: Word := Word(T_MASK ^ 0x173848a9)
  const T3: Word := Word(0x242070db)
  const T4: Word := Word(T_MASK ^ 0x3e423111)
  const T5: Word := Word(T_MASK ^ 0x0a83f050)
  const T6: Word := Word(0x4787c62a)
  const T7: Word := Word(T_MASK ^ 0x57cfb9ec)
  const T8: Word := Word(T_MASK ^ 0x02b96afe)
  const T9: Word := Word(0x698098d8)
  const T10: Word := Word(T_MASK ^ 0x74bb0850)
  const T11: Word := Word(T_MASK ^ 0x0000a44e)
  const T12: Word := Word(T_MASK ^ 0x76a32841)
  const T13: Word := Word(0x6b901122)
  const T14: Word := Word(T_MASK ^ 0x02678e6c)
  const T15: Word := Word(T_MASK ^ 0x5986bc71)
  const T16: Word := Word(0x49b40821)
  const T17: Word := Word(T_MASK ^ 0x09e1da9d)
  const T18: Word := Word(T_MASK ^ 0x3fbf4cbf)
  const T19: Word := Word(0x265e5a51)
  const T20: Word := Word(T_MASK ^ 0x16493855)
  const T21: Word := Word(T_MASK ^ 0x29d0efa2)
  const T22: Word := Word(0x02441453)
  const T23: Word := Word(T_MASK ^ 0x275e197e)
  const T24: Word := Word(T_MASK ^ 0x182c0437)
  const T25: Word := Word(0x21e1cde6)
  const T26: Word := Word(T_MASK ^ 0x3cc8f829)
  const T27: Word := Word(T_MASK ^ 0x0b2af278)
  const T28: Word := Word(0x455a14ed)
  const T29: Word := Word(T_MASK ^ 0x561c16fa)
  const T30: Word := Word(T_MASK ^ 0x03105c07)
  const T31: Word := Word(0x676f02d9)
  const T32: Word := Word(T_MASK ^ 0x72d5b375)
  const T33: Word := Word(T_MASK ^ 0x0005c6bd)
  const T34: Word := Word(T_MASK ^ 0x788e097e)
  const T35: Word := Word(0x6d9d6122)
  const T36: Word := Word(T_MASK ^ 0x021ac7f3)
  const T37: Word := Word(T_MASK ^ 0x5b4115bb)
  const T38: Word := Word(0x4bdecfa9)
  const T39: Word := Word(T_MASK ^ 0x0944b49f)
  const T40: Word := Word(T_MASK ^ 0x4140438f)
  const T41: Word := Word(0x289b7ec6)
  const T42: Word := Word(T_MASK ^ 0x155ed805)
  const T43: Word := Word(T_MASK ^ 0x2b10cf7a)
  const T44: Word := Word(0x04881d05)
  const T45: Word := Word(T_MASK ^ 0x262b2fc6)
  const T46: Word := Word(T_MASK ^ 0x1924661a)
  const T47: Word := Word(0x1fa27cf8)
  const T48: Word := Word(T_MASK ^ 0x3b53a99a)
  const T49: Word := Word(T_MASK ^ 0x0bd6ddbb)
  const T50: Word := Word(0x432aff97)
  const T51: Word := Word(T_MASK ^ 0x546bdc58)
  const T52: Word := Word(T_MASK ^ 0x036c5fc6)
  const T53: Word := Word(0x655b59c3)
  const T54: Word := Word(T_MASK ^ 0x70f3336d)
  const T55: Word := Word(T_MASK ^ 0x00100b82)
  const T56: Word := Word(T_MASK ^ 0x7a7ba22e)
  const T57: Word := Word(0x6fa87e4f)
  const T58: Word := Word(T_MASK ^ 0x01d3191f)
  const T59: Word := Word(T_MASK ^ 0x5cfebceb)
  const T60: Word := Word(0x4e0811a1)
  const T61: Word := Word(T_MASK ^ 0x08ac817d)
  const T62: Word := Word(T_MASK ^ 0x42c50dca)
  const T63: Word := Word(0x2ad7d2bb)
  const T64: Word := Word(T_MASK ^ 0x14792c6e)

  function ShiftLeft(x: Word, n: bv6): Word
    requires n < 32
  {
    Word(x.bits << n)
  }

  function ShiftRight(x: Word, n: bv6): Word
    requires n <= 32
  {
    Word(x.bits >> n)
  }

  function Or(x: Word, y: Word): Word { Word(x.bits | y.bits) }

  /** The ROTATE_LEFT macro. */
  function RotateLeft(x: Word, n: bv6): Word
    requires n < 32
  {
    Or(ShiftLeft(x, n), ShiftRight(x, 32 - n))
  }

  /** The SET macro: the value it stores in its first argument. */
  function Set(a: Word, f: Word, b: Word, xk: Word, s: bv6, ti: Word): Word
    requires s < 32
  {
    var t := Plus(Plus(Plus(a, f), xk), ti);
    Plus(RotateLeft(t, s), b)
  }

  lemma ShiftLeftMore(x: Word, n: bv6)
    requires 0 < n < 32
    ensures ShiftLeft(ShiftLeft(x, n - 1), 1) == ShiftLeft(x, n)
  {
  }

  lemma ShiftRightLess(x: Word, n: bv6)
    requires 0 < n < 32
    ensures Or(ShiftLeft(ShiftRight(x, 33 - n), 1), ShiftRight(ShiftLeft(x, n - 1), 31)) == ShiftRight(x, 32 - n)
    ensures ShiftRight(ShiftRight(x, 33 - n), 31) == Word(0)
  {
  }

  lemma RotateByOneOfOr(y: Word, z: Word)
    requires ShiftRight(z, 31) == Word(0)
    ensures RotateByOne(Or(y, z)) == Or(ShiftLeft(y, 1), Or(ShiftLeft(z, 1), ShiftRight(y, 31)))
  {
  }

  lemma RotateByNothing(x: Word)
    ensures Or(ShiftLeft(x, 0), ShiftRight(x, 32)) == x
  {
  }

  lemma {:induction false} RotateLeftRotates(x: Word, n: bv6)
    requires n < 32
    ensures RotateLeft(x, n) == Rotate(x, n)
    decreases n
  {
    hide RotateByOne, ShiftLeft, ShiftRight, Or;
    if n == 0 {
      RotateByNothing(x);
    } else {
      RotateLeftRotates(x, n - 1);
      ShiftLeftMore(x, n);
      ShiftRightLess(x, n);
      RotateByOneOfOr(ShiftLeft(x, n - 1), ShiftRight(x, 33 - n));
      assert Rotate(x, n) == RotateByOne(Rotate(x, n - 1));
    }
  }

  lemma PlusCommutes(x: Word, y: Word)
    ensures Plus(x, y) == Plus(y, x)
  {
  }

  lemma SetIsOperation(a: Word, f: Word, b: Word, xk: Word, s: bv6, ti: Word)
    requires s < 32
    ensures Set(a, f, b, xk, s, ti) == Operation(a, f, b, xk, s, ti)
  {
    hide RotateLeft, Rotate, Plus;
    var t := Plus(Plus(Plus(a, f), xk), ti);
    RotateLeftRotates(t, s);
    assert Plus(RotateLeft(t, s), b) == Plus(b, RotateLeft(t, s)) by { PlusCommutes(RotateLeft(t, s), b); }
  }

  lemma SetIsStep(r: Regs, x: seq<Word>, i: nat)
    requires |x| == 16 && i < 64
    ensures NewValue(r, x, i) == Set(r.a, Mix(i, r.b, r.c, r.d), r.b, x[WordIndex(i)], Shift(i), T(i))
  {
    hide Mix, T, Shift, WordIndex, Set, Operation;
    SetIsOperation(r.a, Mix(i, r.b, r.c, r.d), r.b, x[WordIndex(i)], Shift(i), T(i));
  }

  /** Four consecutive SETs on (a,b,c,d), (d,a,b,c), (c,d,a,b), (b,c,d,a) are four steps. */
  lemma FourSets(r: Regs, q: Regs, x: seq<Word>, i: nat, j: nat)
    requires |x| == 16 && i + 4 <= j <= 64
    requires q.a == Set(r.a, Mix(i, r.b, r.c, r.d), r.b, x[WordIndex(i)], Shift(i), T(i))
    requires q.d == Set(r.d, Mix(i + 1, q.a, r.b, r.c), q.a, x[WordIndex(i + 1)], Shift(i + 1), T(i + 1))
    requires q.c == Set(r.c, Mix(i + 2, q.d, q.a, r.b), q.d, x[WordIndex(i + 2)], Shift(i + 2), T(i + 2))
    requires q.b == Set(r.b, Mix(i + 3, q.c, q.d, q.a), q.c, x[WordIndex(i + 3)], Shift(i + 3), T(i + 3))
    ensures Steps(r, x, i, j) == Steps(q, x, i + 4, j)
    ensures Steps(q, x, j, j) == q
  {
    hide Mix, T, Set, Shift, WordIndex, NewValue;
    var r1 := Step(r, x, i);
    var r2 := Step(r1, x, i + 1);
    var r3 := Step(r2, x, i + 2);
    SetIsStep(r, x, i);
    SetIsStep(r1, x, i + 1);
    SetIsStep(r2, x, i + 2);
    SetIsStep(r3, x, i + 3);
    assert Steps(r2, x, i + 2, j) == Steps(Step(r3, x, i + 3), x, i + 4, j);
  }

  /** Round 1 of the code uses the schedule of the RFC. */
  lemma Round1Constants()
    ensures forall i: nat, x, y, z | 0 <= i < 16 :: Mix(i, x, y, z) == F(x, y, z)
    ensures WordIndex(0) == 0 && Shift(0) == 7 && T(0) == T1
    ensures WordIndex(1) == 1 && Shift(1) == 12 && T(1) == T2
    ensures WordIndex(2) == 2 && Shift(2) == 17 && T(2) == T3
    ensures WordIndex(3) == 3 && Shift(3) == 22 && T(3) == T4
    ensures WordIndex(4) == 4 && Shift(4) == 7 && T(4) == T5
    ensures WordIndex(5) == 5 && Shift(5) == 12 && T(5) == T6
    ensures WordIndex(6) == 6 && Shift(6) == 17 && T(6) == T7
    ensures WordIndex(7) == 7 && Shift(7) == 22 && T(7) == T8
    ensures WordIndex(8) == 8 && Shift(8) == 7 && T(8) == T9
    ensures WordIndex(9) == 9 && Shift(9) == 12 && T(9) == T10
    ensures WordIndex(10) == 10 && Shift(10) == 17 && T(10) == T11
    ensures WordIndex(11) == 11 && Shift(11) == 22 && T(11) == T12
    ensures WordIndex(12) == 12 && Shift(12) == 7 && T(12) == T13
    ensures WordIndex(13) == 13 && Shift(13) == 12 && T(13) == T14
    ensures WordIndex(14) == 14 && Shift(14) == 17 && T(14) == T15
    ensures WordIndex(15) == 15 && Shift(15) == 22 && T(15) == T16
  {
    hide F, G, H, I;
  }

  /** Round 2 of the code uses the schedule of the RFC. */
  lemma Round2Constants()
    ensures forall i: nat, x, y, z | 16 <= i < 32 :: Mix(i, x, y, z) == G(x, y, z)
    ensures WordIndex(16) == 1 && Shift(16) == 5 && T(16) == T17
    ensures WordIndex(17) == 6 && Shift(17) == 9 && T(17) == T18
    ensures WordIndex(18) == 11 && Shift(18) == 14 && T(18) == T19
    ensures WordIndex(19) == 0 && Shift(19) == 20 && T(19) == T20
    ensures WordIndex(20) == 5 && Shift(20) == 5 && T(20) == T21
    ensures WordIndex(21) == 10 && Shift(21) == 9 && T(21) == T22
    ensures WordIndex(22) == 15 && Shift(22) == 14 && T(22) == T23
    ensures WordIndex(23) == 4 && Shift(23) == 20 && T(23) == T24
    ensures WordIndex(24) == 9 && Shift(24) == 5 && T(24) == T25
    ensures WordIndex(25) == 14 && Shift(25) == 9 && T(25) == T26
    ensures WordIndex(26) == 3 && Shift(26) == 14 && T(26) == T27
    ensures WordIndex(27) == 8 && Shift(27) == 20 && T(27) == T28
    ensures WordIndex(28) == 13 && Shift(28) == 5 && T(28) == T29
    ensures WordIndex(29) == 2 && Shift(29) == 9 && T(29) == T30
    ensures WordIndex(30) == 7 && Shift(30) == 14 && T(30) == T31
    ensures WordIndex(31) == 12 && Shift(31) == 20 && T(31) == T32
  {
    hide F, G, H, I;
  }

  /** Round 3 of the code uses the schedule of the RFC. */
  lemma Round3Constants()
    ensures forall i: nat, x, y, z | 32 <= i < 48 :: Mix(i, x, y, z) == H(x, y, z)
    ensures WordIndex(32) == 5 && Shift(32) == 4 && T(32) == T33
    ensures WordIndex(33) == 8 && Shift(33) == 11 && T(33) == T34
    ensures WordIndex(34) == 11 && Shift(34) == 16 && T(34) == T35
    ensures WordIndex(35) == 14 && Shift(35) == 23 && T(35) == T36
    ensures WordIndex(36) == 1 && Shift(36) == 4 && T(36) == T37
    ensures WordIndex(37) == 4 && Shift(37) == 11 && T(37) == T38
    ensures WordIndex(38) == 7 && Shift(38) == 16 && T(38) == T39
    ensures WordIndex(39) == 10 && Shift(39) == 23 && T(39) == T40
    ensures WordIndex(40) == 13 && Shift(40) == 4 && T(40) == T41
    ensures WordIndex(41) == 0 && Shift(41) == 11 && T(41) == T42
    ensures WordIndex(42) == 3 && Shift(42) == 16 && T(42) == T43
    ensures WordIndex(43) == 6 && Shift(43) == 23 && T(43) == T44
    ensures WordIndex(44) == 9 && Shift(44) == 4 && T(44) == T45
    ensures WordIndex(45) == 12 && Shift(45) == 11 && T(45) == T46
    ensures WordIndex(46) == 15 && Shift(46) == 16 && T(46) == T47
    ensures WordIndex(47) == 2 && Shift(47) == 23 && T(47) == T48
  {
    hide F, G, H, I;
  }

  /** Round 4 of the code uses the schedule of the RFC. */
  lemma Round4Constants()
    ensures forall i: nat, x, y, z | 48 <= i < 64 :: Mix(i, x, y, z) == I(x, y, z)
    ensures WordIndex(48) == 0 && Shift(48) == 6 && T(48) == T49
    ensures WordIndex(49) == 7 && Shift(49) == 10 && T(49) == T50
    ensures WordIndex(50) == 14 && Shift(50) == 15 && T(50) == T51
    ensures WordIndex(51) == 5 && Shift(51) == 21 && T(51) == T52
    ensures WordIndex(52) == 12 && Shift(52) == 6 && T(52) == T53
    ensures WordIndex(53) == 3 && Shift(53) == 10 && T(53) == T54
    ensures WordIndex(54) == 10 && Shift(54) == 15 && T(54) == T55
    ensures WordIndex(55) == 1 && Shift(55) == 21 && T(55) == T56
    ensures WordIndex(56) == 8 && Shift(56) == 6 && T(56) == T57
    ensures WordIndex(57) == 15 && Shift(57) == 10 && T(57) == T58
    ensures WordIndex(58) == 6 && Shift(58) == 15 && T(58) == T59
    ensures WordIndex(59) == 13 && Shift(59) == 21 && T(59) == T60
    ensures WordIndex(60) == 4 && Shift(60) == 6 && T(60) == T61
    ensures WordIndex(61) == 11 && Shift(61) == 10 && T(61) == T62
    ensures WordIndex(62) == 2 && Shift(62) == 15 && T(62) == T63
    ensures WordIndex(63) == 9 && Shift(63) == 21 && T(63) == T64
  {
    hide F, G, H, I;
  }

  method Round1(a0: Word, b0: Word, c0: Word, d0: Word, x: seq<Word>)
    returns (a: Word, b: Word, c: Word, d: Word)
    requires |x| == 16
    ensures Regs(a, b, c, d) == Steps(Regs(a0, b0, c0, d0), x, 0, 16)
  {
    a, b, c, d := a0, b0, c0, d0;
    hide F, G, H, I, Set, Steps, T, Mix, WordIndex, Shift;
    Round1Constants();
    ghost var r := Regs(a, b, c, d);
    a := Set(a, F(b, c, d), b, x[0], 7, T1);
    d := Set(d, F(a, b, c), a, x[1], 12, T2);
    c := Set(c, F(d, a, b), d, x[2], 17, T3);
    b := Set(b, F(c, d, a), c, x[3], 22, T4);
    FourSets(r, Regs(a, b, c, d), x, 0, 16);
    r := Regs(a, b, c, d);
    a := Set(a, F(b, c, d), b, x[4], 7, T5);
    d := Set(d, F(a, b, c), a, x[5], 12, T6);
    c := Set(c, F(d, a, b), d, x[6], 17, T7);
    b := Set(b, F(c, d, a), c, x[7], 22, T8);
    FourSets(r, Regs(a, b, c, d), x, 4, 16);
    r := Regs(a, b, c, d);
    a := Set(a, F(b, c, d), b, x[8], 7, T9);
    d := Set(d, F(a, b, c), a, x[9], 12, T10);
    c := Set(c, F(d, a, b), d, x[10], 17, T11);
    b := Set(b, F(c, d, a), c, x[11], 22, T12);
    FourSets(r, Regs(a, b, c, d), x, 8, 16);
    r := Regs(a, b, c, d);
    a := Set(a, F(b, c, d), b, x[12], 7, T13);
    d := Set(d, F(a, b, c), a, x[13], 12, T14);
    c := Set(c, F(d, a, b), d, x[14], 17, T15);
    b := Set(b, F(c, d, a), c, x[15], 22, T16);
    FourSets(r, Regs(a, b, c, d), x, 12, 16);
  }

  method Round2(a0: Word, b0: Word, c0: Word, d0: Word, x: seq<Word>)
    returns (a: Word, b: Word, c: Word, d: Word)
    requires |x| == 16
    ensures Regs(a, b, c, d) == Steps(Regs(a0, b0, c0, d0), x, 16, 32)
  {
    a, b, c, d := a0, b0, c0, d0;
    hide F, G, H, I, Set, Steps, T, Mix, WordIndex, Shift;
    Round2Constants();
    ghost var r := Regs(a, b, c, d);
    a := Set(a, G(b, c, d), b, x[1], 5, T17);
    d := Set(d, G(a, b, c), a, x[6], 9, T18);
    c := Set(c, G(d, a, b), d, x[11], 14, T19);
    b := Set(b, G(c, d, a), c, x[0], 20, T20);
    FourSets(r, Regs(a, b, c, d), x, 16, 32);
    r := Regs(a, b, c, d);
    a := Set(a, G(b, c, d), b, x[5], 5, T21);
    d := Set(d, G(a, b, c), a, x[10], 9, T22);
    c := Set(c, G(d, a, b), d, x[15], 14, T23);
    b := Set(b, G(c, d, a), c, x[4], 20, T24);
    FourSets(r, Regs(a, b, c, d), x, 20, 32);
    r := Regs(a, b, c, d);
    a := Set(a, G(b, c, d), b, x[9], 5, T25);
    d := Set(d, G(a, b, c), a, x[14], 9, T26);
    c := Set(c, G(d, a, b), d, x[3], 14, T27);
    b := Set(b, G(c, d, a), c, x[8], 20, T28);
    FourSets(r, Regs(a, b, c, d), x, 24, 32);
    r := Regs(a, b, c, d);
    a := Set(a, G(b, c, d), b, x[13], 5, T29);
    d := Set(d, G(a, b, c), a, x[2], 9, T30);
    c := Set(c, G(d, a, b), d, x[7], 14, T31);
    b := Set(b, G(c, d, a), c, x[12], 20, T32);
    FourSets(r, Regs(a, b, c, d), x, 28, 32);
  }

  method Round3(a0: Word, b0: Word, c0: Word, d0: Word, x: seq<Word>)
    returns (a: Word, b: Word, c: Word, d: Word)
    requires |x| == 16
    ensures Regs(a, b, c, d) == Steps(Regs(a0, b0, c0, d0), x, 32, 48)
  {
    a, b, c, d := a0, b0, c0, d0;
    hide F, G, H, I, Set, Steps, T, Mix, WordIndex, Shift;
    Round3Constants();
    ghost var r := Regs(a, b, c, d);
    a := Set(a, H(b, c, d), b, x[5], 4, T33);
    d := Set(d, H(a, b, c), a, x[8], 11, T34);
    c := Set(c, H(d, a, b), d, x[11], 16, T35);
    b := Set(b, H(c, d, a), c, x[14], 23, T36);
    FourSets(r, Regs(a, b, c, d), x, 32, 48);
    r := Regs(a, b, c, d);
    a := Set(a, H(b, c, d), b, x[1], 4, T37);
    d := Set(d, H(a, b, c), a, x[4], 11, T38);
    c := Set(c, H(d, a, b), d, x[7], 16, T39);
    b := Set(b, H(c, d, a), c, x[10], 23, T40);
    FourSets(r, Regs(a, b, c, d), x, 36, 48);
    r := Regs(a, b, c, d);
    a := Set(a, H(b, c, d), b, x[13], 4, T41);
    d := Set(d, H(a, b, c), a, x[0], 11, T42);
    c := Set(c, H(d, a, b), d, x[3], 16, T43);
    b := Set(b, H(c, d, a), c, x[6], 23, T44);
    FourSets(r, Regs(a, b, c, d), x, 40, 48);
    r := Regs(a, b, c, d);
    a := Set(a, H(b, c, d), b, x[9], 4, T45);
    d := Set(d, H(a, b, c), a, x[12], 11, T46);
    c := Set(c, H(d, a, b), d, x[15], 16, T47);
    b := Set(b, H(c, d, a), c, x[2], 23, T48);
    FourSets(r, Regs(a, b, c, d), x, 44, 48);
  }

  method Round4(a0: Word, b0: Word, c0: Word, d0: Word, x: seq<Word>)
    returns (a: Word, b: Word, c: Word, d: Word)
    requires |x| == 16
    ensures Regs(a, b, c, d) == Steps(Regs(a0, b0, c0, d0), x, 48, 64)
  {
    a, b, c, d := a0, b0, c0, d0;
    hide F, G, H, I, Set, Steps, T, Mix, WordIndex, Shift;
    Round4Constants();
    ghost var r := Regs(a, b, c, d);
    a := Set(a, I(b, c, d), b, x[0], 6, T49);
    d := Set(d, I(a, b, c), a, x[7], 10, T50);
    c := Set(c, I(d, a, b), d, x[14], 15, T51);
    b := Set(b, I(c, d, a), c, x[5], 21, T52);
    FourSets(r, Regs(a, b, c, d), x, 48, 64);
    r := Regs(a, b, c, d);
    a := Set(a, I(b, c, d), b, x[12], 6, T53);
    d := Set(d, I(a, b, c), a, x[3], 10, T54);
    c := Set(c, I(d, a, b), d, x[10], 15, T55);
    b := Set(b, I(c, d, a), c, x[1], 21, T56);
    FourSets(r, Regs(a, b, c, d), x, 52, 64);
    r := Regs(a, b, c, d);
    a := Set(a, I(b, c, d), b, x[8], 6, T57);
    d := Set(d, I(a, b, c), a, x[15], 10, T58);
    c := Set(c, I(d, a, b), d, x[6], 15, T59);
    b := Set(b, I(c, d, a), c, x[13], 21, T60);
    FourSets(r, Regs(a, b, c, d), x, 56, 64);
    r := Regs(a, b, c, d);
    a := Set(a, I(b, c, d), b, x[4], 6, T61);
    d := Set(d, I(a, b, c), a, x[11], 10, T62);
    c := Set(c, I(d, a, b), d, x[2], 15, T63);
    b := Set(b, I(c, d, a), c, x[9], 21, T64);
    FourSets(r, Regs(a, b, c, d), x, 60, 64);
  }
}

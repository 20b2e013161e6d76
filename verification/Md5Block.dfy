/** md5_process: the unrolled block function of md5.c, and the step of section 3.4 of RFC 1321 it must follow. */
module Md5Block {
  type Word = bv32
  type Byte = bv8

  datatype Regs = Regs(a: Word, b: Word, c: Word, d: Word)

  function F(x: Word, y: Word, z: Word): Word { (x & y) | (!x & z) }
  function G(x: Word, y: Word, z: Word): Word { (x & z) | (y & !z) }
  function H(x: Word, y: Word, z: Word): Word { x ^ y ^ z }
  function I(x: Word, y: Word, z: Word): Word { y ^ (x | !z) }

  function Rotl(x: Word, n: nat): Word
    requires n <= 32
  {
    (x << n) | (x >> (32 - n))
  }

  /** The macro SET, with the value of the auxiliary function passed in. */
  function Set(f: Word, a: Word, b: Word, x: Word, s: nat, t: Word): Word
    requires s <= 32
  {
    Rotl(a + f + x + t, s) + b
  }

  // ---------- One step of RFC 1321, i counted from 0 ----------

  function Auxiliary(i: nat, x: Word, y: Word, z: Word): Word {
    if i < 16 then F(x, y, z) else if i < 32 then G(x, y, z) else if i < 48 then H(x, y, z) else I(x, y, z)
  }

  /** The word of the block that step i uses. */
  function Index(i: nat): (k: nat)
    ensures k < 16
  {
    if i < 16 then i else if i < 32 then (5 * i + 1) % 16 else if i < 48 then (3 * i + 5) % 16 else 7 * i % 16
  }

  function Shift(i: nat): (s: nat)
    ensures s <= 32
  {
    var q := i % 4;
    if i < 16 then (if q == 0 then 7 else if q == 1 then 12 else if q == 2 then 17 else 22)
    else if i < 32 then (if q == 0 then 5 else if q == 1 then 9 else if q == 2 then 14 else 20)
    else if i < 48 then (if q == 0 then 4 else if q == 1 then 11 else if q == 2 then 16 else 23)
    else (if q == 0 then 6 else if q == 1 then 10 else if q == 2 then 15 else 21)
  }

  /** The table of section 3.4, made from the sine function. */
  function Sine(i: nat): Word {
    if i < 16 then Sine1(i) else if i < 32 then Sine2(i) else if i < 48 then Sine3(i) else Sine4(i)
  }

  function Sine1(i: nat): Word {
    match i
    case 0 => 0xd76aa478
    case 1 => 0xe8c7b756
    case 2 => 0x242070db
    case 3 => 0xc1bdceee
    case 4 => 0xf57c0faf
    case 5 => 0x4787c62a
    case 6 => 0xa8304613
    case 7 => 0xfd469501
    case 8 => 0x698098d8
    case 9 => 0x8b44f7af
    case 10 => 0xffff5bb1
    case 11 => 0x895cd7be
    case 12 => 0x6b901122
    case 13 => 0xfd987193
    case 14 => 0xa679438e
    case _ => 0x49b40821
  }

  function Sine2(i: nat): Word {
    match i
    case 16 => 0xf61e2562
    case 17 => 0xc040b340
    case 18 => 0x265e5a51
    case 19 => 0xe9b6c7aa
    case 20 => 0xd62f105d
    case 21 => 0x02441453
    case 22 => 0xd8a1e681
    case 23 => 0xe7d3fbc8
    case 24 => 0x21e1cde6
    case 25 => 0xc33707d6
    case 26 => 0xf4d50d87
    case 27 => 0x455a14ed
    case 28 => 0xa9e3e905
    case 29 => 0xfcefa3f8
    case 30 => 0x676f02d9
    case _ => 0x8d2a4c8a
  }

  function Sine3(i: nat): Word {
    match i
    case 32 => 0xfffa3942
    case 33 => 0x8771f681
    case 34 => 0x6d9d6122
    case 35 => 0xfde5380c
    case 36 => 0xa4beea44
    case 37 => 0x4bdecfa9
    case 38 => 0xf6bb4b60
    case 39 => 0xbebfbc70
    case 40 => 0x289b7ec6
    case 41 => 0xeaa127fa
    case 42 => 0xd4ef3085
    case 43 => 0x04881d05
    case 44 => 0xd9d4d039
    case 45 => 0xe6db99e5
    case 46 => 0x1fa27cf8
    case _ => 0xc4ac5665
  }

  function Sine4(i: nat): Word {
    match i
    case 48 => 0xf4292244
    case 49 => 0x432aff97
    case 50 => 0xab9423a7
    case 51 => 0xfc93a039
    case 52 => 0x655b59c3
    case 53 => 0x8f0ccc92
    case 54 => 0xffeff47d
    case 55 => 0x85845dd1
    case 56 => 0x6fa87e4f
    case 57 => 0xfe2ce6e0
    case 58 => 0xa3014314
    case 59 => 0x4e0811a1
    case 60 => 0xf7537e82
    case 61 => 0xbd3af235
    case 62 => 0x2ad7d2bb
    case _ => 0xeb86d391
  }

  /** The four registers change places, and one gets a new value. */
  function Step(i: nat, r: Regs, x: seq<Word>): Regs
    requires |x| == 16
  {
    Regs(r.d, Set(Auxiliary(i, r.b, r.c, r.d), r.a, r.b, x[Index(i)], Shift(i), Sine(i)), r.b, r.c)
  }

  function Steps(n: nat, r: Regs, x: seq<Word>): Regs
    requires |x| == 16
  {
    if n == 0 then r else Step(n - 1, Steps(n - 1, r, x), x)
  }

  /** Four bytes of the block as a word, low byte first. */
  function WordAt(block: seq<Byte>, i: nat): Word
    requires |block| == 64 && i < 16
  {
    (block[4 * i] as Word) + ((block[4 * i + 1] as Word) << 8) + ((block[4 * i + 2] as Word) << 16) +
    ((block[4 * i + 3] as Word) << 24)
  }

  function Words(block: seq<Byte>): (x: seq<Word>)
    requires |block| == 64
    ensures |x| == 16
  {
    seq(16, i requires 0 <= i < 16 => WordAt(block, i))
  }

  function AddRegs(r: Regs, s: Regs): Regs {
    Regs(r.a + s.a, r.b + s.b, r.c + s.c, r.d + s.d)
  }

  /** The 64 steps on one block, added to the registers. */
  function Compress(r: Regs, block: seq<Byte>): Regs
    requires |block| == 64
  {
    AddRegs(r, Steps(64, r, Words(block)))
  }

  // ---------- The unrolled form ----------

  /** Four steps in place: each register is set once, and then all are back in their places. */
  lemma FourSteps(n: nat, r: Regs, x: seq<Word>, a: Word, b: Word, c: Word, d: Word)
    requires |x| == 16 && Regs(a, b, c, d) == Steps(n, r, x)
    ensures var a' := Set(Auxiliary(n, b, c, d), a, b, x[Index(n)], Shift(n), Sine(n));
            var d' := Set(Auxiliary(n + 1, a', b, c), d, a', x[Index(n + 1)], Shift(n + 1), Sine(n + 1));
            var c' := Set(Auxiliary(n + 2, d', a', b), c, d', x[Index(n + 2)], Shift(n + 2), Sine(n + 2));
            var b' := Set(Auxiliary(n + 3, c', d', a'), b, c', x[Index(n + 3)], Shift(n + 3), Sine(n + 3));
            Steps(n + 4, r, x) == Regs(a', b', c', d')
  {
    hide Auxiliary, Index, Shift, Sine, Set;
    assert Steps(n + 4, r, x) == Step(n + 3, Steps(n + 3, r, x), x);
    assert Steps(n + 3, r, x) == Step(n + 2, Steps(n + 2, r, x), x);
    assert Steps(n + 2, r, x) == Step(n + 1, Steps(n + 1, r, x), x);
    assert Steps(n + 1, r, x) == Step(n, Steps(n, r, x), x);
  }

  lemma Indices1()
    ensures Index(0) == 0 && Index(1) == 1 && Index(2) == 2 && Index(3) == 3
    ensures Index(4) == 4 && Index(5) == 5 && Index(6) == 6 && Index(7) == 7
    ensures Index(8) == 8 && Index(9) == 9 && Index(10) == 10 && Index(11) == 11
    ensures Index(12) == 12 && Index(13) == 13 && Index(14) == 14 && Index(15) == 15
  {
  }

  lemma Sines1()
    ensures Sine(0) == 0xd76aa478 && Sine(1) == 0xe8c7b756 && Sine(2) == 0x242070db && Sine(3) == 0xc1bdceee
    ensures Sine(4) == 0xf57c0faf && Sine(5) == 0x4787c62a && Sine(6) == 0xa8304613 && Sine(7) == 0xfd469501
    ensures Sine(8) == 0x698098d8 && Sine(9) == 0x8b44f7af && Sine(10) == 0xffff5bb1 && Sine(11) == 0x895cd7be
    ensures Sine(12) == 0x6b901122 && Sine(13) == 0xfd987193 && Sine(14) == 0xa679438e && Sine(15) == 0x49b40821
  {
  }

  /** Round 1: in place of moving the registers, the statements name them in turn. */
  method Round1(ghost r: Regs, x: seq<Word>, a0: Word, b0: Word, c0: Word, d0: Word)
    returns (a: Word, b: Word, c: Word, d: Word)
    requires |x| == 16 && Regs(a0, b0, c0, d0) == Steps(0, r, x)
    ensures Regs(a, b, c, d) == Steps(16, r, x)
  {
    hide F, G, H, I, Rotl, Set, Step, Steps, Index, Sine;
    Indices1();
    Sines1();
    a, b, c, d := a0, b0, c0, d0;
    FourSteps(0, r, x, a, b, c, d);
    a := Set(F(b, c, d), a, b, x[0], 7, 0xd76aa478);
    d := Set(F(a, b, c), d, a, x[1], 12, 0xe8c7b756);
    c := Set(F(d, a, b), c, d, x[2], 17, 0x242070db);
    b := Set(F(c, d, a), b, c, x[3], 22, 0xc1bdceee);
    assert Regs(a, b, c, d) == Steps(4, r, x);
    FourSteps(4, r, x, a, b, c, d);
    a := Set(F(b, c, d), a, b, x[4], 7, 0xf57c0faf);
    d := Set(F(a, b, c), d, a, x[5], 12, 0x4787c62a);
    c := Set(F(d, a, b), c, d, x[6], 17, 0xa8304613);
    b := Set(F(c, d, a), b, c, x[7], 22, 0xfd469501);
    assert Regs(a, b, c, d) == Steps(8, r, x);
    FourSteps(8, r, x, a, b, c, d);
    a := Set(F(b, c, d), a, b, x[8], 7, 0x698098d8);
    d := Set(F(a, b, c), d, a, x[9], 12, 0x8b44f7af);
    c := Set(F(d, a, b), c, d, x[10], 17, 0xffff5bb1);
    b := Set(F(c, d, a), b, c, x[11], 22, 0x895cd7be);
    assert Regs(a, b, c, d) == Steps(12, r, x);
    FourSteps(12, r, x, a, b, c, d);
    a := Set(F(b, c, d), a, b, x[12], 7, 0x6b901122);
    d := Set(F(a, b, c), d, a, x[13], 12, 0xfd987193);
    c := Set(F(d, a, b), c, d, x[14], 17, 0xa679438e);
    b := Set(F(c, d, a), b, c, x[15], 22, 0x49b40821);
  }

  lemma Indices2()
    ensures Index(16) == 1 && Index(17) == 6 && Index(18) == 11 && Index(19) == 0
    ensures Index(20) == 5 && Index(21) == 10 && Index(22) == 15 && Index(23) == 4
    ensures Index(24) == 9 && Index(25) == 14 && Index(26) == 3 && Index(27) == 8
    ensures Index(28) == 13 && Index(29) == 2 && Index(30) == 7 && Index(31) == 12
  {
  }

  lemma Sines2()
    ensures Sine(16) == 0xf61e2562 && Sine(17) == 0xc040b340 && Sine(18) == 0x265e5a51 && Sine(19) == 0xe9b6c7aa
    ensures Sine(20) == 0xd62f105d && Sine(21) == 0x02441453 && Sine(22) == 0xd8a1e681 && Sine(23) == 0xe7d3fbc8
    ensures Sine(24) == 0x21e1cde6 && Sine(25) == 0xc33707d6 && Sine(26) == 0xf4d50d87 && Sine(27) == 0x455a14ed
    ensures Sine(28) == 0xa9e3e905 && Sine(29) == 0xfcefa3f8 && Sine(30) == 0x676f02d9 && Sine(31) == 0x8d2a4c8a
  {
  }

  /** Round 2: in place of moving the registers, the statements name them in turn. */
  method Round2(ghost r: Regs, x: seq<Word>, a0: Word, b0: Word, c0: Word, d0: Word)
    returns (a: Word, b: Word, c: Word, d: Word)
    requires |x| == 16 && Regs(a0, b0, c0, d0) == Steps(16, r, x)
    ensures Regs(a, b, c, d) == Steps(32, r, x)
  {
    hide F, G, H, I, Rotl, Set, Step, Steps, Index, Sine;
    Indices2();
    Sines2();
    a, b, c, d := a0, b0, c0, d0;
    FourSteps(16, r, x, a, b, c, d);
    a := Set(G(b, c, d), a, b, x[1], 5, 0xf61e2562);
    d := Set(G(a, b, c), d, a, x[6], 9, 0xc040b340);
    c := Set(G(d, a, b), c, d, x[11], 14, 0x265e5a51);
    b := Set(G(c, d, a), b, c, x[0], 20, 0xe9b6c7aa);
    assert Regs(a, b, c, d) == Steps(20, r, x);
    FourSteps(20, r, x, a, b, c, d);
    a := Set(G(b, c, d), a, b, x[5], 5, 0xd62f105d);
    d := Set(G(a, b, c), d, a, x[10], 9, 0x02441453);
    c := Set(G(d, a, b), c, d, x[15], 14, 0xd8a1e681);
    b := Set(G(c, d, a), b, c, x[4], 20, 0xe7d3fbc8);
    assert Regs(a, b, c, d) == Steps(24, r, x);
    FourSteps(24, r, x, a, b, c, d);
    a := Set(G(b, c, d), a, b, x[9], 5, 0x21e1cde6);
    d := Set(G(a, b, c), d, a, x[14], 9, 0xc33707d6);
    c := Set(G(d, a, b), c, d, x[3], 14, 0xf4d50d87);
    b := Set(G(c, d, a), b, c, x[8], 20, 0x455a14ed);
    assert Regs(a, b, c, d) == Steps(28, r, x);
    FourSteps(28, r, x, a, b, c, d);
    a := Set(G(b, c, d), a, b, x[13], 5, 0xa9e3e905);
    d := Set(G(a, b, c), d, a, x[2], 9, 0xfcefa3f8);
    c := Set(G(d, a, b), c, d, x[7], 14, 0x676f02d9);
    b := Set(G(c, d, a), b, c, x[12], 20, 0x8d2a4c8a);
  }

  lemma Indices3()
    ensures Index(32) == 5 && Index(33) == 8 && Index(34) == 11 && Index(35) == 14
    ensures Index(36) == 1 && Index(37) == 4 && Index(38) == 7 && Index(39) == 10
    ensures Index(40) == 13 && Index(41) == 0 && Index(42) == 3 && Index(43) == 6
    ensures Index(44) == 9 && Index(45) == 12 && Index(46) == 15 && Index(47) == 2
  {
  }

  lemma Sines3()
    ensures Sine(32) == 0xfffa3942 && Sine(33) == 0x8771f681 && Sine(34) == 0x6d9d6122 && Sine(35) == 0xfde5380c
    ensures Sine(36) == 0xa4beea44 && Sine(37) == 0x4bdecfa9 && Sine(38) == 0xf6bb4b60 && Sine(39) == 0xbebfbc70
    ensures Sine(40) == 0x289b7ec6 && Sine(41) == 0xeaa127fa && Sine(42) == 0xd4ef3085 && Sine(43) == 0x04881d05
    ensures Sine(44) == 0xd9d4d039 && Sine(45) == 0xe6db99e5 && Sine(46) == 0x1fa27cf8 && Sine(47) == 0xc4ac5665
  {
  }

  /** Round 3: in place of moving the registers, the statements name them in turn. */
  method Round3(ghost r: Regs, x: seq<Word>, a0: Word, b0: Word, c0: Word, d0: Word)
    returns (a: Word, b: Word, c: Word, d: Word)
    requires |x| == 16 && Regs(a0, b0, c0, d0) == Steps(32, r, x)
    ensures Regs(a, b, c, d) == Steps(48, r, x)
  {
    hide F, G, H, I, Rotl, Set, Step, Steps, Index, Sine;
    Indices3();
    Sines3();
    a, b, c, d := a0, b0, c0, d0;
    FourSteps(32, r, x, a, b, c, d);
    a := Set(H(b, c, d), a, b, x[5], 4, 0xfffa3942);
    d := Set(H(a, b, c), d, a, x[8], 11, 0x8771f681);
    c := Set(H(d, a, b), c, d, x[11], 16, 0x6d9d6122);
    b := Set(H(c, d, a), b, c, x[14], 23, 0xfde5380c);
    assert Regs(a, b, c, d) == Steps(36, r, x);
    FourSteps(36, r, x, a, b, c, d);
    a := Set(H(b, c, d), a, b, x[1], 4, 0xa4beea44);
    d := Set(H(a, b, c), d, a, x[4], 11, 0x4bdecfa9);
    c := Set(H(d, a, b), c, d, x[7], 16, 0xf6bb4b60);
    b := Set(H(c, d, a), b, c, x[10], 23, 0xbebfbc70);
    assert Regs(a, b, c, d) == Steps(40, r, x);
    FourSteps(40, r, x, a, b, c, d);
    a := Set(H(b, c, d), a, b, x[13], 4, 0x289b7ec6);
    d := Set(H(a, b, c), d, a, x[0], 11, 0xeaa127fa);
    c := Set(H(d, a, b), c, d, x[3], 16, 0xd4ef3085);
    b := Set(H(c, d, a), b, c, x[6], 23, 0x04881d05);
    assert Regs(a, b, c, d) == Steps(44, r, x);
    FourSteps(44, r, x, a, b, c, d);
    a := Set(H(b, c, d), a, b, x[9], 4, 0xd9d4d039);
    d := Set(H(a, b, c), d, a, x[12], 11, 0xe6db99e5);
    c := Set(H(d, a, b), c, d, x[15], 16, 0x1fa27cf8);
    b := Set(H(c, d, a), b, c, x[2], 23, 0xc4ac5665);
  }

  lemma Indices4()
    ensures Index(48) == 0 && Index(49) == 7 && Index(50) == 14 && Index(51) == 5
    ensures Index(52) == 12 && Index(53) == 3 && Index(54) == 10 && Index(55) == 1
    ensures Index(56) == 8 && Index(57) == 15 && Index(58) == 6 && Index(59) == 13
    ensures Index(60) == 4 && Index(61) == 11 && Index(62) == 2 && Index(63) == 9
  {
  }

  lemma Sines4()
    ensures Sine(48) == 0xf4292244 && Sine(49) == 0x432aff97 && Sine(50) == 0xab9423a7 && Sine(51) == 0xfc93a039
    ensures Sine(52) == 0x655b59c3 && Sine(53) == 0x8f0ccc92 && Sine(54) == 0xffeff47d && Sine(55) == 0x85845dd1
    ensures Sine(56) == 0x6fa87e4f && Sine(57) == 0xfe2ce6e0 && Sine(58) == 0xa3014314 && Sine(59) == 0x4e0811a1
    ensures Sine(60) == 0xf7537e82 && Sine(61) == 0xbd3af235 && Sine(62) == 0x2ad7d2bb && Sine(63) == 0xeb86d391
  {
  }

  /** Round 4: in place of moving the registers, the statements name them in turn. */
  method Round4(ghost r: Regs, x: seq<Word>, a0: Word, b0: Word, c0: Word, d0: Word)
    returns (a: Word, b: Word, c: Word, d: Word)
    requires |x| == 16 && Regs(a0, b0, c0, d0) == Steps(48, r, x)
    ensures Regs(a, b, c, d) == Steps(64, r, x)
  {
    hide F, G, H, I, Rotl, Set, Step, Steps, Index, Sine;
    Indices4();
    Sines4();
    a, b, c, d := a0, b0, c0, d0;
    FourSteps(48, r, x, a, b, c, d);
    a := Set(I(b, c, d), a, b, x[0], 6, 0xf4292244);
    d := Set(I(a, b, c), d, a, x[7], 10, 0x432aff97);
    c := Set(I(d, a, b), c, d, x[14], 15, 0xab9423a7);
    b := Set(I(c, d, a), b, c, x[5], 21, 0xfc93a039);
    assert Regs(a, b, c, d) == Steps(52, r, x);
    FourSteps(52, r, x, a, b, c, d);
    a := Set(I(b, c, d), a, b, x[12], 6, 0x655b59c3);
    d := Set(I(a, b, c), d, a, x[3], 10, 0x8f0ccc92);
    c := Set(I(d, a, b), c, d, x[10], 15, 0xffeff47d);
    b := Set(I(c, d, a), b, c, x[1], 21, 0x85845dd1);
    assert Regs(a, b, c, d) == Steps(56, r, x);
    FourSteps(56, r, x, a, b, c, d);
    a := Set(I(b, c, d), a, b, x[8], 6, 0x6fa87e4f);
    d := Set(I(a, b, c), d, a, x[15], 10, 0xfe2ce6e0);
    c := Set(I(d, a, b), c, d, x[6], 15, 0xa3014314);
    b := Set(I(c, d, a), b, c, x[13], 21, 0x4e0811a1);
    assert Regs(a, b, c, d) == Steps(60, r, x);
    FourSteps(60, r, x, a, b, c, d);
    a := Set(I(b, c, d), a, b, x[4], 6, 0xf7537e82);
    d := Set(I(a, b, c), d, a, x[11], 10, 0xbd3af235);
    c := Set(I(d, a, b), c, d, x[2], 15, 0x2ad7d2bb);
    b := Set(I(c, d, a), b, c, x[9], 21, 0xeb86d391);
  }

  /** md5_process */
  method Process(abcd: Regs, data: seq<Byte>) returns (r: Regs)
    requires |data| == 64
    ensures r == Compress(abcd, data)
  {
    hide Steps, Words;
    var x := Words(data);
    assert abcd == Steps(0, abcd, x) by { NoSteps(abcd, x); }
    var a, b, c, d := Round1(abcd, x, abcd.a, abcd.b, abcd.c, abcd.d);
    a, b, c, d := Round2(abcd, x, a, b, c, d);
    a, b, c, d := Round3(abcd, x, a, b, c, d);
    a, b, c, d := Round4(abcd, x, a, b, c, d);
    r := AddRegs(abcd, Regs(a, b, c, d));
  }

  lemma NoSteps(r: Regs, x: seq<Word>)
    requires |x| == 16
    ensures Steps(0, r, x) == r
  {
  }
}

/** A digest of the test suite of appendix A.5 of RFC 1321, which the definition must give. */
module Md5Vectors {
  import opened Common
  import opened Md5Block
  import opened Md5

  /** The words of the one block of "abc" with its padding. */
  const X: seq<Word> := [0x80636261, 0x00000000, 0x00000000, 0x00000000, 0x00000000, 0x00000000, 0x00000000, 0x00000000,
                         0x00000000, 0x00000000, 0x00000000, 0x00000000, 0x00000000, 0x00000000, 0x00000018, 0x00000000]

  lemma XIs()
    ensures |X| == 16
    ensures forall k :: 0 <= k < 16 ==> X[k] == if k == 0 then 0x80636261 else if k == 14 then 0x18 else 0
  {
  }

  /** One step, by the values of its auxiliary function, of the word it uses and of the register that is set. */
  lemma Next(i: nat, r: Regs, f: Word, k: nat, x: Word, s: nat, v: Word)
    requires i < 64 && Steps(i, INITIAL, X) == r && Auxiliary(i, r.b, r.c, r.d) == f
    requires Index(i) == k && x == (if k == 0 then 0x80636261 else if k == 14 then 0x18 else 0)
    requires Shift(i) == s && Set(f, r.a, r.b, x, s, Sine(i)) == v
    ensures Steps(i + 1, INITIAL, X) == Regs(r.d, v, r.b, r.c)
  {
    XIs();
    hide Set, Auxiliary, Index, Shift, Sine, X, INITIAL;
  }

  lemma After0()
    ensures Steps(0, INITIAL, X) == Regs(0x67452301, 0xefcdab89, 0x98badcfe, 0x10325476)
  {
    hide X;
  }

  lemma After4()
    ensures Steps(4, INITIAL, X) == Regs(0xd6d117b4, 0x7ad956f2, 0x2f6fbd72, 0x344a8432)
  {
    hide Steps, X;
    After0();
    Next(0, Regs(0x67452301, 0xefcdab89, 0x98badcfe, 0x10325476), 0x98badcfe, 0, 0x80636261, 7, 0xd6d117b4);
    Next(1, Regs(0x10325476, 0xd6d117b4, 0xefcdab89, 0x98badcfe), 0xceebcbca, 1, 0, 12, 0x344a8432);
    Next(2, Regs(0x98badcfe, 0x344a8432, 0xd6d117b4, 0xefcdab89), 0xdfc52fb9, 2, 0, 17, 0x2f6fbd72);
    Next(3, Regs(0xefcdab89, 0x2f6fbd72, 0x344a8432, 0xd6d117b4), 0xf4da86b6, 3, 0, 22, 0x7ad956f2);
  }

  lemma After8()
    ensures Steps(8, INITIAL, X) == Regs(0xc73741ef, 0x928d99f6, 0x207dc67b, 0x8bac3051)
  {
    hide Steps, X;
    After4();
    Next(4, Regs(0xd6d117b4, 0x7ad956f2, 0x2f6fbd72, 0x344a8432), 0x2e4b9472, 4, 0, 7, 0xc73741ef);
    Next(5, Regs(0x344a8432, 0xc73741ef, 0x7ad956f2, 0x2f6fbd72), 0x6a59fcf2, 5, 0, 12, 0x8bac3051);
    Next(6, Regs(0x2f6fbd72, 0x8bac3051, 0xc73741ef, 0x7ad956f2), 0xf37546e3, 6, 0, 17, 0x207dc67b);
    Next(7, Regs(0x7ad956f2, 0x207dc67b, 0x8bac3051, 0xc73741ef), 0xc72e01d5, 7, 0, 22, 0x928d99f6);
  }

  lemma After12()
    ensures Steps(12, INITIAL, X) == Regs(0x854b3712, 0x5ed49596, 0x3020401c, 0x74e2f284)
  {
    hide Steps, X;
    After8();
    Next(8, Regs(0xc73741ef, 0x928d99f6, 0x207dc67b, 0x8bac3051), 0x092da073, 8, 0, 7, 0x854b3712);
    Next(9, Regs(0x8bac3051, 0x854b3712, 0x928d99f6, 0x207dc67b), 0xa03dd17b, 9, 0, 12, 0x74e2f284);
    Next(10, Regs(0x207dc67b, 0x74e2f284, 0x854b3712, 0x928d99f6), 0x864f3b72, 10, 0, 17, 0x3020401c);
    Next(11, Regs(0x928d99f6, 0x3020401c, 0x74e2f284, 0x854b3712), 0xb56b7706, 11, 0, 22, 0x5ed49596);
  }

  lemma After16()
    ensures Steps(16, INITIAL, X) == Regs(0xdda9b9a6, 0x72aff2e0, 0xe396856b, 0xa1051895)
  {
    hide Steps, X;
    After12();
    Next(12, Regs(0x854b3712, 0x5ed49596, 0x3020401c, 0x74e2f284), 0x30226214, 12, 0, 7, 0xdda9b9a6);
    Next(13, Regs(0x74e2f284, 0xdda9b9a6, 0x5ed49596, 0x3020401c), 0x7c80d19e, 13, 0, 12, 0xa1051895);
    Next(14, Regs(0x3020401c, 0xa1051895, 0xdda9b9a6, 0x5ed49596), 0xdfd19d86, 14, 0x00000018, 17, 0xe396856b);
    Next(15, Regs(0x5ed49596, 0xe396856b, 0xa1051895, 0xdda9b9a6), 0xbd2d3885, 15, 0, 22, 0x72aff2e0);
  }

  lemma After20()
    ensures Steps(20, INITIAL, X) == Regs(0x3e9e9126, 0xb5b204e4, 0xe25e1652, 0x4a1d804e)
  {
    hide Steps, X;
    After16();
    Next(16, Regs(0xdda9b9a6, 0x72aff2e0, 0xe396856b, 0xa1051895), 0x629795ea, 1, 0, 5, 0x3e9e9126);
    Next(17, Regs(0xa1051895, 0x3e9e9126, 0x72aff2e0, 0xe396856b), 0x32bff3a2, 6, 0, 9, 0x4a1d804e);
    Next(18, Regs(0xe396856b, 0x4a1d804e, 0x3e9e9126, 0x72aff2e0), 0x4e1d8146, 11, 0, 14, 0xe25e1652);
    Next(19, Regs(0x72aff2e0, 0xe25e1652, 0x4a1d804e, 0x3e9e9126), 0x621f104a, 0, 0x80636261, 20, 0xb5b204e4);
  }

  lemma After24()
    ensures Steps(24, INITIAL, X) == Regs(0x59a8ffda, 0x47092c07, 0xabfc7920, 0x6d002f1e)
  {
    hide Steps, X;
    After20();
    Next(20, Regs(0x3e9e9126, 0xb5b204e4, 0xe25e1652, 0x4a1d804e), 0xa0521654, 5, 0, 5, 0x59a8ffda);
    Next(21, Regs(0x4a1d804e, 0x59a8ffda, 0xb5b204e4, 0xe25e1652), 0x55a816f6, 10, 0, 9, 0x6d002f1e);
    Next(22, Regs(0xe25e1652, 0x6d002f1e, 0x59a8ffda, 0xb5b204e4), 0x6d08ff1e, 15, 0, 14, 0xabfc7920);
    Next(23, Regs(0xb5b204e4, 0xabfc7920, 0x6d002f1e, 0x59a8ffda), 0x2da87904, 4, 0, 20, 0x47092c07);
  }

  lemma After28()
    ensures Steps(28, INITIAL, X) == Regs(0xb7f268cf, 0x786acb8f, 0xfe1623b1, 0x09388eff)
  {
    hide Steps, X;
    After24();
    Next(24, Regs(0x59a8ffda, 0x47092c07, 0xabfc7920, 0x6d002f1e), 0xc7fc7c26, 9, 0, 5, 0xb7f268cf);
    Next(25, Regs(0x6d002f1e, 0xb7f268cf, 0x47092c07, 0xabfc7920), 0xe7f16c07, 14, 0x00000018, 9, 0x09388eff);
    Next(26, Regs(0xabfc7920, 0x09388eff, 0xb7f268cf, 0x47092c07), 0xb1fa4ccf, 3, 0, 14, 0xfe1623b1);
    Next(27, Regs(0x47092c07, 0xfe1623b1, 0x09388eff, 0xb7f268cf), 0xbe1aa6b1, 8, 0, 20, 0x786acb8f);
  }

  lemma After32()
    ensures Steps(32, INITIAL, X) == Regs(0x790a77fb, 0x726342d3, 0xa62884aa, 0x9f47e4f8)
  {
    hide Steps, X;
    After28();
    Next(28, Regs(0xb7f268cf, 0x786acb8f, 0xfe1623b1, 0x09388eff), 0xfe2eab8f, 13, 0, 5, 0x790a77fb);
    Next(29, Regs(0x09388eff, 0x790a77fb, 0x786acb8f, 0xfe1623b1), 0x786aebbf, 2, 0, 9, 0x9f47e4f8);
    Next(30, Regs(0xfe1623b1, 0x9f47e4f8, 0x790a77fb, 0x786acb8f), 0x1942f4f8, 7, 0, 14, 0xa62884aa);
    Next(31, Regs(0x786acb8f, 0xa62884aa, 0x9f47e4f8, 0x790a77fb), 0xa64d84aa, 12, 0, 20, 0x726342d3);
  }

  lemma After36()
    ensures Steps(36, INITIAL, X) == Regs(0xb3707ebf, 0x3b0875c7, 0x8d212ff5, 0x60127b2e)
  {
    hide Steps, X;
    After32();
    Next(32, Regs(0x790a77fb, 0x726342d3, 0xa62884aa, 0x9f47e4f8), 0x4b0c2281, 5, 0, 4, 0xb3707ebf);
    Next(33, Regs(0x9f47e4f8, 0xb3707ebf, 0x726342d3, 0xa62884aa), 0x673bb8c6, 8, 0, 11, 0x60127b2e);
    Next(34, Regs(0xa62884aa, 0x60127b2e, 0xb3707ebf, 0x726342d3), 0xa1014742, 11, 0, 16, 0x8d212ff5);
    Next(35, Regs(0x726342d3, 0x8d212ff5, 0x60127b2e, 0xb3707ebf), 0x5e432a64, 14, 0x00000018, 23, 0x3b0875c7);
  }

  lemma After40()
    ensures Steps(40, INITIAL, X) == Regs(0x21b117b9, 0x5a2f5ea5, 0x3575227e, 0x6e7429d5)
  {
    hide Steps, X;
    After36();
    Next(36, Regs(0xb3707ebf, 0x3b0875c7, 0x8d212ff5, 0x60127b2e), 0xd63b211c, 1, 0, 4, 0x21b117b9);
    Next(37, Regs(0x60127b2e, 0x21b117b9, 0x3b0875c7, 0x8d212ff5), 0x97984d8b, 4, 0, 11, 0x6e7429d5);
    Next(38, Regs(0x8d212ff5, 0x6e7429d5, 0x21b117b9, 0x3b0875c7), 0x74cd4bab, 7, 0, 16, 0x3575227e);
    Next(39, Regs(0x3b0875c7, 0x3575227e, 0x6e7429d5, 0x21b117b9), 0x7ab01c12, 10, 0, 23, 0x5a2f5ea5);
  }

  lemma After44()
    ensures Steps(44, INITIAL, X) == Regs(0x11de1779, 0x4c6124f4, 0x31c465ca, 0xfadcaa38)
  {
    hide Steps, X;
    After40();
    Next(40, Regs(0x21b117b9, 0x5a2f5ea5, 0x3575227e, 0x6e7429d5), 0x012e550e, 13, 0, 4, 0x11de1779);
    Next(41, Regs(0x6e7429d5, 0x11de1779, 0x5a2f5ea5, 0x3575227e), 0x7e846ba2, 0, 0x80636261, 11, 0xfadcaa38);
    Next(42, Regs(0x3575227e, 0xfadcaa38, 0x11de1779, 0x5a2f5ea5), 0xb12de3e4, 3, 0, 16, 0x31c465ca);
    Next(43, Regs(0x5a2f5ea5, 0x31c465ca, 0xfadcaa38, 0x11de1779), 0xdac6d88b, 6, 0, 23, 0x4c6124f4);
  }

  lemma After48()
    ensures Steps(48, INITIAL, X) == Regs(0x7f2e507b, 0x7beb9700, 0x8fae6399, 0x99d9679d)
  {
    hide Steps, X;
    After44();
    Next(44, Regs(0x11de1779, 0x4c6124f4, 0x31c465ca, 0xfadcaa38), 0x8779eb06, 9, 0, 4, 0x7f2e507b);
    Next(45, Regs(0xfadcaa38, 0x7f2e507b, 0x4c6124f4, 0x31c465ca), 0x028b1145, 12, 0, 11, 0x99d9679d);
    Next(46, Regs(0x31c465ca, 0x99d9679d, 0x7f2e507b, 0x4c6124f4), 0xaa961312, 15, 0, 16, 0x8fae6399);
    Next(47, Regs(0x4c6124f4, 0x8fae6399, 0x99d9679d, 0x7f2e507b), 0x6959547f, 2, 0, 23, 0x7beb9700);
  }

  lemma After52()
    ensures Steps(52, INITIAL, X) == Regs(0x7b201df8, 0x8bf025c4, 0xb298cefd, 0xf4e8e96e)
  {
    hide Steps, X;
    After48();
    Next(48, Regs(0x7f2e507b, 0x7beb9700, 0x8fae6399, 0x99d9679d), 0xf041fcfb, 0, 0x80636261, 6, 0x7b201df8);
    Next(49, Regs(0x99d9679d, 0x7b201df8, 0x7beb9700, 0x8fae6399), 0x009a0afe, 7, 0, 10, 0xf4e8e96e);
    Next(50, Regs(0x8fae6399, 0xf4e8e96e, 0x7b201df8, 0x7beb9700), 0x8fdcf407, 14, 0x00000018, 15, 0xb298cefd);
    Next(51, Regs(0x7beb9700, 0xb298cefd, 0xf4e8e96e, 0x7b201df8), 0x42370791, 5, 0, 21, 0x8bf025c4);
  }

  lemma After56()
    ensures Steps(56, INITIAL, X) == Regs(0x06cc5e8a, 0x3bfa2c27, 0x7d632dd0, 0x5b0d97aa)
  {
    hide Steps, X;
    After52();
    Next(52, Regs(0x7b201df8, 0x8bf025c4, 0xb298cefd, 0xf4e8e96e), 0x396ff928, 12, 0, 6, 0x06cc5e8a);
    Next(53, Regs(0xf4e8e96e, 0x06cc5e8a, 0x8bf025c4, 0xb298cefd), 0xc41f5a4e, 3, 0, 10, 0x5b0d97aa);
    Next(54, Regs(0xb298cefd, 0x5b0d97aa, 0x06cc5e8a, 0x8bf025c4), 0x79c38131, 10, 0, 15, 0x7d632dd0);
    Next(55, Regs(0x8bf025c4, 0x7d632dd0, 0x5b0d97aa, 0x06cc5e8a), 0xa67e3a5f, 1, 0, 21, 0x3bfa2c27);
  }

  lemma After60()
    ensures Steps(60, INITIAL, X) == Regs(0x7f81cc35, 0x7327d604, 0x4f9dbe3f, 0x094454ab)
  {
    hide Steps, X;
    After56();
    Next(56, Regs(0x06cc5e8a, 0x3bfa2c27, 0x7d632dd0, 0x5b0d97aa), 0xc29941a7, 8, 0, 6, 0x7f81cc35);
    Next(57, Regs(0x5b0d97aa, 0x7f81cc35, 0x3bfa2c27, 0x7d632dd0), 0xc467f218, 15, 0, 10, 0x094454ab);
    Next(58, Regs(0x7d632dd0, 0x094454ab, 0x7f81cc35, 0x3bfa2c27), 0xb2c41bce, 6, 0, 15, 0x4f9dbe3f);
    Next(59, Regs(0x3bfa2c27, 0x4f9dbe3f, 0x094454ab, 0x7f81cc35), 0xc6bbeb54, 13, 0, 21, 0x7327d604);
  }

  lemma After64()
    ensures Steps(64, INITIAL, X) == Regs(0x310ade8f, 0xc08226b3, 0xe484b9d8, 0x624d8cb2)
  {
    hide Steps, X;
    After60();
    Next(60, Regs(0x7f81cc35, 0x7327d604, 0x4f9dbe3f, 0x094454ab), 0xb822416b, 4, 0, 6, 0x310ade8f);
    Next(61, Regs(0x094454ab, 0x310ade8f, 0x7327d604, 0x4f9dbe3f), 0xc24d09cb, 11, 0, 10, 0x624d8cb2);
    Next(62, Regs(0x4f9dbe3f, 0x624d8cb2, 0x310ade8f, 0x7327d604), 0xdfd77374, 2, 0, 15, 0xe484b9d8);
    Next(63, Regs(0x7327d604, 0xe484b9d8, 0x624d8cb2, 0x310ade8f), 0x8cb8354a, 9, 0, 21, 0xc08226b3);
  }
  // ---------- The digest of "abc" ----------

  const ABC: seq<Byte> := [0x61, 0x62, 0x63]

  lemma PaddedAbc()
    ensures Padded(ABC) == ABC + [0x80] + Zeros(52) + [0x18, 0, 0, 0, 0, 0, 0, 0]
  {
    LengthIs24();
    hide LengthBytes;
  }

  lemma LengthIs24()
    ensures LengthBytes(24) == [0x18, 0, 0, 0, 0, 0, 0, 0]
  {
    var b := LengthBytes(24);
    hide ByteOf;
    assert ByteOf(24, 0) == 0x18;
    forall i | 0 < i < 8 ensures b[i] == 0 {
      ZeroByte(i - 1);
      assert 24 / 0x100 == 0;
    }
  }

  lemma {:induction false} ZeroByte(i: nat)
    ensures ByteOf(0, i) == 0
  {
    if i > 0 {
      ZeroByte(i - 1);
    }
  }

  lemma WordsOfAbc()
    ensures Words(Padded(ABC)) == X
  {
    PaddedAbc();
    hide Padded;
    XIs();
    var p := Padded(ABC);
    forall i | 0 <= i < 16 ensures WordAt(p, i) == X[i] {
    }
  }

  /** The registers after the block. */
  lemma RegsOfAbc()
    ensures Fold(INITIAL, Padded(ABC)) == Regs(0x98500190, 0xb04fd23c, 0x7d3f96d6, 0x727fe128)
  {
    var p := Padded(ABC);
    PaddedAbc();
    WordsOfAbc();
    After64();
    hide Padded, Steps, Words, X;
    assert p[..64] == p && p[64..] == [];
    assert Fold(Compress(INITIAL, p), []) == Compress(INITIAL, p);
  }

  lemma OutputOfAbc()
    ensures RegBytes(0x98500190) == [0x90, 0x01, 0x50, 0x98] && RegBytes(0xb04fd23c) == [0x3c, 0xd2, 0x4f, 0xb0]
    ensures RegBytes(0x7d3f96d6) == [0xd6, 0x96, 0x3f, 0x7d] && RegBytes(0x727fe128) == [0x28, 0xe1, 0x7f, 0x72]
  {
  }

  /** Section 3.3: the registers start with these bytes, low byte first. */
  lemma InitialBytes()
    ensures Output(INITIAL) ==
            [0x01, 0x23, 0x45, 0x67] + [0x89, 0xab, 0xcd, 0xef] + [0xfe, 0xdc, 0xba, 0x98] + [0x76, 0x54, 0x32, 0x10]
  {
    InitialWords();
    hide RegBytes;
  }

  lemma InitialWords()
    ensures RegBytes(0x67452301) == [0x01, 0x23, 0x45, 0x67] && RegBytes(0xefcdab89) == [0x89, 0xab, 0xcd, 0xef]
    ensures RegBytes(0x98badcfe) == [0xfe, 0xdc, 0xba, 0x98] && RegBytes(0x10325476) == [0x76, 0x54, 0x32, 0x10]
  {
  }

  /** MD5 ("abc") */
  lemma DigestOfAbc()
    ensures Digest(ABC) == [0x90, 0x01, 0x50, 0x98] + [0x3c, 0xd2, 0x4f, 0xb0] + [0xd6, 0x96, 0x3f, 0x7d] + [0x28, 0xe1, 0x7f, 0x72]
  {
    RegsOfAbc();
    OutputOfAbc();
    hide Fold, Padded, RegBytes;
  }
}

/** The key expansion of appendix A.1 and the encryption of appendix B of FIPS 197, which the specification must give. */
module AesVectors {
  import opened Common
  import opened Gf256
  import opened Aes
  import opened AesSbox
  import opened AesSpec
  import opened AesText

  // ---------- Appendix A.1: the expansion of a 128-bit key ----------

  const KEY: seq<Column> := [Column(0x2b, 0x7e, 0x15, 0x16), Column(0x28, 0xae, 0xd2, 0xa6),
                             Column(0xab, 0xf7, 0x15, 0x88), Column(0x09, 0xcf, 0x4f, 0x3c)]

  ghost const SCHEDULE: seq<Column> := KeySchedule(KEY, 44)

  /** The four words of a round key, given the round key before and the substituted bytes of its last word. */
  lemma NextKey(i: nat, k: State, s: Column)
    requires 0 < i <= 10 && RoundKey(SCHEDULE, i - 1) == k
    requires s == Column(SubByte(k.c3.b1), SubByte(k.c3.b2), SubByte(k.c3.b3), SubByte(k.c3.b0))
    ensures var w := AddColumn(k.c0, AddColumn(s, Column(PowerOfX(i - 1), 0, 0, 0)));
            RoundKey(SCHEDULE, i) ==
              State(w, AddColumn(k.c1, w), AddColumn(k.c2, AddColumn(k.c1, w)),
                    AddColumn(k.c3, AddColumn(k.c2, AddColumn(k.c1, w))))
  {
    hide AddColumn, SubByte, PowerOfX;
    assert 4 * i / 4 == i && 4 * i % 4 == 0 && (4 * i + 1) % 4 == 1 && (4 * i + 2) % 4 == 2 && (4 * i + 3) % 4 == 3;
  }

  lemma Key0()
    ensures RoundKey(SCHEDULE, 0) == State(Column(0x2b, 0x7e, 0x15, 0x16), Column(0x28, 0xae, 0xd2, 0xa6),
                                           Column(0xab, 0xf7, 0x15, 0x88), Column(0x09, 0xcf, 0x4f, 0x3c))
  {
  }

  lemma Key1()
    ensures RoundKey(SCHEDULE, 1) == State(Column(0xa0, 0xfa, 0xfe, 0x17), Column(0x88, 0x54, 0x2c, 0xb1),
                                           Column(0x23, 0xa3, 0x39, 0x39), Column(0x2a, 0x6c, 0x76, 0x05))
  {
    Key0();
    RoundConstants();
    SboxRow0(); SboxRow3(); SboxRow4(); SboxRowC();
    hide SubByte, SCHEDULE, RoundKey;
    NextKey(1, State(Column(0x2b, 0x7e, 0x15, 0x16), Column(0x28, 0xae, 0xd2, 0xa6),
                     Column(0xab, 0xf7, 0x15, 0x88), Column(0x09, 0xcf, 0x4f, 0x3c)),
      Column(0x8a, 0x84, 0xeb, 0x01));
  }

  lemma Key2()
    ensures RoundKey(SCHEDULE, 2) == State(Column(0xf2, 0xc2, 0x95, 0xf2), Column(0x7a, 0x96, 0xb9, 0x43),
                                           Column(0x59, 0x35, 0x80, 0x7a), Column(0x73, 0x59, 0xf6, 0x7f))
  {
    Key1();
    RoundConstants();
    SboxRow0(); SboxRow2(); SboxRow6(); SboxRow7();
    hide SubByte, SCHEDULE, RoundKey;
    NextKey(2, State(Column(0xa0, 0xfa, 0xfe, 0x17), Column(0x88, 0x54, 0x2c, 0xb1),
                     Column(0x23, 0xa3, 0x39, 0x39), Column(0x2a, 0x6c, 0x76, 0x05)),
      Column(0x50, 0x38, 0x6b, 0xe5));
  }

  lemma Key3()
    ensures RoundKey(SCHEDULE, 3) == State(Column(0x3d, 0x80, 0x47, 0x7d), Column(0x47, 0x16, 0xfe, 0x3e),
                                           Column(0x1e, 0x23, 0x7e, 0x44), Column(0x6d, 0x7a, 0x88, 0x3b))
  {
    Key2();
    RoundConstants();
    SboxRow5(); SboxRow7(); SboxRowF();
    hide SubByte, SCHEDULE, RoundKey;
    NextKey(3, State(Column(0xf2, 0xc2, 0x95, 0xf2), Column(0x7a, 0x96, 0xb9, 0x43),
                     Column(0x59, 0x35, 0x80, 0x7a), Column(0x73, 0x59, 0xf6, 0x7f)),
      Column(0xcb, 0x42, 0xd2, 0x8f));
  }

  lemma Key4()
    ensures RoundKey(SCHEDULE, 4) == State(Column(0xef, 0x44, 0xa5, 0x41), Column(0xa8, 0x52, 0x5b, 0x7f),
                                           Column(0xb6, 0x71, 0x25, 0x3b), Column(0xdb, 0x0b, 0xad, 0x00))
  {
    Key3();
    RoundConstants();
    SboxRow3(); SboxRow6(); SboxRow7(); SboxRow8();
    hide SubByte, SCHEDULE, RoundKey;
    NextKey(4, State(Column(0x3d, 0x80, 0x47, 0x7d), Column(0x47, 0x16, 0xfe, 0x3e),
                     Column(0x1e, 0x23, 0x7e, 0x44), Column(0x6d, 0x7a, 0x88, 0x3b)),
      Column(0xda, 0xc4, 0xe2, 0x3c));
  }

  lemma Key5()
    ensures RoundKey(SCHEDULE, 5) == State(Column(0xd4, 0xd1, 0xc6, 0xf8), Column(0x7c, 0x83, 0x9d, 0x87),
                                           Column(0xca, 0xf2, 0xb8, 0xbc), Column(0x11, 0xf9, 0x15, 0xbc))
  {
    Key4();
    RoundConstants();
    SboxRow0(); SboxRowA(); SboxRowD();
    hide SubByte, SCHEDULE, RoundKey;
    NextKey(5, State(Column(0xef, 0x44, 0xa5, 0x41), Column(0xa8, 0x52, 0x5b, 0x7f),
                     Column(0xb6, 0x71, 0x25, 0x3b), Column(0xdb, 0x0b, 0xad, 0x00)),
      Column(0x2b, 0x95, 0x63, 0xb9));
  }

  lemma Key6()
    ensures RoundKey(SCHEDULE, 6) == State(Column(0x6d, 0x88, 0xa3, 0x7a), Column(0x11, 0x0b, 0x3e, 0xfd),
                                           Column(0xdb, 0xf9, 0x86, 0x41), Column(0xca, 0x00, 0x93, 0xfd))
  {
    Key5();
    RoundConstants();
    SboxRow1(); SboxRowB(); SboxRowF();
    hide SubByte, SCHEDULE, RoundKey;
    NextKey(6, State(Column(0xd4, 0xd1, 0xc6, 0xf8), Column(0x7c, 0x83, 0x9d, 0x87),
                     Column(0xca, 0xf2, 0xb8, 0xbc), Column(0x11, 0xf9, 0x15, 0xbc)),
      Column(0x99, 0x59, 0x65, 0x82));
  }

  lemma Key7()
    ensures RoundKey(SCHEDULE, 7) == State(Column(0x4e, 0x54, 0xf7, 0x0e), Column(0x5f, 0x5f, 0xc9, 0xf3),
                                           Column(0x84, 0xa6, 0x4f, 0xb2), Column(0x4e, 0xa6, 0xdc, 0x4f))
  {
    Key6();
    RoundConstants();
    SboxRow0(); SboxRow9(); SboxRowC(); SboxRowF();
    hide SubByte, SCHEDULE, RoundKey;
    NextKey(7, State(Column(0x6d, 0x88, 0xa3, 0x7a), Column(0x11, 0x0b, 0x3e, 0xfd),
                     Column(0xdb, 0xf9, 0x86, 0x41), Column(0xca, 0x00, 0x93, 0xfd)),
      Column(0x63, 0xdc, 0x54, 0x74));
  }

  lemma Key8()
    ensures RoundKey(SCHEDULE, 8) == State(Column(0xea, 0xd2, 0x73, 0x21), Column(0xb5, 0x8d, 0xba, 0xd2),
                                           Column(0x31, 0x2b, 0xf5, 0x60), Column(0x7f, 0x8d, 0x29, 0x2f))
  {
    Key7();
    RoundConstants();
    SboxRow4(); SboxRowA(); SboxRowD();
    hide SubByte, SCHEDULE, RoundKey;
    NextKey(8, State(Column(0x4e, 0x54, 0xf7, 0x0e), Column(0x5f, 0x5f, 0xc9, 0xf3),
                     Column(0x84, 0xa6, 0x4f, 0xb2), Column(0x4e, 0xa6, 0xdc, 0x4f)),
      Column(0x24, 0x86, 0x84, 0x2f));
  }

  lemma Key9()
    ensures RoundKey(SCHEDULE, 9) == State(Column(0xac, 0x77, 0x66, 0xf3), Column(0x19, 0xfa, 0xdc, 0x21),
                                           Column(0x28, 0xd1, 0x29, 0x41), Column(0x57, 0x5c, 0x00, 0x6e))
  {
    Key8();
    RoundConstants();
    SboxRow2(); SboxRow7(); SboxRow8();
    hide SubByte, SCHEDULE, RoundKey;
    NextKey(9, State(Column(0xea, 0xd2, 0x73, 0x21), Column(0xb5, 0x8d, 0xba, 0xd2),
                     Column(0x31, 0x2b, 0xf5, 0x60), Column(0x7f, 0x8d, 0x29, 0x2f)),
      Column(0x5d, 0xa5, 0x15, 0xd2));
  }

  lemma Key10()
    ensures RoundKey(SCHEDULE, 10) == State(Column(0xd0, 0x14, 0xf9, 0xa8), Column(0xc9, 0xee, 0x25, 0x89),
                                            Column(0xe1, 0x3f, 0x0c, 0xc8), Column(0xb6, 0x63, 0x0c, 0xa6))
  {
    Key9();
    RoundConstants();
    SboxRow0(); SboxRow5(); SboxRow6();
    hide SubByte, SCHEDULE, RoundKey;
    NextKey(10, State(Column(0xac, 0x77, 0x66, 0xf3), Column(0x19, 0xfa, 0xdc, 0x21),
                      Column(0x28, 0xd1, 0x29, 0x41), Column(0x57, 0x5c, 0x00, 0x6e)),
      Column(0x4a, 0x63, 0x9f, 0x5b));
  }

  // ---------- Appendix B: an encryption ----------

  /** MixColumns on one column, in the words of section 5.1.3. */
  lemma MixColumnBytes(c: Column)
    ensures MixColumn(c) == Column(Add(Add(Xtime(c.b0), Add(Xtime(c.b1), c.b1)), Add(c.b2, c.b3)),
                                   Add(Add(c.b0, Xtime(c.b1)), Add(Add(Xtime(c.b2), c.b2), c.b3)),
                                   Add(Add(c.b0, c.b1), Add(Xtime(c.b2), Add(Xtime(c.b3), c.b3))),
                                   Add(Add(Add(Xtime(c.b0), c.b0), c.b1), Add(c.b2, Xtime(c.b3))))
  {
    hide Gmul, Xtime, Add;
    MultiplesOf(c.b0);
    MultiplesOf(c.b1);
    MultiplesOf(c.b2);
    MultiplesOf(c.b3);
  }

  lemma MultiplesOf(b: Byte)
    ensures Gmul(b, 1) == b && Gmul(b, 2) == Xtime(b) && Gmul(b, 3) == Add(Xtime(b), b)
  {
    hide Gmul, Xtime, Add;
    Multiples(b);
    GmulCommutes(b, 1);
    GmulCommutes(b, 2);
    GmulCommutes(b, 3);
    AddCommutative(b, Xtime(b));
  }

  const INPUT := State(Column(0x32, 0x43, 0xf6, 0xa8), Column(0x88, 0x5a, 0x30, 0x8d),
                       Column(0x31, 0x31, 0x98, 0xa2), Column(0xe0, 0x37, 0x07, 0x34))

  lemma RoundIs(r: nat)
    requires 0 < r < 10
    ensures Rounds(SCHEDULE, INPUT, r) ==
              AddRoundKey(MixColumns(ShiftRows(SubBytes(Rounds(SCHEDULE, INPUT, r - 1)))), RoundKey(SCHEDULE, r))
  {
    hide SubBytes, MixColumns, ShiftRows, AddRoundKey, RoundKey;
  }

  lemma Round0()
    ensures Rounds(SCHEDULE, INPUT, 0) == State(Column(0x19, 0x3d, 0xe3, 0xbe), Column(0xa0, 0xf4, 0xe2, 0x2b),
                                                Column(0x9a, 0xc6, 0x8d, 0x2a), Column(0xe9, 0xf8, 0x48, 0x08))
  {
    Key0();
    hide RoundKey, SCHEDULE;
  }

  lemma Sub1()
    ensures SubBytes(State(Column(0x19, 0x3d, 0xe3, 0xbe), Column(0xa0, 0xf4, 0xe2, 0x2b),
                           Column(0x9a, 0xc6, 0x8d, 0x2a), Column(0xe9, 0xf8, 0x48, 0x08)))
         == State(Column(0xd4, 0x27, 0x11, 0xae), Column(0xe0, 0xbf, 0x98, 0xf1),
                  Column(0xb8, 0xb4, 0x5d, 0xe5), Column(0x1e, 0x41, 0x52, 0x30))
  {
    SboxRow0(); SboxRow1(); SboxRow2(); SboxRow3(); SboxRow4(); SboxRow8(); SboxRow9(); SboxRowA(); SboxRowB();
    SboxRowC(); SboxRowE(); SboxRowF();
    hide SubByte;
  }

  lemma Mix1()
    ensures MixColumns(ShiftRows(State(Column(0xd4, 0x27, 0x11, 0xae), Column(0xe0, 0xbf, 0x98, 0xf1),
                                       Column(0xb8, 0xb4, 0x5d, 0xe5), Column(0x1e, 0x41, 0x52, 0x30))))
         == State(Column(0x04, 0x66, 0x81, 0xe5), Column(0xe0, 0xcb, 0x19, 0x9a),
                  Column(0x48, 0xf8, 0xd3, 0x7a), Column(0x28, 0x06, 0x26, 0x4c))
  {
    MixColumnBytes(Column(0xd4, 0xbf, 0x5d, 0x30));
    MixColumnBytes(Column(0xe0, 0xb4, 0x52, 0xae));
    MixColumnBytes(Column(0xb8, 0x41, 0x11, 0xf1));
    MixColumnBytes(Column(0x1e, 0x27, 0x98, 0xe5));
    hide MixColumn;
  }

  lemma Add1()
    ensures AddRoundKey(State(Column(0x04, 0x66, 0x81, 0xe5), Column(0xe0, 0xcb, 0x19, 0x9a),
                              Column(0x48, 0xf8, 0xd3, 0x7a), Column(0x28, 0x06, 0x26, 0x4c)),
              State(Column(0xa0, 0xfa, 0xfe, 0x17), Column(0x88, 0x54, 0x2c, 0xb1),
                    Column(0x23, 0xa3, 0x39, 0x39), Column(0x2a, 0x6c, 0x76, 0x05)))
         == State(Column(0xa4, 0x9c, 0x7f, 0xf2), Column(0x68, 0x9f, 0x35, 0x2b),
                  Column(0x6b, 0x5b, 0xea, 0x43), Column(0x02, 0x6a, 0x50, 0x49))
  {
  }

  lemma Round1()
    ensures Rounds(SCHEDULE, INPUT, 1) == State(Column(0xa4, 0x9c, 0x7f, 0xf2), Column(0x68, 0x9f, 0x35, 0x2b),
                                                Column(0x6b, 0x5b, 0xea, 0x43), Column(0x02, 0x6a, 0x50, 0x49))
  {
    hide SubBytes, MixColumns, ShiftRows, AddRoundKey, RoundKey, Rounds, SCHEDULE, INPUT;
    Round0();
    Sub1();
    Mix1();
    Add1();
    Key1();
    RoundIs(1);
  }

  lemma Sub2()
    ensures SubBytes(State(Column(0xa4, 0x9c, 0x7f, 0xf2), Column(0x68, 0x9f, 0x35, 0x2b),
                           Column(0x6b, 0x5b, 0xea, 0x43), Column(0x02, 0x6a, 0x50, 0x49)))
         == State(Column(0x49, 0xde, 0xd2, 0x89), Column(0x45, 0xdb, 0x96, 0xf1),
                  Column(0x7f, 0x39, 0x87, 0x1a), Column(0x77, 0x02, 0x53, 0x3b))
  {
    SboxRow0(); SboxRow2(); SboxRow3(); SboxRow4(); SboxRow5(); SboxRow6(); SboxRow7(); SboxRow9(); SboxRowA();
    SboxRowE(); SboxRowF();
    hide SubByte;
  }

  lemma Mix2()
    ensures MixColumns(ShiftRows(State(Column(0x49, 0xde, 0xd2, 0x89), Column(0x45, 0xdb, 0x96, 0xf1),
                                       Column(0x7f, 0x39, 0x87, 0x1a), Column(0x77, 0x02, 0x53, 0x3b))))
         == State(Column(0x58, 0x4d, 0xca, 0xf1), Column(0x1b, 0x4b, 0x5a, 0xac),
                  Column(0xdb, 0xe7, 0xca, 0xa8), Column(0x1b, 0x6b, 0xb0, 0xe5))
  {
    MixColumnBytes(Column(0x49, 0xdb, 0x87, 0x3b));
    MixColumnBytes(Column(0x45, 0x39, 0x53, 0x89));
    MixColumnBytes(Column(0x7f, 0x02, 0xd2, 0xf1));
    MixColumnBytes(Column(0x77, 0xde, 0x96, 0x1a));
    hide MixColumn;
  }

  lemma Add2()
    ensures AddRoundKey(State(Column(0x58, 0x4d, 0xca, 0xf1), Column(0x1b, 0x4b, 0x5a, 0xac),
                              Column(0xdb, 0xe7, 0xca, 0xa8), Column(0x1b, 0x6b, 0xb0, 0xe5)),
              State(Column(0xf2, 0xc2, 0x95, 0xf2), Column(0x7a, 0x96, 0xb9, 0x43),
                    Column(0x59, 0x35, 0x80, 0x7a), Column(0x73, 0x59, 0xf6, 0x7f)))
         == State(Column(0xaa, 0x8f, 0x5f, 0x03), Column(0x61, 0xdd, 0xe3, 0xef),
                  Column(0x82, 0xd2, 0x4a, 0xd2), Column(0x68, 0x32, 0x46, 0x9a))
  {
  }

  lemma Round2()
    ensures Rounds(SCHEDULE, INPUT, 2) == State(Column(0xaa, 0x8f, 0x5f, 0x03), Column(0x61, 0xdd, 0xe3, 0xef),
                                                Column(0x82, 0xd2, 0x4a, 0xd2), Column(0x68, 0x32, 0x46, 0x9a))
  {
    hide SubBytes, MixColumns, ShiftRows, AddRoundKey, RoundKey, Rounds, SCHEDULE, INPUT;
    Round1();
    Sub2();
    Mix2();
    Add2();
    Key2();
    RoundIs(2);
  }

  lemma Sub3()
    ensures SubBytes(State(Column(0xaa, 0x8f, 0x5f, 0x03), Column(0x61, 0xdd, 0xe3, 0xef),
                           Column(0x82, 0xd2, 0x4a, 0xd2), Column(0x68, 0x32, 0x46, 0x9a)))
         == State(Column(0xac, 0x73, 0xcf, 0x7b), Column(0xef, 0xc1, 0x11, 0xdf),
                  Column(0x13, 0xb5, 0xd6, 0xb5), Column(0x45, 0x23, 0x5a, 0xb8))
  {
    SboxRow0(); SboxRow3(); SboxRow4(); SboxRow5(); SboxRow6(); SboxRow8(); SboxRow9(); SboxRowA(); SboxRowD();
    SboxRowE();
    hide SubByte;
  }

  lemma Mix3()
    ensures MixColumns(ShiftRows(State(Column(0xac, 0x73, 0xcf, 0x7b), Column(0xef, 0xc1, 0x11, 0xdf),
                                       Column(0x13, 0xb5, 0xd6, 0xb5), Column(0x45, 0x23, 0x5a, 0xb8))))
         == State(Column(0x75, 0xec, 0x09, 0x93), Column(0x20, 0x0b, 0x63, 0x33),
                  Column(0x53, 0xc0, 0xcf, 0x7c), Column(0xbb, 0x25, 0xd0, 0xdc))
  {
    MixColumnBytes(Column(0xac, 0xc1, 0xd6, 0xb8));
    MixColumnBytes(Column(0xef, 0xb5, 0x5a, 0x7b));
    MixColumnBytes(Column(0x13, 0x23, 0xcf, 0xdf));
    MixColumnBytes(Column(0x45, 0x73, 0x11, 0xb5));
    hide MixColumn;
  }

  lemma Add3()
    ensures AddRoundKey(State(Column(0x75, 0xec, 0x09, 0x93), Column(0x20, 0x0b, 0x63, 0x33),
                              Column(0x53, 0xc0, 0xcf, 0x7c), Column(0xbb, 0x25, 0xd0, 0xdc)),
              State(Column(0x3d, 0x80, 0x47, 0x7d), Column(0x47, 0x16, 0xfe, 0x3e),
                    Column(0x1e, 0x23, 0x7e, 0x44), Column(0x6d, 0x7a, 0x88, 0x3b)))
         == State(Column(0x48, 0x6c, 0x4e, 0xee), Column(0x67, 0x1d, 0x9d, 0x0d),
                  Column(0x4d, 0xe3, 0xb1, 0x38), Column(0xd6, 0x5f, 0x58, 0xe7))
  {
  }

  lemma Round3()
    ensures Rounds(SCHEDULE, INPUT, 3) == State(Column(0x48, 0x6c, 0x4e, 0xee), Column(0x67, 0x1d, 0x9d, 0x0d),
                                                Column(0x4d, 0xe3, 0xb1, 0x38), Column(0xd6, 0x5f, 0x58, 0xe7))
  {
    hide SubBytes, MixColumns, ShiftRows, AddRoundKey, RoundKey, Rounds, SCHEDULE, INPUT;
    Round2();
    Sub3();
    Mix3();
    Add3();
    Key3();
    RoundIs(3);
  }

  lemma Sub4()
    ensures SubBytes(State(Column(0x48, 0x6c, 0x4e, 0xee), Column(0x67, 0x1d, 0x9d, 0x0d),
                           Column(0x4d, 0xe3, 0xb1, 0x38), Column(0xd6, 0x5f, 0x58, 0xe7)))
         == State(Column(0x52, 0x50, 0x2f, 0x28), Column(0x85, 0xa4, 0x5e, 0xd7),
                  Column(0xe3, 0x11, 0xc8, 0x07), Column(0xf6, 0xcf, 0x6a, 0x94))
  {
    SboxRow0(); SboxRow1(); SboxRow3(); SboxRow4(); SboxRow5(); SboxRow6(); SboxRow9(); SboxRowB(); SboxRowD();
    SboxRowE();
    hide SubByte;
  }

  lemma Mix4()
    ensures MixColumns(ShiftRows(State(Column(0x52, 0x50, 0x2f, 0x28), Column(0x85, 0xa4, 0x5e, 0xd7),
                                       Column(0xe3, 0x11, 0xc8, 0x07), Column(0xf6, 0xcf, 0x6a, 0x94))))
         == State(Column(0x0f, 0xd6, 0xda, 0xa9), Column(0x60, 0x31, 0x38, 0xbf),
                  Column(0x6f, 0xc0, 0x10, 0x6b), Column(0x5e, 0xb3, 0x13, 0x01))
  {
    MixColumnBytes(Column(0x52, 0xa4, 0xc8, 0x94));
    MixColumnBytes(Column(0x85, 0x11, 0x6a, 0x28));
    MixColumnBytes(Column(0xe3, 0xcf, 0x2f, 0xd7));
    MixColumnBytes(Column(0xf6, 0x50, 0x5e, 0x07));
    hide MixColumn;
  }

  lemma Add4()
    ensures AddRoundKey(State(Column(0x0f, 0xd6, 0xda, 0xa9), Column(0x60, 0x31, 0x38, 0xbf),
                              Column(0x6f, 0xc0, 0x10, 0x6b), Column(0x5e, 0xb3, 0x13, 0x01)),
              State(Column(0xef, 0x44, 0xa5, 0x41), Column(0xa8, 0x52, 0x5b, 0x7f),
                    Column(0xb6, 0x71, 0x25, 0x3b), Column(0xdb, 0x0b, 0xad, 0x00)))
         == State(Column(0xe0, 0x92, 0x7f, 0xe8), Column(0xc8, 0x63, 0x63, 0xc0),
                  Column(0xd9, 0xb1, 0x35, 0x50), Column(0x85, 0xb8, 0xbe, 0x01))
  {
  }

  lemma Round4()
    ensures Rounds(SCHEDULE, INPUT, 4) == State(Column(0xe0, 0x92, 0x7f, 0xe8), Column(0xc8, 0x63, 0x63, 0xc0),
                                                Column(0xd9, 0xb1, 0x35, 0x50), Column(0x85, 0xb8, 0xbe, 0x01))
  {
    hide SubBytes, MixColumns, ShiftRows, AddRoundKey, RoundKey, Rounds, SCHEDULE, INPUT;
    Round3();
    Sub4();
    Mix4();
    Add4();
    Key4();
    RoundIs(4);
  }

  lemma Sub5()
    ensures SubBytes(State(Column(0xe0, 0x92, 0x7f, 0xe8), Column(0xc8, 0x63, 0x63, 0xc0),
                           Column(0xd9, 0xb1, 0x35, 0x50), Column(0x85, 0xb8, 0xbe, 0x01)))
         == State(Column(0xe1, 0x4f, 0xd2, 0x9b), Column(0xe8, 0xfb, 0xfb, 0xba),
                  Column(0x35, 0xc8, 0x96, 0x53), Column(0x97, 0x6c, 0xae, 0x7c))
  {
    SboxRow0(); SboxRow3(); SboxRow5(); SboxRow6(); SboxRow7(); SboxRow8(); SboxRow9(); SboxRowB(); SboxRowC();
    SboxRowD(); SboxRowE();
    hide SubByte;
  }

  lemma Mix5()
    ensures MixColumns(ShiftRows(State(Column(0xe1, 0x4f, 0xd2, 0x9b), Column(0xe8, 0xfb, 0xfb, 0xba),
                                       Column(0x35, 0xc8, 0x96, 0x53), Column(0x97, 0x6c, 0xae, 0x7c))))
         == State(Column(0x25, 0xd1, 0xa9, 0xad), Column(0xbd, 0x11, 0xd1, 0x68),
                  Column(0xb6, 0x3a, 0x33, 0x8e), Column(0x4c, 0x4c, 0xc0, 0xb0))
  {
    MixColumnBytes(Column(0xe1, 0xfb, 0x96, 0x7c));
    MixColumnBytes(Column(0xe8, 0xc8, 0xae, 0x9b));
    MixColumnBytes(Column(0x35, 0x6c, 0xd2, 0xba));
    MixColumnBytes(Column(0x97, 0x4f, 0xfb, 0x53));
    hide MixColumn;
  }

  lemma Add5()
    ensures AddRoundKey(State(Column(0x25, 0xd1, 0xa9, 0xad), Column(0xbd, 0x11, 0xd1, 0x68),
                              Column(0xb6, 0x3a, 0x33, 0x8e), Column(0x4c, 0x4c, 0xc0, 0xb0)),
              State(Column(0xd4, 0xd1, 0xc6, 0xf8), Column(0x7c, 0x83, 0x9d, 0x87),
                    Column(0xca, 0xf2, 0xb8, 0xbc), Column(0x11, 0xf9, 0x15, 0xbc)))
         == State(Column(0xf1, 0x00, 0x6f, 0x55), Column(0xc1, 0x92, 0x4c, 0xef),
                  Column(0x7c, 0xc8, 0x8b, 0x32), Column(0x5d, 0xb5, 0xd5, 0x0c))
  {
  }

  lemma Round5()
    ensures Rounds(SCHEDULE, INPUT, 5) == State(Column(0xf1, 0x00, 0x6f, 0x55), Column(0xc1, 0x92, 0x4c, 0xef),
                                                Column(0x7c, 0xc8, 0x8b, 0x32), Column(0x5d, 0xb5, 0xd5, 0x0c))
  {
    hide SubBytes, MixColumns, ShiftRows, AddRoundKey, RoundKey, Rounds, SCHEDULE, INPUT;
    Round4();
    Sub5();
    Mix5();
    Add5();
    Key5();
    RoundIs(5);
  }

  lemma Sub6()
    ensures SubBytes(State(Column(0xf1, 0x00, 0x6f, 0x55), Column(0xc1, 0x92, 0x4c, 0xef),
                           Column(0x7c, 0xc8, 0x8b, 0x32), Column(0x5d, 0xb5, 0xd5, 0x0c)))
         == State(Column(0xa1, 0x63, 0xa8, 0xfc), Column(0x78, 0x4f, 0x29, 0xdf),
                  Column(0x10, 0xe8, 0x3d, 0x23), Column(0x4c, 0xd5, 0x03, 0xfe))
  {
    SboxRow0(); SboxRow3(); SboxRow4(); SboxRow5(); SboxRow6(); SboxRow7(); SboxRow8(); SboxRow9(); SboxRowB();
    SboxRowC(); SboxRowD(); SboxRowE(); SboxRowF();
    hide SubByte;
  }

  lemma Mix6()
    ensures MixColumns(ShiftRows(State(Column(0xa1, 0x63, 0xa8, 0xfc), Column(0x78, 0x4f, 0x29, 0xdf),
                                       Column(0x10, 0xe8, 0x3d, 0x23), Column(0x4c, 0xd5, 0x03, 0xfe))))
         == State(Column(0x4b, 0x86, 0x8d, 0x6d), Column(0x2c, 0x4a, 0x89, 0x80),
                  Column(0x33, 0x9d, 0xf4, 0xe8), Column(0x37, 0xd2, 0x18, 0xd8))
  {
    MixColumnBytes(Column(0xa1, 0x4f, 0x3d, 0xfe));
    MixColumnBytes(Column(0x78, 0xe8, 0x03, 0xfc));
    MixColumnBytes(Column(0x10, 0xd5, 0xa8, 0xdf));
    MixColumnBytes(Column(0x4c, 0x63, 0x29, 0x23));
    hide MixColumn;
  }

  lemma Add6()
    ensures AddRoundKey(State(Column(0x4b, 0x86, 0x8d, 0x6d), Column(0x2c, 0x4a, 0x89, 0x80),
                              Column(0x33, 0x9d, 0xf4, 0xe8), Column(0x37, 0xd2, 0x18, 0xd8)),
              State(Column(0x6d, 0x88, 0xa3, 0x7a), Column(0x11, 0x0b, 0x3e, 0xfd),
                    Column(0xdb, 0xf9, 0x86, 0x41), Column(0xca, 0x00, 0x93, 0xfd)))
         == State(Column(0x26, 0x0e, 0x2e, 0x17), Column(0x3d, 0x41, 0xb7, 0x7d),
                  Column(0xe8, 0x64, 0x72, 0xa9), Column(0xfd, 0xd2, 0x8b, 0x25))
  {
  }

  lemma Round6()
    ensures Rounds(SCHEDULE, INPUT, 6) == State(Column(0x26, 0x0e, 0x2e, 0x17), Column(0x3d, 0x41, 0xb7, 0x7d),
                                                Column(0xe8, 0x64, 0x72, 0xa9), Column(0xfd, 0xd2, 0x8b, 0x25))
  {
    hide SubBytes, MixColumns, ShiftRows, AddRoundKey, RoundKey, Rounds, SCHEDULE, INPUT;
    Round5();
    Sub6();
    Mix6();
    Add6();
    Key6();
    RoundIs(6);
  }

  lemma Sub7()
    ensures SubBytes(State(Column(0x26, 0x0e, 0x2e, 0x17), Column(0x3d, 0x41, 0xb7, 0x7d),
                           Column(0xe8, 0x64, 0x72, 0xa9), Column(0xfd, 0xd2, 0x8b, 0x25)))
         == State(Column(0xf7, 0xab, 0x31, 0xf0), Column(0x27, 0x83, 0xa9, 0xff),
                  Column(0x9b, 0x43, 0x40, 0xd3), Column(0x54, 0xb5, 0x3d, 0x3f))
  {
    SboxRow0(); SboxRow1(); SboxRow2(); SboxRow3(); SboxRow4(); SboxRow6(); SboxRow7(); SboxRow8(); SboxRowA();
    SboxRowB(); SboxRowD(); SboxRowE(); SboxRowF();
    hide SubByte;
  }

  lemma Mix7()
    ensures MixColumns(ShiftRows(State(Column(0xf7, 0xab, 0x31, 0xf0), Column(0x27, 0x83, 0xa9, 0xff),
                                       Column(0x9b, 0x43, 0x40, 0xd3), Column(0x54, 0xb5, 0x3d, 0x3f))))
         == State(Column(0x14, 0x15, 0xb5, 0xbf), Column(0x46, 0x16, 0x15, 0xec),
                  Column(0x27, 0x46, 0x56, 0xd7), Column(0x34, 0x2a, 0xd8, 0x43))
  {
    MixColumnBytes(Column(0xf7, 0x83, 0x40, 0x3f));
    MixColumnBytes(Column(0x27, 0x43, 0x3d, 0xf0));
    MixColumnBytes(Column(0x9b, 0xb5, 0x31, 0xff));
    MixColumnBytes(Column(0x54, 0xab, 0xa9, 0xd3));
    hide MixColumn;
  }

  lemma Add7()
    ensures AddRoundKey(State(Column(0x14, 0x15, 0xb5, 0xbf), Column(0x46, 0x16, 0x15, 0xec),
                              Column(0x27, 0x46, 0x56, 0xd7), Column(0x34, 0x2a, 0xd8, 0x43)),
              State(Column(0x4e, 0x54, 0xf7, 0x0e), Column(0x5f, 0x5f, 0xc9, 0xf3),
                    Column(0x84, 0xa6, 0x4f, 0xb2), Column(0x4e, 0xa6, 0xdc, 0x4f)))
         == State(Column(0x5a, 0x41, 0x42, 0xb1), Column(0x19, 0x49, 0xdc, 0x1f),
                  Column(0xa3, 0xe0, 0x19, 0x65), Column(0x7a, 0x8c, 0x04, 0x0c))
  {
  }

  lemma Round7()
    ensures Rounds(SCHEDULE, INPUT, 7) == State(Column(0x5a, 0x41, 0x42, 0xb1), Column(0x19, 0x49, 0xdc, 0x1f),
                                                Column(0xa3, 0xe0, 0x19, 0x65), Column(0x7a, 0x8c, 0x04, 0x0c))
  {
    hide SubBytes, MixColumns, ShiftRows, AddRoundKey, RoundKey, Rounds, SCHEDULE, INPUT;
    Round6();
    Sub7();
    Mix7();
    Add7();
    Key7();
    RoundIs(7);
  }

  lemma Sub8()
    ensures SubBytes(State(Column(0x5a, 0x41, 0x42, 0xb1), Column(0x19, 0x49, 0xdc, 0x1f),
                           Column(0xa3, 0xe0, 0x19, 0x65), Column(0x7a, 0x8c, 0x04, 0x0c)))
         == State(Column(0xbe, 0x83, 0x2c, 0xc8), Column(0xd4, 0x3b, 0x86, 0xc0),
                  Column(0x0a, 0xe1, 0xd4, 0x4d), Column(0xda, 0x64, 0xf2, 0xfe))
  {
    SboxRow0(); SboxRow1(); SboxRow4(); SboxRow5(); SboxRow6(); SboxRow7(); SboxRow8(); SboxRowA(); SboxRowB();
    SboxRowD(); SboxRowE();
    hide SubByte;
  }

  lemma Mix8()
    ensures MixColumns(ShiftRows(State(Column(0xbe, 0x83, 0x2c, 0xc8), Column(0xd4, 0x3b, 0x86, 0xc0),
                                       Column(0x0a, 0xe1, 0xd4, 0x4d), Column(0xda, 0x64, 0xf2, 0xfe))))
         == State(Column(0x00, 0x51, 0x2f, 0xd1), Column(0xb1, 0xc8, 0x89, 0xff),
                  Column(0x54, 0x76, 0x6d, 0xcd), Column(0xfa, 0x1b, 0x99, 0xea))
  {
    MixColumnBytes(Column(0xbe, 0x3b, 0xd4, 0xfe));
    MixColumnBytes(Column(0xd4, 0xe1, 0xf2, 0xc8));
    MixColumnBytes(Column(0x0a, 0x64, 0x2c, 0xc0));
    MixColumnBytes(Column(0xda, 0x83, 0x86, 0x4d));
    hide MixColumn;
  }

  lemma Add8()
    ensures AddRoundKey(State(Column(0x00, 0x51, 0x2f, 0xd1), Column(0xb1, 0xc8, 0x89, 0xff),
                              Column(0x54, 0x76, 0x6d, 0xcd), Column(0xfa, 0x1b, 0x99, 0xea)),
              State(Column(0xea, 0xd2, 0x73, 0x21), Column(0xb5, 0x8d, 0xba, 0xd2),
                    Column(0x31, 0x2b, 0xf5, 0x60), Column(0x7f, 0x8d, 0x29, 0x2f)))
         == State(Column(0xea, 0x83, 0x5c, 0xf0), Column(0x04, 0x45, 0x33, 0x2d),
                  Column(0x65, 0x5d, 0x98, 0xad), Column(0x85, 0x96, 0xb0, 0xc5))
  {
  }

  lemma Round8()
    ensures Rounds(SCHEDULE, INPUT, 8) == State(Column(0xea, 0x83, 0x5c, 0xf0), Column(0x04, 0x45, 0x33, 0x2d),
                                                Column(0x65, 0x5d, 0x98, 0xad), Column(0x85, 0x96, 0xb0, 0xc5))
  {
    hide SubBytes, MixColumns, ShiftRows, AddRoundKey, RoundKey, Rounds, SCHEDULE, INPUT;
    Round7();
    Sub8();
    Mix8();
    Add8();
    Key8();
    RoundIs(8);
  }

  lemma Sub9()
    ensures SubBytes(State(Column(0xea, 0x83, 0x5c, 0xf0), Column(0x04, 0x45, 0x33, 0x2d),
                           Column(0x65, 0x5d, 0x98, 0xad), Column(0x85, 0x96, 0xb0, 0xc5)))
         == State(Column(0x87, 0xec, 0x4a, 0x8c), Column(0xf2, 0x6e, 0xc3, 0xd8),
                  Column(0x4d, 0x4c, 0x46, 0x95), Column(0x97, 0x90, 0xe7, 0xa6))
  {
    SboxRow0(); SboxRow2(); SboxRow3(); SboxRow4(); SboxRow5(); SboxRow6(); SboxRow8(); SboxRow9(); SboxRowA();
    SboxRowB(); SboxRowC(); SboxRowE(); SboxRowF();
    hide SubByte;
  }

  lemma Mix9()
    ensures MixColumns(ShiftRows(State(Column(0x87, 0xec, 0x4a, 0x8c), Column(0xf2, 0x6e, 0xc3, 0xd8),
                                       Column(0x4d, 0x4c, 0x46, 0x95), Column(0x97, 0x90, 0xe7, 0xa6))))
         == State(Column(0x47, 0x37, 0x94, 0xed), Column(0x40, 0xd4, 0xe4, 0xa5),
                  Column(0xa3, 0x70, 0x3a, 0xa6), Column(0x4c, 0x9f, 0x42, 0xbc))
  {
    MixColumnBytes(Column(0x87, 0x6e, 0x46, 0xa6));
    MixColumnBytes(Column(0xf2, 0x4c, 0xe7, 0x8c));
    MixColumnBytes(Column(0x4d, 0x90, 0x4a, 0xd8));
    MixColumnBytes(Column(0x97, 0xec, 0xc3, 0x95));
    hide MixColumn;
  }

  lemma Add9()
    ensures AddRoundKey(State(Column(0x47, 0x37, 0x94, 0xed), Column(0x40, 0xd4, 0xe4, 0xa5),
                              Column(0xa3, 0x70, 0x3a, 0xa6), Column(0x4c, 0x9f, 0x42, 0xbc)),
              State(Column(0xac, 0x77, 0x66, 0xf3), Column(0x19, 0xfa, 0xdc, 0x21),
                    Column(0x28, 0xd1, 0x29, 0x41), Column(0x57, 0x5c, 0x00, 0x6e)))
         == State(Column(0xeb, 0x40, 0xf2, 0x1e), Column(0x59, 0x2e, 0x38, 0x84),
                  Column(0x8b, 0xa1, 0x13, 0xe7), Column(0x1b, 0xc3, 0x42, 0xd2))
  {
  }

  lemma Round9()
    ensures Rounds(SCHEDULE, INPUT, 9) == State(Column(0xeb, 0x40, 0xf2, 0x1e), Column(0x59, 0x2e, 0x38, 0x84),
                                                Column(0x8b, 0xa1, 0x13, 0xe7), Column(0x1b, 0xc3, 0x42, 0xd2))
  {
    hide SubBytes, MixColumns, ShiftRows, AddRoundKey, RoundKey, Rounds, SCHEDULE, INPUT;
    Round8();
    Sub9();
    Mix9();
    Add9();
    Key9();
    RoundIs(9);
  }

  lemma Sub10()
    ensures SubBytes(State(Column(0xeb, 0x40, 0xf2, 0x1e), Column(0x59, 0x2e, 0x38, 0x84),
                           Column(0x8b, 0xa1, 0x13, 0xe7), Column(0x1b, 0xc3, 0x42, 0xd2)))
         == State(Column(0xe9, 0x09, 0x89, 0x72), Column(0xcb, 0x31, 0x07, 0x5f),
                  Column(0x3d, 0x32, 0x7d, 0x94), Column(0xaf, 0x2e, 0x2c, 0xb5))
  {
    SboxRow1(); SboxRow2(); SboxRow3(); SboxRow4(); SboxRow5(); SboxRow8(); SboxRowA(); SboxRowC(); SboxRowD();
    SboxRowE(); SboxRowF();
    hide SubByte;
  }

  /** The example of appendix B: the cipher under the expanded key. */
  lemma AppendixB()
    ensures Cipher(SCHEDULE, 10, INPUT) == State(Column(0x39, 0x25, 0x84, 0x1d), Column(0x02, 0xdc, 0x09, 0xfb),
                                                 Column(0xdc, 0x11, 0x85, 0x97), Column(0x19, 0x6a, 0x0b, 0x32))
  {
    Round9();
    Sub10();
    Key10();
    hide SubBytes, SubColumn, RoundKey, Rounds, SCHEDULE, INPUT;
  }

  // ---------- The example as AesEncrypt gives it ----------

  const KEY_BYTES: seq<Byte> := [0x2b, 0x7e, 0x15, 0x16, 0x28, 0xae, 0xd2, 0xa6,
                                  0xab, 0xf7, 0x15, 0x88, 0x09, 0xcf, 0x4f, 0x3c]

  const INPUT_BYTES: seq<Byte> := [0x32, 0x43, 0xf6, 0xa8, 0x88, 0x5a, 0x30, 0x8d,
                                    0x31, 0x31, 0x98, 0xa2, 0xe0, 0x37, 0x07, 0x34]

  const OUTPUT_BYTES: seq<Byte> := [0x39, 0x25, 0x84, 0x1d, 0x02, 0xdc, 0x09, 0xfb,
                                     0xdc, 0x11, 0x85, 0x97, 0x19, 0x6a, 0x0b, 0x32]

  lemma BlockExample()
    ensures EncryptBlock(KEY_BYTES, INPUT_BYTES) == OUTPUT_BYTES
  {
    AppendixB();
    SameKey();
    SameBlocks();
    hide Cipher, KeySchedule, BlockState, StateBytes, KeyColumns;
  }

  lemma SameKey()
    ensures KeyColumns(KEY_BYTES) == KEY
  {
  }

  lemma SameBlocks()
    ensures BlockState(INPUT_BYTES) == INPUT
    ensures StateBytes(State(Column(0x39, 0x25, 0x84, 0x1d), Column(0x02, 0xdc, 0x09, 0xfb),
                             Column(0xdc, 0x11, 0x85, 0x97), Column(0x19, 0x6a, 0x0b, 0x32))) == OUTPUT_BYTES
  {
  }

  lemma {:induction false} HexAppend(x: seq<Byte>, y: seq<Byte>)
    ensures Hex(x + y) == Hex(x) + Hex(y)
    decreases |y|
  {
    hide HexByte;
    if y == [] {
      assert x + y == x;
    } else {
      HexAppend(x, y[..|y| - 1]);
      assert (x + y)[..|x + y| - 1] == x + y[..|y| - 1];
    }
  }

  lemma HexOfFour(a: Byte, b: Byte, c: Byte, d: Byte)
    ensures Hex([a, b, c, d]) == HexByte(a) + HexByte(b) + (HexByte(c) + HexByte(d))
  {
    HexOfTwo(a, b);
    HexOfTwo(c, d);
    HexAppend([a, b], [c, d]);
    hide HexByte, Hex;
    assert [a, b] + [c, d] == [a, b, c, d];
  }

  lemma HexOfTwo(a: Byte, b: Byte)
    ensures Hex([a, b]) == HexByte(a) + HexByte(b)
  {
    hide HexByte;
    assert [a, b][..1] == [a] && [a][..0] == [];
  }

  lemma Quarter0()
    ensures Hex([0x39, 0x25, 0x84, 0x1d]) == "3925841d"
  {
    HexOfFour(0x39, 0x25, 0x84, 0x1d);
    hide Hex;
  }

  lemma Quarter1()
    ensures Hex([0x02, 0xdc, 0x09, 0xfb]) == "02dc09fb"
  {
    HexOfFour(0x02, 0xdc, 0x09, 0xfb);
    hide Hex;
  }

  lemma Quarter2()
    ensures Hex([0xdc, 0x11, 0x85, 0x97]) == "dc118597"
  {
    HexOfFour(0xdc, 0x11, 0x85, 0x97);
    hide Hex;
  }

  lemma Quarter3()
    ensures Hex([0x19, 0x6a, 0x0b, 0x32]) == "196a0b32"
  {
    HexOfFour(0x19, 0x6a, 0x0b, 0x32);
    hide Hex;
  }

  lemma HexExample()
    ensures Hex(OUTPUT_BYTES) == "3925841d02dc09fb" + "dc118597196a0b32"
  {
    var x := OUTPUT_BYTES;
    Quarters();
    HexAppend(x[..4] + x[4..8], x[8..12] + x[12..]);
    HexAppend(x[..4], x[4..8]);
    HexAppend(x[8..12], x[12..]);
    hide Hex;
    assert x == (x[..4] + x[4..8]) + (x[8..12] + x[12..]);
    assert "3925841d" + "02dc09fb" == "3925841d02dc09fb" && "dc118597" + "196a0b32" == "dc118597196a0b32";
  }

  lemma Quarters()
    ensures Hex(OUTPUT_BYTES[..4]) == "3925841d" && Hex(OUTPUT_BYTES[4..8]) == "02dc09fb"
    ensures Hex(OUTPUT_BYTES[8..12]) == "dc118597" && Hex(OUTPUT_BYTES[12..]) == "196a0b32"
  {
    var x := OUTPUT_BYTES;
    assert x[0..4] == [0x39, 0x25, 0x84, 0x1d];
    assert x[4..8] == [0x02, 0xdc, 0x09, 0xfb];
    assert x[8..12] == [0xdc, 0x11, 0x85, 0x97];
    assert x[12..16] == [0x19, 0x6a, 0x0b, 0x32];
    Quarter0();
    Quarter1();
    Quarter2();
    Quarter3();
    hide Hex;
  }

  lemma OneBlock(key: seq<Byte>, src: seq<Byte>, out: seq<Byte>)
    requires |key| == 16 && |src| == 16 && EncryptBlock(key, src) == out
    ensures Encrypted(key, src) == Hex(out)
  {
    EncryptedIs(key, src);
    hide EncryptBlock, Hex, PadKey, ZeroPadded, EcbRun, Encrypted;
    assert PadKey(key) == key;
    assert ZeroPadded(src) == src;
    EcbRunOne(EncFn(key), src);
  }

  /** AesEncrypt of the block of appendix B under its key. */
  lemma TextExample()
    ensures Encrypted(KEY_BYTES, INPUT_BYTES) == "3925841d02dc09fb" + "dc118597196a0b32"
  {
    hide *;
    BlockExample();
    HexExample();
    Lengths();
    OneBlock(KEY_BYTES, INPUT_BYTES, OUTPUT_BYTES);
  }

  lemma Lengths()
    ensures |KEY_BYTES| == 16 && |INPUT_BYTES| == 16
  {
  }
}

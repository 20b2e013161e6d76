/** The key schedules and the block cipher of aes.c. */
module Aes {
  import opened Gf256
  import opened AesSpec
  import opened AesTables

  const BUFFER: nat := 68   // words in the round key buffer of an aes_context

  // ---------- Rounds ----------

  /** AES_FROUND for one word. */
  function ForwardRound(t: Tables, k: Word, y0: Word, y1: Word, y2: Word, y3: Word): Word
    requires Sized(t)
  {
    Xor(Xor(Xor(Xor(k, At(t.ft0, Byte0(y0))), At(t.ft1, Byte1(y1))), At(t.ft2, Byte2(y2))), At(t.ft3, Byte3(y3)))
  }

  /** AES_RROUND for one word. */
  function ReverseRound(t: Tables, k: Word, y0: Word, y3: Word, y2: Word, y1: Word): Word
    requires Sized(t)
  {
    Xor(Xor(Xor(Xor(k, At(t.rt0, Byte0(y0))), At(t.rt1, Byte1(y3))), At(t.rt2, Byte2(y2))), At(t.rt3, Byte3(y1)))
  }

  /** One word of the last round: four S-box values, moved into place, and the round key. */
  function LastRound(sbox: seq<Byte>, k: Word, y0: Word, y1: Word, y2: Word, y3: Word): Word
    requires |sbox| == 256
  {
    Xor(Xor(Xor(Xor(k, At(sbox, Byte0(y0)) as Word), (At(sbox, Byte1(y1)) as Word) << 8),
            (At(sbox, Byte2(y2)) as Word) << 16), (At(sbox, Byte3(y3)) as Word) << 24)
  }

  lemma SumWithKey(k: Byte, a: Byte, b: Byte, c: Byte, d: Byte)
    ensures Add(Add(Add(Add(k, a), b), c), d) == Add(Add(Add(a, b), Add(c, d)), k)
  {
    hide Add;
    AddCommutative(Add(Add(a, b), Add(c, d)), k);
    AddAssociative(k, Add(a, b), Add(c, d));
    AddAssociative(k, a, b);
    AddAssociative(Add(k, Add(a, b)), c, d);
  }

  lemma SumColumnsWithKey(k: Column, a: Column, b: Column, c: Column, d: Column)
    ensures var s := AddColumn(AddColumn(AddColumn(AddColumn(k, a), b), c), d);
            && s.b0 == Add(Sum4(a.b0, b.b0, c.b0, d.b0), k.b0) && s.b1 == Add(Sum4(a.b1, b.b1, c.b1, d.b1), k.b1)
            && s.b2 == Add(Sum4(a.b2, b.b2, c.b2, d.b2), k.b2) && s.b3 == Add(Sum4(a.b3, b.b3, c.b3, d.b3), k.b3)
  {
    hide Add;
    SumWithKey(k.b0, a.b0, b.b0, c.b0, d.b0);
    SumWithKey(k.b1, a.b1, b.b1, c.b1, d.b1);
    SumWithKey(k.b2, a.b2, b.b2, c.b2, d.b2);
    SumWithKey(k.b3, a.b3, b.b3, c.b3, d.b3);
  }

  /** The four words of one lookup add up to a mixed column. */
  lemma MixedByColumns(a: Byte, b: Byte, c: Byte, d: Byte, k: Column)
    ensures AddColumn(AddColumn(AddColumn(AddColumn(k, Multiple(a, 2, 1, 1, 3)), Multiple(b, 3, 2, 1, 1)),
                                Multiple(c, 1, 3, 2, 1)), Multiple(d, 1, 1, 3, 2))
         == AddColumn(MixColumn(Column(a, b, c, d)), k)
    ensures AddColumn(AddColumn(AddColumn(AddColumn(k, Multiple(a, 0x0e, 0x09, 0x0d, 0x0b)),
                                Multiple(b, 0x0b, 0x0e, 0x09, 0x0d)), Multiple(c, 0x0d, 0x0b, 0x0e, 0x09)),
                      Multiple(d, 0x09, 0x0d, 0x0b, 0x0e))
         == AddColumn(InvMixColumn(Column(a, b, c, d)), k)
  {
    hide Gmul, Add;
    SumColumnsWithKey(k, Multiple(a, 2, 1, 1, 3), Multiple(b, 3, 2, 1, 1), Multiple(c, 1, 3, 2, 1), Multiple(d, 1, 1, 3, 2));
    SumColumnsWithKey(k, Multiple(a, 0x0e, 0x09, 0x0d, 0x0b), Multiple(b, 0x0b, 0x0e, 0x09, 0x0d),
      Multiple(c, 0x0d, 0x0b, 0x0e, 0x09), Multiple(d, 0x09, 0x0d, 0x0b, 0x0e));
  }

  lemma ForwardRoundCorrect(t: Tables, k: Word, y0: Word, y1: Word, y2: Word, y3: Word)
    requires Correct(t)
    ensures Unpack(ForwardRound(t, k, y0, y1, y2, y3)) ==
            AddColumn(MixColumn(SubColumn(Column(Byte0(y0), Byte1(y1), Byte2(y2), Byte3(y3)))), Unpack(k))
  {
    assert ForwardOk(t, Byte0(y0)) && ForwardOk(t, Byte1(y1)) && ForwardOk(t, Byte2(y2)) && ForwardOk(t, Byte3(y3));
    hide Correct, Xor, Unpack, AddColumn, MixColumn, Multiple, At, SubByte, Byte0, Byte1, Byte2, Byte3;
    var w0, w1, w2, w3 := At(t.ft0, Byte0(y0)), At(t.ft1, Byte1(y1)), At(t.ft2, Byte2(y2)), At(t.ft3, Byte3(y3));
    UnpackXor(k, w0);
    UnpackXor(Xor(k, w0), w1);
    UnpackXor(Xor(Xor(k, w0), w1), w2);
    UnpackXor(Xor(Xor(Xor(k, w0), w1), w2), w3);
    MixedByColumns(SubByte(Byte0(y0)), SubByte(Byte1(y1)), SubByte(Byte2(y2)), SubByte(Byte3(y3)), Unpack(k));
  }

  lemma ReverseRoundCorrect(t: Tables, k: Word, y0: Word, y3: Word, y2: Word, y1: Word)
    requires Correct(t)
    ensures Unpack(ReverseRound(t, k, y0, y3, y2, y1)) ==
            AddColumn(InvMixColumn(InvSubColumn(Column(Byte0(y0), Byte1(y3), Byte2(y2), Byte3(y1)))), Unpack(k))
  {
    assert ReverseOk(t, Byte0(y0)) && ReverseOk(t, Byte1(y3)) && ReverseOk(t, Byte2(y2)) && ReverseOk(t, Byte3(y1));
    hide Correct, Xor, Unpack, AddColumn, InvMixColumn, Multiple, At, InvSubByte, Byte0, Byte1, Byte2, Byte3;
    var w0, w1, w2, w3 := At(t.rt0, Byte0(y0)), At(t.rt1, Byte1(y3)), At(t.rt2, Byte2(y2)), At(t.rt3, Byte3(y1));
    UnpackXor(k, w0);
    UnpackXor(Xor(k, w0), w1);
    UnpackXor(Xor(Xor(k, w0), w1), w2);
    UnpackXor(Xor(Xor(Xor(k, w0), w1), w2), w3);
    MixedByColumns(InvSubByte(Byte0(y0)), InvSubByte(Byte1(y3)), InvSubByte(Byte2(y2)), InvSubByte(Byte3(y1)), Unpack(k));
  }

  lemma PlacedBytes(a: Byte, b: Byte, c: Byte, d: Byte)
    ensures Unpack(a as Word) == Column(a, 0, 0, 0) && Unpack((b as Word) << 8) == Column(0, b, 0, 0)
    ensures Unpack((c as Word) << 16) == Column(0, 0, c, 0) && Unpack((d as Word) << 24) == Column(0, 0, 0, d)
  {
  }

  lemma SumPlaced(k: Column, a: Byte, b: Byte, c: Byte, d: Byte)
    ensures AddColumn(AddColumn(AddColumn(AddColumn(k, Column(a, 0, 0, 0)), Column(0, b, 0, 0)), Column(0, 0, c, 0)),
                      Column(0, 0, 0, d))
         == AddColumn(Column(a, b, c, d), k)
  {
  }

  lemma LastRoundCorrect(sbox: seq<Byte>, k: Word, y0: Word, y1: Word, y2: Word, y3: Word)
    requires |sbox| == 256
    ensures Unpack(LastRound(sbox, k, y0, y1, y2, y3)) ==
            AddColumn(Column(At(sbox, Byte0(y0)), At(sbox, Byte1(y1)), At(sbox, Byte2(y2)), At(sbox, Byte3(y3))), Unpack(k))
  {
    hide Xor, Unpack, AddColumn, At, Byte0, Byte1, Byte2, Byte3;
    var a, b, c, d := At(sbox, Byte0(y0)), At(sbox, Byte1(y1)), At(sbox, Byte2(y2)), At(sbox, Byte3(y3));
    var w0, w1, w2, w3 := a as Word, (b as Word) << 8, (c as Word) << 16, (d as Word) << 24;
    PlacedBytes(a, b, c, d);
    UnpackXor(k, w0);
    UnpackXor(Xor(k, w0), w1);
    UnpackXor(Xor(Xor(k, w0), w1), w2);
    UnpackXor(Xor(Xor(Xor(k, w0), w1), w2), w3);
    SumPlaced(Unpack(k), a, b, c, d);
  }

  lemma LastForwardWord(t: Tables, k: Word, y0: Word, y1: Word, y2: Word, y3: Word)
    requires Correct(t)
    ensures Unpack(LastRound(t.fsb, k, y0, y1, y2, y3)) ==
            AddColumn(SubColumn(Column(Byte0(y0), Byte1(y1), Byte2(y2), Byte3(y3))), Unpack(k))
  {
    assert ForwardOk(t, Byte0(y0)) && ForwardOk(t, Byte1(y1)) && ForwardOk(t, Byte2(y2)) && ForwardOk(t, Byte3(y3));
    hide Correct, LastRound, Unpack, AddColumn, Multiple, At, SubByte, Byte0, Byte1, Byte2, Byte3;
    LastRoundCorrect(t.fsb, k, y0, y1, y2, y3);
  }

  lemma LastReverseWord(t: Tables, k: Word, y0: Word, y3: Word, y2: Word, y1: Word)
    requires Correct(t)
    ensures Unpack(LastRound(t.rsb, k, y0, y3, y2, y1)) ==
            AddColumn(InvSubColumn(Column(Byte0(y0), Byte1(y3), Byte2(y2), Byte3(y1))), Unpack(k))
  {
    assert ReverseOk(t, Byte0(y0)) && ReverseOk(t, Byte1(y3)) && ReverseOk(t, Byte2(y2)) && ReverseOk(t, Byte3(y1));
    hide Correct, LastRound, Unpack, AddColumn, Multiple, At, InvSubByte, Byte0, Byte1, Byte2, Byte3;
    LastRoundCorrect(t.rsb, k, y0, y3, y2, y1);
  }

  // ---------- The state in four words ----------

  datatype Words4 = Words4(x0: Word, x1: Word, x2: Word, x3: Word)

  function UnpackState(x: Words4): State {
    State(Unpack(x.x0), Unpack(x.x1), Unpack(x.x2), Unpack(x.x3))
  }

  /** AES_FROUND */
  function ForwardRounds(t: Tables, k: Words4, y: Words4): Words4
    requires Sized(t)
  {
    Words4(ForwardRound(t, k.x0, y.x0, y.x1, y.x2, y.x3), ForwardRound(t, k.x1, y.x1, y.x2, y.x3, y.x0),
           ForwardRound(t, k.x2, y.x2, y.x3, y.x0, y.x1), ForwardRound(t, k.x3, y.x3, y.x0, y.x1, y.x2))
  }

  /** AES_RROUND */
  function ReverseRounds(t: Tables, k: Words4, y: Words4): Words4
    requires Sized(t)
  {
    Words4(ReverseRound(t, k.x0, y.x0, y.x3, y.x2, y.x1), ReverseRound(t, k.x1, y.x1, y.x0, y.x3, y.x2),
           ReverseRound(t, k.x2, y.x2, y.x1, y.x0, y.x3), ReverseRound(t, k.x3, y.x3, y.x2, y.x1, y.x0))
  }

  function LastForward(t: Tables, k: Words4, y: Words4): Words4
    requires Sized(t)
  {
    Words4(LastRound(t.fsb, k.x0, y.x0, y.x1, y.x2, y.x3), LastRound(t.fsb, k.x1, y.x1, y.x2, y.x3, y.x0),
           LastRound(t.fsb, k.x2, y.x2, y.x3, y.x0, y.x1), LastRound(t.fsb, k.x3, y.x3, y.x0, y.x1, y.x2))
  }

  function LastReverse(t: Tables, k: Words4, y: Words4): Words4
    requires Sized(t)
  {
    Words4(LastRound(t.rsb, k.x0, y.x0, y.x3, y.x2, y.x1), LastRound(t.rsb, k.x1, y.x1, y.x0, y.x3, y.x2),
           LastRound(t.rsb, k.x2, y.x2, y.x1, y.x0, y.x3), LastRound(t.rsb, k.x3, y.x3, y.x2, y.x1, y.x0))
  }

  /** A round on words is a round of FIPS 197. */
  lemma ForwardRoundsCorrect(t: Tables, k: Words4, y: Words4)
    requires Correct(t)
    ensures UnpackState(ForwardRounds(t, k, y)) ==
            AddRoundKey(MixColumns(ShiftRows(SubBytes(UnpackState(y)))), UnpackState(k))
  {
    ForwardRoundCorrect(t, k.x0, y.x0, y.x1, y.x2, y.x3);
    ForwardRoundCorrect(t, k.x1, y.x1, y.x2, y.x3, y.x0);
    ForwardRoundCorrect(t, k.x2, y.x2, y.x3, y.x0, y.x1);
    ForwardRoundCorrect(t, k.x3, y.x3, y.x0, y.x1, y.x2);
    hide Correct, ForwardRound, AddColumn, MixColumn, SubByte, Byte0, Byte1, Byte2, Byte3;
  }

  lemma ReverseRoundsCorrect(t: Tables, k: Words4, y: Words4)
    requires Correct(t)
    ensures UnpackState(ReverseRounds(t, k, y)) ==
            AddRoundKey(InvMixColumns(InvShiftRows(InvSubBytes(UnpackState(y)))), UnpackState(k))
  {
    ReverseRoundCorrect(t, k.x0, y.x0, y.x3, y.x2, y.x1);
    ReverseRoundCorrect(t, k.x1, y.x1, y.x0, y.x3, y.x2);
    ReverseRoundCorrect(t, k.x2, y.x2, y.x1, y.x0, y.x3);
    ReverseRoundCorrect(t, k.x3, y.x3, y.x2, y.x1, y.x0);
    hide Correct, ReverseRound, AddColumn, InvMixColumn, InvSubByte, Byte0, Byte1, Byte2, Byte3;
  }

  lemma LastForwardCorrect(t: Tables, k: Words4, y: Words4)
    requires Correct(t)
    ensures UnpackState(LastForward(t, k, y)) == AddRoundKey(ShiftRows(SubBytes(UnpackState(y))), UnpackState(k))
  {
    LastForwardWord(t, k.x0, y.x0, y.x1, y.x2, y.x3);
    LastForwardWord(t, k.x1, y.x1, y.x2, y.x3, y.x0);
    LastForwardWord(t, k.x2, y.x2, y.x3, y.x0, y.x1);
    LastForwardWord(t, k.x3, y.x3, y.x0, y.x1, y.x2);
    hide Correct, LastRound, AddColumn, SubByte, Byte0, Byte1, Byte2, Byte3;
  }

  lemma LastReverseCorrect(t: Tables, k: Words4, y: Words4)
    requires Correct(t)
    ensures UnpackState(LastReverse(t, k, y)) == AddRoundKey(InvShiftRows(InvSubBytes(UnpackState(y))), UnpackState(k))
  {
    LastReverseWord(t, k.x0, y.x0, y.x3, y.x2, y.x1);
    LastReverseWord(t, k.x1, y.x1, y.x0, y.x3, y.x2);
    LastReverseWord(t, k.x2, y.x2, y.x1, y.x0, y.x3);
    LastReverseWord(t, k.x3, y.x3, y.x2, y.x1, y.x0);
    hide Correct, LastRound, AddColumn, InvSubByte, Byte0, Byte1, Byte2, Byte3;
  }

  // ---------- Blocks of bytes ----------

  /** The state that holds a block (section 3.4 of FIPS 197). */
  function BlockState(b: seq<Byte>): State
    requires |b| == 16
  {
    State(Column(b[0], b[1], b[2], b[3]), Column(b[4], b[5], b[6], b[7]),
          Column(b[8], b[9], b[10], b[11]), Column(b[12], b[13], b[14], b[15]))
  }

  /** GET_UINT32_LE */
  function GetWord(b: seq<Byte>, i: nat): Word
    requires i + 4 <= |b|
  {
    (b[i] as Word) | ((b[i + 1] as Word) << 8) | ((b[i + 2] as Word) << 16) | ((b[i + 3] as Word) << 24)
  }

  /** PUT_UINT32_LE */
  function PutWord(w: Word): (b: seq<Byte>)
    ensures |b| == 4
  {
    [Byte0(w), Byte1(w), Byte2(w), Byte3(w)]
  }

  lemma GetWordBytes(b: seq<Byte>, i: nat)
    requires i + 4 <= |b|
    ensures Unpack(GetWord(b, i)) == Column(b[i], b[i + 1], b[i + 2], b[i + 3])
  {
    OrBytes(b[i], b[i + 1], b[i + 2], b[i + 3]);
  }

  lemma OrBytes(a: Byte, b: Byte, c: Byte, d: Byte)
    ensures Unpack((a as Word) | ((b as Word) << 8) | ((c as Word) << 16) | ((d as Word) << 24)) == Column(a, b, c, d)
  {
  }

  function GetBlock(b: seq<Byte>): Words4
    requires |b| == 16
  {
    Words4(GetWord(b, 0), GetWord(b, 4), GetWord(b, 8), GetWord(b, 12))
  }

  function PutBlock(x: Words4): (b: seq<Byte>)
    ensures |b| == 16
  {
    PutWord(x.x0) + PutWord(x.x1) + PutWord(x.x2) + PutWord(x.x3)
  }

  lemma GetBlockState(b: seq<Byte>)
    requires |b| == 16
    ensures UnpackState(GetBlock(b)) == BlockState(b)
  {
    hide GetWord, Unpack;
    GetWordBytes(b, 0);
    GetWordBytes(b, 4);
    GetWordBytes(b, 8);
    GetWordBytes(b, 12);
  }

  lemma PutBlockState(x: Words4)
    ensures BlockState(PutBlock(x)) == UnpackState(x)
  {
    hide Byte0, Byte1, Byte2, Byte3;
  }

  function ColumnBytes(c: Column): seq<Byte> {
    [c.b0, c.b1, c.b2, c.b3]
  }

  function StateBytes(s: State): seq<Byte> {
    ColumnBytes(s.c0) + ColumnBytes(s.c1) + ColumnBytes(s.c2) + ColumnBytes(s.c3)
  }

  lemma StateBytesOfBlock(b: seq<Byte>)
    requires |b| == 16
    ensures StateBytes(BlockState(b)) == b
  {
  }

  // ---------- Contexts ----------

  /** An aes_context: the number of rounds and the round keys. */
  class Context {
    var nr: nat
    const rk: array<Word>

    constructor ()
      ensures fresh(rk) && rk.Length == BUFFER
    {
      nr := 0;
      rk := new Word[BUFFER];
    }
  }

  /** The bytes of the round key words. */
  function Columns(rk: seq<Word>): (w: seq<Column>)
    ensures |w| == |rk| && forall i :: 0 <= i < |rk| ==> w[i] == Unpack(rk[i])
  {
    seq(|rk|, i requires 0 <= i < |rk| => Unpack(rk[i]))
  }

  datatype Mode = AES_ENCRYPT | AES_DECRYPT

  /** What aes_crypt_ecb computes from the round keys of a context. */
  ghost function Ecb(rk: seq<Word>, nr: nat, mode: Mode, input: State): State
    requires nr > 0 && |rk| >= 4 * (nr + 1)
  {
    if mode == AES_DECRYPT then EqInvCipher(Columns(rk), nr, input) else Cipher(Columns(rk), nr, input)
  }

  /** Four round key words, as RK points to them. */
  function KeyAt(rk: seq<Word>, round: nat): Words4
    requires 4 * (round + 1) <= |rk|
  {
    Words4(rk[4 * round], rk[4 * round + 1], rk[4 * round + 2], rk[4 * round + 3])
  }

  lemma KeyAtIsRoundKey(rk: seq<Word>, round: nat)
    requires 4 * (round + 1) <= |rk|
    ensures UnpackState(KeyAt(rk, round)) == RoundKey(Columns(rk), round)
  {
    hide Unpack;
  }

  function XorWords(x: Words4, k: Words4): Words4 {
    Words4(Xor(x.x0, k.x0), Xor(x.x1, k.x1), Xor(x.x2, k.x2), Xor(x.x3, k.x3))
  }

  lemma XorWordsCorrect(x: Words4, k: Words4)
    ensures UnpackState(XorWords(x, k)) == AddRoundKey(UnpackState(x), UnpackState(k))
  {
    hide Unpack, Xor, AddColumn;
    UnpackXor(x.x0, k.x0);
    UnpackXor(x.x1, k.x1);
    UnpackXor(x.x2, k.x2);
    UnpackXor(x.x3, k.x3);
  }

  /** The rounds of aes_crypt_ecb up to the last one, two per iteration as in the source. */
  method EncryptRounds(t: Tables, rk: seq<Word>, nr: nat, input: seq<Byte>) returns (x: Words4)
    requires Correct(t) && |input| == 16 && nr >= 2 && nr % 2 == 0 && |rk| >= 4 * (nr + 1)
    ensures UnpackState(x) == Rounds(Columns(rk), BlockState(input), nr - 1)
  {
    hide Correct, ForwardRounds, UnpackState, KeyAt, AddRoundKey, MixColumns, ShiftRows, SubBytes, RoundKey, Columns;
    ghost var w := Columns(rk);
    GetBlockState(input);
    KeyAtIsRoundKey(rk, 0);
    XorWordsCorrect(GetBlock(input), KeyAt(rk, 0));
    x := XorWords(GetBlock(input), KeyAt(rk, 0));
    var r := 0;
    var i := nr / 2 - 1;
    while i > 0
      invariant 0 <= i <= nr / 2 - 1 && r == 2 * (nr / 2 - 1 - i)
      invariant UnpackState(x) == Rounds(w, BlockState(input), r)
    {
      x := EncryptRound(t, rk, input, r, x);
      x := EncryptRound(t, rk, input, r + 1, x);
      r := r + 2;
      i := i - 1;
    }
    x := EncryptRound(t, rk, input, r, x);
  }

  method EncryptRound(t: Tables, rk: seq<Word>, ghost input: seq<Byte>, r: nat, x: Words4) returns (y: Words4)
    requires Correct(t) && |input| == 16 && |rk| >= 4 * (r + 2)
    requires UnpackState(x) == Rounds(Columns(rk), BlockState(input), r)
    ensures UnpackState(y) == Rounds(Columns(rk), BlockState(input), r + 1)
  {
    hide Correct, ForwardRounds, UnpackState, KeyAt, AddRoundKey, MixColumns, ShiftRows, SubBytes, RoundKey, Columns;
    KeyAtIsRoundKey(rk, r + 1);
    ForwardRoundsCorrect(t, KeyAt(rk, r + 1), x);
    assert Sized(t) by { CorrectIsSized(t); }
    y := ForwardRounds(t, KeyAt(rk, r + 1), x);
  }

  lemma CorrectIsSized(t: Tables)
    requires Correct(t)
    ensures Sized(t)
  {
  }

  method DecryptRounds(t: Tables, rk: seq<Word>, nr: nat, input: seq<Byte>) returns (x: Words4)
    requires Correct(t) && |input| == 16 && nr >= 2 && nr % 2 == 0 && |rk| >= 4 * (nr + 1)
    ensures UnpackState(x) == EqInvRounds(Columns(rk), BlockState(input), nr - 1)
  {
    hide Correct, ReverseRounds, UnpackState, KeyAt, AddRoundKey, InvMixColumns, InvShiftRows, InvSubBytes, RoundKey,
      Columns;
    ghost var w := Columns(rk);
    GetBlockState(input);
    KeyAtIsRoundKey(rk, 0);
    XorWordsCorrect(GetBlock(input), KeyAt(rk, 0));
    x := XorWords(GetBlock(input), KeyAt(rk, 0));
    var r := 0;
    var i := nr / 2 - 1;
    while i > 0
      invariant 0 <= i <= nr / 2 - 1 && r == 2 * (nr / 2 - 1 - i)
      invariant UnpackState(x) == EqInvRounds(w, BlockState(input), r)
    {
      x := DecryptRound(t, rk, input, r, x);
      x := DecryptRound(t, rk, input, r + 1, x);
      r := r + 2;
      i := i - 1;
    }
    x := DecryptRound(t, rk, input, r, x);
  }

  method DecryptRound(t: Tables, rk: seq<Word>, ghost input: seq<Byte>, r: nat, x: Words4) returns (y: Words4)
    requires Correct(t) && |input| == 16 && |rk| >= 4 * (r + 2)
    requires UnpackState(x) == EqInvRounds(Columns(rk), BlockState(input), r)
    ensures UnpackState(y) == EqInvRounds(Columns(rk), BlockState(input), r + 1)
  {
    hide Correct, ReverseRounds, UnpackState, KeyAt, AddRoundKey, InvMixColumns, InvShiftRows, InvSubBytes, RoundKey,
      Columns;
    KeyAtIsRoundKey(rk, r + 1);
    ReverseRoundsCorrect(t, KeyAt(rk, r + 1), x);
    assert Sized(t) by { CorrectIsSized(t); }
    y := ReverseRounds(t, KeyAt(rk, r + 1), x);
  }

  /** aes_crypt_ecb: the cipher of FIPS 197, or its equivalent inverse, with the round keys of the context. */
  method CryptEcb(ctx: Context, t: Tables, mode: Mode, input: seq<Byte>) returns (output: seq<Byte>)
    requires Correct(t) && |input| == 16
    requires ctx.nr >= 2 && ctx.nr % 2 == 0 && ctx.rk.Length >= 4 * (ctx.nr + 1)
    ensures |output| == 16
    ensures BlockState(output) == Ecb(ctx.rk[..], ctx.nr, mode, BlockState(input))
  {
    hide Correct, LastForward, LastReverse, UnpackState, KeyAt, AddRoundKey, InvShiftRows, InvSubBytes, ShiftRows,
      SubBytes, RoundKey, Columns, Rounds, EqInvRounds, PutBlock, BlockState;
    var rk := ctx.rk[..];
    var key := KeyAt(rk, ctx.nr);
    KeyAtIsRoundKey(rk, ctx.nr);
    CorrectIsSized(t);
    var x;
    if mode == AES_DECRYPT {
      x := DecryptRounds(t, rk, ctx.nr, input);
      LastReverseCorrect(t, key, x);
      x := LastReverse(t, key, x);
    } else {
      x := EncryptRounds(t, rk, ctx.nr, input);
      LastForwardCorrect(t, key, x);
      x := LastForward(t, key, x);
    }
    PutBlockState(x);
    output := PutBlock(x);
  }

  // ---------- Key schedules ----------

  /** The key as words (section 5.2 of FIPS 197). */
  function KeyColumns(key: seq<Byte>): (k: seq<Column>)
    requires |key| % 4 == 0
    ensures |k| == |key| / 4
    ensures forall i :: 0 <= i < |k| ==> k[i] == Column(key[4 * i], key[4 * i + 1], key[4 * i + 2], key[4 * i + 3])
  {
    seq(|key| / 4, i requires 0 <= i < |key| / 4 =>
      Column(key[4 * i], key[4 * i + 1], key[4 * i + 2], key[4 * i + 3]))
  }

  /** The first n words of the buffer are the key schedule of key. */
  ghost predicate Expanded(rk: seq<Word>, key: seq<Column>, n: nat)
    requires |key| > 0
  {
    n <= |rk| && forall i :: 0 <= i < n ==> Unpack(rk[i]) == KeyWord(key, i)
  }

  /** SubWord (RotWord (w)), added to v and a round constant. */
  function RotSub(t: Tables, v: Word, rcon: Word, w: Word): Word
    requires Sized(t)
  {
    Xor(Xor(Xor(Xor(Xor(v, rcon), At(t.fsb, Byte1(w)) as Word), (At(t.fsb, Byte2(w)) as Word) << 8),
            (At(t.fsb, Byte3(w)) as Word) << 16), (At(t.fsb, Byte0(w)) as Word) << 24)
  }

  /** SubWord (w), added to v. */
  function Sub(t: Tables, v: Word, w: Word): Word
    requires Sized(t)
  {
    LastRound(t.fsb, v, w, w, w, w)
  }

  lemma SubCorrect(t: Tables, v: Word, w: Word)
    requires Correct(t)
    ensures Unpack(Sub(t, v, w)) == AddColumn(Unpack(v), SubColumn(Unpack(w)))
  {
    hide Correct, LastRound, SubByte, Byte0, Byte1, Byte2, Byte3, AddColumn;
    LastForwardWord(t, v, w, w, w, w);
    AddColumnCommutes(Unpack(v), SubColumn(Unpack(w)));
  }

  lemma AddColumnCommutes(a: Column, b: Column)
    ensures AddColumn(a, b) == AddColumn(b, a)
  {
  }

  lemma AddColumnAssociative(a: Column, b: Column, c: Column)
    ensures AddColumn(AddColumn(a, b), c) == AddColumn(a, AddColumn(b, c))
  {
    hide Add;
    AddAssociative(a.b0, b.b0, c.b0);
    AddAssociative(a.b1, b.b1, c.b1);
    AddAssociative(a.b2, b.b2, c.b2);
    AddAssociative(a.b3, b.b3, c.b3);
  }

  lemma SboxIsSubByte(t: Tables, b: Byte)
    requires Correct(t)
    ensures At(t.fsb, b) == SubByte(b) && At(t.rsb, b) == InvSubByte(b)
  {
    assert ForwardOk(t, b) && ReverseOk(t, b);
  }

  lemma RotSubCorrect(t: Tables, v: Word, rcon: Word, w: Word)
    requires Correct(t)
    ensures Unpack(RotSub(t, v, rcon, w)) ==
            AddColumn(Unpack(v), AddColumn(SubColumn(RotWord(Unpack(w))), Unpack(rcon)))
  {
    hide Correct, Xor, AddColumn, At, SubByte, Byte0, Byte1, Byte2, Byte3;
    CorrectIsSized(t);
    SboxIsSubByte(t, Byte0(w));
    SboxIsSubByte(t, Byte1(w));
    SboxIsSubByte(t, Byte2(w));
    SboxIsSubByte(t, Byte3(w));
    var a, b, c, d := At(t.fsb, Byte1(w)), At(t.fsb, Byte2(w)), At(t.fsb, Byte3(w)), At(t.fsb, Byte0(w));
    var k := Xor(v, rcon);
    UnpackXor(v, rcon);
    RotSubPlaced(k, a, b, c, d);
    AddColumnCommutes(Column(a, b, c, d), Unpack(k));
    AddColumnAssociative(Unpack(v), Unpack(rcon), Column(a, b, c, d));
    AddColumnCommutes(Unpack(rcon), Column(a, b, c, d));
  }

  lemma RotSubPlaced(k: Word, a: Byte, b: Byte, c: Byte, d: Byte)
    ensures Unpack(Xor(Xor(Xor(Xor(k, a as Word), (b as Word) << 8), (c as Word) << 16), (d as Word) << 24)) ==
            AddColumn(Column(a, b, c, d), Unpack(k))
  {
    hide Xor, AddColumn, Unpack;
    var w0, w1, w2, w3 := a as Word, (b as Word) << 8, (c as Word) << 16, (d as Word) << 24;
    PlacedBytes(a, b, c, d);
    UnpackXor(k, w0);
    UnpackXor(Xor(k, w0), w1);
    UnpackXor(Xor(Xor(k, w0), w1), w2);
    UnpackXor(Xor(Xor(Xor(k, w0), w1), w2), w3);
    SumPlaced(Unpack(k), a, b, c, d);
  }

  /** Adding word n to the buffer extends the key schedule by one word. */
  lemma ExpandedExtends(rk: seq<Word>, key: seq<Column>, n: nat, w: Word)
    requires |key| > 0 && Expanded(rk, key, n) && n < |rk| && Unpack(w) == KeyWord(key, n)
    ensures Expanded(rk[n := w], key, n + 1)
  {
    hide Unpack;
  }

  /** A word of the schedule inside a round: the one before it added to the one a round back. */
  method PlainStep(rk: array<Word>, ghost key: seq<Column>, n: nat, nk: nat)
    requires |key| == nk > 0 && nk <= n < rk.Length && Expanded(rk[..], key, n)
    requires n % nk != 0 && (nk > 6 ==> n % nk != 4)
    modifies rk
    ensures Expanded(rk[..], key, n + 1)
  {
    hide Unpack, Xor, AddColumn;
    var w := Xor(rk[n - nk], rk[n - 1]);
    UnpackXor(rk[n - nk], rk[n - 1]);
    assert Unpack(rk[..][n - nk]) == KeyWord(key, n - nk) && Unpack(rk[..][n - 1]) == KeyWord(key, n - 1);
    ExpandedExtends(rk[..], key, n, w);
    hide Expanded;
    ghost var before := rk[..];
    rk[n] := w;
    assert rk[..] == before[n := w];
  }

  /** The word that starts a new round of the key schedule. */
  method RotStep(t: Tables, rk: array<Word>, ghost key: seq<Column>, n: nat, nk: nat, i: nat)
    requires Correct(t) && |key| == nk > 0 && i < 10 && nk <= n < rk.Length
    requires n % nk == 0 && n / nk == i + 1
    requires Expanded(rk[..], key, n)
    modifies rk
    ensures Expanded(rk[..], key, n + 1)
  {
    CorrectIsSized(t);
    hide Correct, Unpack, RotSub, KeyWord;
    var w := RotSub(t, rk[n - nk], t.rcon[i], rk[n - 1]);
    RotWordIs(t, rk[..], key, n, i);
    ExpandedExtends(rk[..], key, n, w);
    hide Expanded;
    ghost var before := rk[..];
    rk[n] := w;
    assert rk[..] == before[n := w];
  }

  lemma RotWordIs(t: Tables, rk: seq<Word>, key: seq<Column>, n: nat, i: nat)
    requires Correct(t) && Sized(t) && i < 10 && 0 < |key| <= n < |rk|
    requires n % |key| == 0 && n / |key| == i + 1 && Expanded(rk, key, n)
    ensures Unpack(RotSub(t, rk[n - |key|], t.rcon[i], rk[n - 1])) == KeyWord(key, n)
  {
    RotIndex(t, i, key, n);
    hide Correct, Unpack, AddColumn, RotSub, SubColumn, RotWord, Rcon, KeyWord;
    RotSubCorrect(t, rk[n - |key|], t.rcon[i], rk[n - 1]);
    assert Unpack(rk[n - |key|]) == KeyWord(key, n - |key|) && Unpack(rk[n - 1]) == KeyWord(key, n - 1);
  }

  lemma RotIndex(t: Tables, i: nat, key: seq<Column>, n: nat)
    requires Correct(t) && i < 10 && 0 < |key| <= n && n % |key| == 0 && n / |key| == i + 1
    ensures Sized(t) && Unpack(t.rcon[i]) == Rcon(i + 1)
    ensures KeyWord(key, n) == AddColumn(KeyWord(key, n - |key|),
              AddColumn(SubColumn(RotWord(KeyWord(key, n - 1))), Rcon(i + 1)))
  {
    hide Unpack, Rcon, ForwardOk, ReverseOk, AddColumn, SubColumn, RotWord;
  }

  /** The extra substitution in the middle of a round with 256-bit keys. */
  method SubStep(t: Tables, rk: array<Word>, ghost key: seq<Column>, n: nat)
    requires Correct(t) && |key| == 8 <= n < rk.Length && n % 8 == 4 && Expanded(rk[..], key, n)
    modifies rk
    ensures Expanded(rk[..], key, n + 1)
  {
    CorrectIsSized(t);
    hide Correct, Unpack, AddColumn, Sub, SubColumn;
    var w := Sub(t, rk[n - 8], rk[n - 1]);
    SubCorrect(t, rk[n - 8], rk[n - 1]);
    assert Unpack(rk[..][n - 8]) == KeyWord(key, n - 8) && Unpack(rk[..][n - 1]) == KeyWord(key, n - 1);
    ExpandedExtends(rk[..], key, n, w);
    ghost var before := rk[..];
    rk[n] := w;
    assert rk[..] == before[n := w];
  }

  const INVALID_KEY_LENGTH: int := -0x0020

  /** The number of rounds for a key size in bits; 0 if the size is not supported. */
  function RoundsFor(keysize: nat): nat {
    if keysize == 128 then 10 else if keysize == 192 then 12 else if keysize == 256 then 14 else 0
  }

  /** The first loop of aes_setkey_enc: the key itself. */
  method LoadKeyWords(rk: array<Word>, key: seq<Byte>)
    requires |key| % 4 == 0 && 0 < |key| / 4 <= rk.Length
    modifies rk
    ensures Expanded(rk[..], KeyColumns(key), |key| / 4)
  {
    hide Unpack, GetWord, Expanded;
    ghost var k := KeyColumns(key);
    assert Expanded(rk[..], k, 0) by { NothingExpanded(rk[..], k); }
    for i := 0 to |key| / 4
      invariant Expanded(rk[..], k, i)
    {
      GetWordBytes(key, 4 * i);
      ExpandedExtends(rk[..], k, i, GetWord(key, 4 * i));
      ghost var before := rk[..];
      rk[i] := GetWord(key, 4 * i);
      assert rk[..] == before[i := GetWord(key, 4 * i)];
    }
  }

  lemma NothingExpanded(rk: seq<Word>, key: seq<Column>)
    requires |key| > 0
    ensures Expanded(rk, key, 0)
  {
  }

  method Expand128(t: Tables, rk: array<Word>, ghost key: seq<Column>)
    requires Correct(t) && |key| == 4 && rk.Length == BUFFER && Expanded(rk[..], key, 4)
    modifies rk
    ensures Expanded(rk[..], key, 44)
  {
    hide Correct, Expanded;
    for i := 0 to 10
      invariant Expanded(rk[..], key, 4 * i + 4)
    {
      var n := 4 * i + 4;
      RotStep(t, rk, key, n, 4, i);
      PlainStep(rk, key, n + 1, 4);
      PlainStep(rk, key, n + 2, 4);
      PlainStep(rk, key, n + 3, 4);
    }
  }

  method Expand192(t: Tables, rk: array<Word>, ghost key: seq<Column>)
    requires Correct(t) && |key| == 6 && rk.Length == BUFFER && Expanded(rk[..], key, 6)
    modifies rk
    ensures Expanded(rk[..], key, 54)
  {
    hide Correct, Expanded;
    for i := 0 to 8
      invariant Expanded(rk[..], key, 6 * i + 6)
    {
      var n := 6 * i + 6;
      RotStep(t, rk, key, n, 6, i);
      PlainStep(rk, key, n + 1, 6);
      PlainStep(rk, key, n + 2, 6);
      PlainStep(rk, key, n + 3, 6);
      PlainStep(rk, key, n + 4, 6);
      PlainStep(rk, key, n + 5, 6);
    }
  }

  method Expand256(t: Tables, rk: array<Word>, ghost key: seq<Column>)
    requires Correct(t) && |key| == 8 && rk.Length == BUFFER && Expanded(rk[..], key, 8)
    modifies rk
    ensures Expanded(rk[..], key, 64)
  {
    hide Correct, Expanded;
    for i := 0 to 7
      invariant Expanded(rk[..], key, 8 * i + 8)
    {
      var n := 8 * i + 8;
      RotStep(t, rk, key, n, 8, i);
      PlainStep(rk, key, n + 1, 8);
      PlainStep(rk, key, n + 2, 8);
      PlainStep(rk, key, n + 3, 8);
      SubStep(t, rk, key, n + 4);
      PlainStep(rk, key, n + 5, 8);
      PlainStep(rk, key, n + 6, 8);
      PlainStep(rk, key, n + 7, 8);
    }
  }

  /** The context holds the encryption key schedule of key. */
  ghost predicate EncKeyed(ctx: Context, key: seq<Byte>)
    reads ctx, ctx.rk
  {
    && |key| in {16, 24, 32} && ctx.nr == RoundsFor(8 * |key|) && ctx.rk.Length == BUFFER
    && Expanded(ctx.rk[..], KeyColumns(key), 4 * (ctx.nr + 1))
  }

  /** The round constants as the example of appendix A.1 of FIPS 197 has them. */
  function RoundConstant(m: nat): Byte {
    match m
    case 1 => 0x01
    case 2 => 0x02
    case 3 => 0x04
    case 4 => 0x08
    case 5 => 0x10
    case 6 => 0x20
    case 7 => 0x40
    case 8 => 0x80
    case 9 => 0x1b
    case _ => 0x36
  }

  /** Byte j of a word, low byte first. */
  function ByteAt(w: Word, j: nat): Byte
    requires j < 4
  {
    if j == 0 then Byte0(w) else if j == 1 then Byte1(w) else if j == 2 then Byte2(w) else Byte3(w)
  }

  /** Byte j of word i of the buffer, from the key and the words before it. */
  ghost predicate ByteExpanded(rk: seq<Word>, key: seq<Byte>, i: nat, j: nat)
    requires |key| in {16, 24, 32} && i < |rk| && i / (|key| / 4) <= 10 && j < 4
  {
    var nk := |key| / 4;
    ByteAt(rk[i], j) ==
      if i < nk then key[4 * i + j]
      else if i % nk == 0 then
        Add(ByteAt(rk[i - nk], j),
            Add(SubByte(ByteAt(rk[i - 1], (j + 1) % 4)), if j == 0 then RoundConstant(i / nk) else 0))
      else if nk == 8 && i % nk == 4 then Add(ByteAt(rk[i - nk], j), SubByte(ByteAt(rk[i - 1], j)))
      else Add(ByteAt(rk[i - nk], j), ByteAt(rk[i - 1], j))
  }

  lemma RoundIndex(i: nat, nk: nat)
    requires nk in {4, 6, 8} && i < 4 * (nk + 7)
    ensures i / nk <= 10 && (i >= nk ==> 1 <= i / nk)
  {
  }

  lemma PlainBytes(w: Word, a: Word, b: Word, j: nat)
    requires j < 4 && Unpack(w) == AddColumn(Unpack(a), Unpack(b))
    ensures ByteAt(w, j) == Add(ByteAt(a, j), ByteAt(b, j))
  {
    hide Byte0, Byte1, Byte2, Byte3, Add;
  }

  lemma SubBytesAt(w: Word, a: Word, b: Word, j: nat)
    requires j < 4 && Unpack(w) == AddColumn(Unpack(a), SubColumn(Unpack(b)))
    ensures ByteAt(w, j) == Add(ByteAt(a, j), SubByte(ByteAt(b, j)))
  {
    hide Byte0, Byte1, Byte2, Byte3, SubByte, Add;
  }

  lemma RconIs(m: nat)
    requires 1 <= m <= 10
    ensures Rcon(m) == Column(RoundConstant(m), 0, 0, 0)
  {
    RoundConstants();
    hide PowerOfX;
  }

  lemma RotBytes(w: Word, a: Word, b: Word, p: Byte, j: nat)
    requires j < 4 && Unpack(w) == AddColumn(Unpack(a), AddColumn(SubColumn(RotWord(Unpack(b))), Column(p, 0, 0, 0)))
    ensures ByteAt(w, j) == Add(ByteAt(a, j), Add(SubByte(ByteAt(b, (j + 1) % 4)), if j == 0 then p else 0))
  {
    hide Byte0, Byte1, Byte2, Byte3, SubByte, Add;
  }

  lemma KeyWordIs(k: seq<Column>, i: nat)
    requires |k| > 0
    ensures KeyWord(k, i) ==
      if i < |k| then k[i]
      else if i % |k| == 0 then
        AddColumn(KeyWord(k, i - |k|), AddColumn(SubColumn(RotWord(KeyWord(k, i - 1))), Rcon(i / |k|)))
      else if |k| > 6 && i % |k| == 4 then AddColumn(KeyWord(k, i - |k|), SubColumn(KeyWord(k, i - 1)))
      else AddColumn(KeyWord(k, i - |k|), KeyWord(k, i - 1))
  {
    hide AddColumn, SubColumn, RotWord, Rcon;
  }

  lemma KeyBytes(rk: seq<Word>, key: seq<Byte>, i: nat, j: nat)
    requires |key| in {16, 24, 32} && i < |key| / 4 && i < |rk| && j < 4 && Unpack(rk[i]) == KeyColumns(key)[i]
    ensures ByteAt(rk[i], j) == key[4 * i + j]
  {
    hide Byte0, Byte1, Byte2, Byte3, Add;
  }

  lemma KeyExpands(rk: seq<Word>, key: seq<Byte>, i: nat, j: nat)
    requires |key| in {16, 24, 32} && i < |key| / 4 && i < |rk| && j < 4 && Unpack(rk[i]) == KeyColumns(key)[i]
    ensures i / (|key| / 4) <= 10 && ByteExpanded(rk, key, i, j)
  {
    hide ByteAt, Add, SubByte, Unpack, RoundConstant;
    KeyBytes(rk, key, i, j);
  }

  lemma RotExpands(rk: seq<Word>, key: seq<Byte>, i: nat, j: nat)
    requires |key| in {16, 24, 32} && |key| / 4 <= i < |rk| && i % (|key| / 4) == 0 && 1 <= i / (|key| / 4) <= 10 && j < 4
    requires Unpack(rk[i]) == AddColumn(Unpack(rk[i - |key| / 4]),
                                AddColumn(SubColumn(RotWord(Unpack(rk[i - 1]))), Rcon(i / (|key| / 4))))
    ensures ByteExpanded(rk, key, i, j)
  {
    hide Unpack, ByteAt, Add, SubByte, AddColumn, SubColumn, RotWord, Rcon, ByteExpanded, RoundConstant;
    RconIs(i / (|key| / 4));
    RotBytes(rk[i], rk[i - |key| / 4], rk[i - 1], RoundConstant(i / (|key| / 4)), j);
    RotForm(rk, key, i, j, RoundConstant(i / (|key| / 4)));
  }

  lemma RotForm(rk: seq<Word>, key: seq<Byte>, i: nat, j: nat, p: Byte)
    requires |key| in {16, 24, 32} && |key| / 4 <= i < |rk| && i % (|key| / 4) == 0 && 1 <= i / (|key| / 4) <= 10 && j < 4
    requires p == RoundConstant(i / (|key| / 4))
    requires ByteAt(rk[i], j) ==
      Add(ByteAt(rk[i - |key| / 4], j), Add(SubByte(ByteAt(rk[i - 1], (j + 1) % 4)), if j == 0 then p else 0))
    ensures ByteExpanded(rk, key, i, j)
  {
    hide ByteAt, Add, SubByte, RoundConstant;
  }

  lemma SubExpands(rk: seq<Word>, key: seq<Byte>, i: nat, j: nat)
    requires |key| == 32 && 8 <= i < |rk| && i % 8 == 4 && i / 8 <= 10 && j < 4
    requires Unpack(rk[i]) == AddColumn(Unpack(rk[i - 8]), SubColumn(Unpack(rk[i - 1])))
    ensures ByteExpanded(rk, key, i, j)
  {
    hide Unpack, ByteAt, Add, SubByte, AddColumn, SubColumn, RoundConstant;
    SubBytesAt(rk[i], rk[i - 8], rk[i - 1], j);
  }

  lemma PlainExpands(rk: seq<Word>, key: seq<Byte>, i: nat, j: nat)
    requires |key| in {16, 24, 32} && |key| / 4 <= i < |rk| && i % (|key| / 4) != 0 && i / (|key| / 4) <= 10 && j < 4
    requires !(|key| == 32 && i % 8 == 4) && Unpack(rk[i]) == AddColumn(Unpack(rk[i - |key| / 4]), Unpack(rk[i - 1]))
    ensures ByteExpanded(rk, key, i, j)
  {
    hide Unpack, ByteAt, Add, SubByte, AddColumn, RoundConstant;
    PlainBytes(rk[i], rk[i - |key| / 4], rk[i - 1], j);
  }

  lemma KeyCase(rk: seq<Word>, key: seq<Byte>, n: nat, i: nat, j: nat)
    requires |key| in {16, 24, 32} && Expanded(rk, KeyColumns(key), n) && i < n && i < |key| / 4 && j < 4
    ensures i / (|key| / 4) <= 10 && ByteExpanded(rk, key, i, j)
  {
    KeyWordIs(KeyColumns(key), i);
    ExpandedAt(rk, KeyColumns(key), n, i);
    hide ByteExpanded, KeyWord, Unpack;
    KeyExpands(rk, key, i, j);
  }

  /** What the words of the buffer are, by those before them. */
  lemma WordIs(rk: seq<Word>, k: seq<Column>, n: nat, i: nat)
    requires 0 < |k| <= i < n && Expanded(rk, k, n)
    ensures Unpack(rk[i]) ==
      if i % |k| == 0 then
        AddColumn(Unpack(rk[i - |k|]), AddColumn(SubColumn(RotWord(Unpack(rk[i - 1]))), Rcon(i / |k|)))
      else if |k| > 6 && i % |k| == 4 then AddColumn(Unpack(rk[i - |k|]), SubColumn(Unpack(rk[i - 1])))
      else AddColumn(Unpack(rk[i - |k|]), Unpack(rk[i - 1]))
  {
    KeyWordIs(k, i);
    ExpandedAt(rk, k, n, i);
    ExpandedAt(rk, k, n, i - |k|);
    ExpandedAt(rk, k, n, i - 1);
    hide KeyWord, Unpack, AddColumn, SubColumn, RotWord, Rcon;
  }

  lemma RotCase(rk: seq<Word>, key: seq<Byte>, n: nat, i: nat, j: nat, nk: nat)
    requires |key| in {16, 24, 32} && nk == |key| / 4 <= i < n <= |rk| && Expanded(rk, KeyColumns(key), n) && j < 4
    requires i % nk == 0 && 1 <= i / nk <= 10
    ensures ByteExpanded(rk, key, i, j)
  {
    hide *;
    WordIs(rk, KeyColumns(key), n, i);
    RotExpands(rk, key, i, j);
  }

  lemma SubCase(rk: seq<Word>, key: seq<Byte>, n: nat, i: nat, j: nat)
    requires |key| == 32 && 8 <= i < n <= |rk| && Expanded(rk, KeyColumns(key), n) && j < 4 && i % 8 == 4 && i / 8 <= 10
    ensures ByteExpanded(rk, key, i, j)
  {
    hide *;
    WordIs(rk, KeyColumns(key), n, i);
    SubExpands(rk, key, i, j);
  }

  lemma PlainCase(rk: seq<Word>, key: seq<Byte>, n: nat, i: nat, j: nat, nk: nat)
    requires |key| in {16, 24, 32} && nk == |key| / 4 <= i < n <= |rk| && Expanded(rk, KeyColumns(key), n) && j < 4
    requires i % nk != 0 && !(nk == 8 && i % 8 == 4) && i / nk <= 10
    ensures ByteExpanded(rk, key, i, j)
  {
    hide *;
    WordIs(rk, KeyColumns(key), n, i);
    PlainExpands(rk, key, i, j);
  }

  /** Section 5.2 of FIPS 197 byte by byte: what an expanded key is. */
  lemma ExpandedExact(rk: seq<Word>, key: seq<Byte>, n: nat, i: nat, j: nat)
    requires |key| in {16, 24, 32} && Expanded(rk, KeyColumns(key), n) && i < n <= 4 * (|key| / 4 + 7) && j < 4
    ensures i / (|key| / 4) <= 10 && ByteExpanded(rk, key, i, j)
  {
    var nk := |key| / 4;
    RoundIndex(i, nk);
    hide ByteExpanded, Expanded, KeyColumns;
    ExpandedIsThere(rk, KeyColumns(key), n);
    if i < nk {
      KeyCase(rk, key, n, i, j);
    } else if i % nk == 0 {
      RotCase(rk, key, n, i, j, nk);
    } else if nk == 8 && i % 8 == 4 {
      SubCase(rk, key, n, i, j);
    } else {
      PlainCase(rk, key, n, i, j, nk);
    }
  }

  lemma ExpandedIsThere(rk: seq<Word>, k: seq<Column>, n: nat)
    requires |k| > 0 && Expanded(rk, k, n)
    ensures n <= |rk|
  {
  }

  ghost predicate BytesExpanded(rk: seq<Word>, key: seq<Byte>, n: nat)
    requires |key| in {16, 24, 32}
  {
    n <= |rk| && forall i, j :: 0 <= i < n && 0 <= j < 4 ==> i / (|key| / 4) <= 10 && ByteExpanded(rk, key, i, j)
  }

  lemma EncKeyedExact(ctx: Context, key: seq<Byte>)
    requires EncKeyed(ctx, key)
    ensures BytesExpanded(ctx.rk[..], key, 4 * (ctx.nr + 1))
  {
    var n := 4 * (ctx.nr + 1);
    forall i, j | 0 <= i < n && 0 <= j < 4
      ensures i / (|key| / 4) <= 10 && ByteExpanded(ctx.rk[..], key, i, j)
    {
      hide ByteExpanded, Expanded;
      ExpandedExact(ctx.rk[..], key, n, i, j);
    }
  }

  lemma ExpandedAt(rk: seq<Word>, k: seq<Column>, n: nat, i: nat)
    requires |k| > 0 && Expanded(rk, k, n) && i < n
    ensures Unpack(rk[i]) == KeyWord(k, i)
  {
    hide Unpack, KeyWord;
  }

  lemma FewerExpanded(rk: seq<Word>, key: seq<Column>, n: nat, m: nat)
    requires |key| > 0 && m <= n && Expanded(rk, key, n)
    ensures Expanded(rk, key, m)
  {
    hide Unpack;
  }

  /** aes_setkey_enc */
  method SetkeyEnc(ctx: Context, t: Tables, key: seq<Byte>, keysize: nat) returns (ret: int)
    requires Correct(t) && ctx.rk.Length == BUFFER
    requires RoundsFor(keysize) != 0 ==> 8 * |key| == keysize
    modifies ctx, ctx.rk
    ensures ret == if RoundsFor(keysize) == 0 then INVALID_KEY_LENGTH else 0
    ensures ret == 0 ==> EncKeyed(ctx, key) && BytesExpanded(ctx.rk[..], key, 4 * (ctx.nr + 1))
    ensures ret != 0 ==> ctx.nr == old(ctx.nr) && ctx.rk[..] == old(ctx.rk[..])
  {
    hide Correct, Expanded, BytesExpanded;
    if RoundsFor(keysize) == 0 {
      return INVALID_KEY_LENGTH;
    }
    ctx.nr := RoundsFor(keysize);
    LoadKeyWords(ctx.rk, key);
    ghost var k := KeyColumns(key);
    if ctx.nr == 10 {
      Expand128(t, ctx.rk, k);
    } else if ctx.nr == 12 {
      Expand192(t, ctx.rk, k);
      FewerExpanded(ctx.rk[..], k, 54, 52);
    } else {
      Expand256(t, ctx.rk, k);
      FewerExpanded(ctx.rk[..], k, 64, 60);
    }
    EncKeyedExact(ctx, key);
    ret := 0;
  }

  /** One word of a decryption round key: the reverse tables, reached through the S-box. */
  function Mixed(t: Tables, w: Word): Word
    requires Sized(t)
  {
    Xor(Xor(Xor(At(t.rt0, At(t.fsb, Byte0(w))), At(t.rt1, At(t.fsb, Byte1(w)))), At(t.rt2, At(t.fsb, Byte2(w)))),
        At(t.rt3, At(t.fsb, Byte3(w))))
  }

  /** The substitution of the reverse tables undoes the S-box, so InvMixColumn alone is left. */
  lemma MixedCorrect(t: Tables, w: Word)
    requires Correct(t)
    ensures Unpack(Mixed(t, w)) == InvMixColumn(Unpack(w))
  {
    hide Correct, Xor, AddColumn, InvMixColumn, At, SubByte, InvSubByte, Byte0, Byte1, Byte2, Byte3;
    CorrectIsSized(t);
    SboxIsSubByte(t, Byte0(w));
    SboxIsSubByte(t, Byte1(w));
    SboxIsSubByte(t, Byte2(w));
    SboxIsSubByte(t, Byte3(w));
    var y := Pack(SubColumn(Unpack(w)));
    UnpackPack(SubColumn(Unpack(w)));
    ReverseRoundCorrect(t, 0, y, y, y, y);
    SubColumnInverse(Unpack(w));
    ZeroKey(At(t.rt0, Byte0(y)), InvMixColumn(Unpack(w)));
  }

  lemma ZeroKey(v: Word, c: Column)
    ensures Xor(0, v) == v && AddColumn(c, Unpack(0)) == c
  {
  }

  /** Word k of the decryption schedule made from the encryption schedule sk. */
  ghost function DecWord(sk: seq<Word>, nr: nat, k: nat): Column
    requires k < 4 * (nr + 1) <= |sk|
  {
    var c := Unpack(sk[4 * (nr - k / 4) + k % 4]);
    if 0 < k / 4 < nr then InvMixColumn(c) else c
  }

  ghost predicate DecExpanded(rk: seq<Word>, sk: seq<Word>, nr: nat, n: nat)
    requires n <= 4 * (nr + 1) <= |sk|
  {
    n <= |rk| && forall k :: 0 <= k < n ==> Unpack(rk[k]) == DecWord(sk, nr, k)
  }

  /** Writes the next word of the schedule. */
  method Append(rk: array<Word>, n: nat, w: Word, ghost sk: seq<Word>, ghost nr: nat)
    requires n < 4 * (nr + 1) <= |sk| && n < rk.Length
    requires DecExpanded(rk[..], sk, nr, n) && Unpack(w) == DecWord(sk, nr, n)
    modifies rk
    ensures DecExpanded(rk[..], sk, nr, n + 1)
  {
    hide Unpack, DecWord;
    ghost var before := rk[..];
    rk[n] := w;
    assert rk[..] == before[n := w];
  }

  lemma DecWordAt(sk: seq<Word>, nr: nat, r: nat, j: nat)
    requires 4 * (nr + 1) <= |sk| && r <= nr && j < 4
    ensures var c := Unpack(sk[4 * (nr - r) + j]);
            DecWord(sk, nr, 4 * r + j) == if 0 < r < nr then InvMixColumn(c) else c
  {
    hide Unpack, InvMixColumn;
    assert (4 * r + j) / 4 == r && (4 * r + j) % 4 == j;
  }

  lemma MixedWord(t: Tables, sk: seq<Word>, nr: nat, i: nat, j: nat)
    requires Correct(t) && 4 * (nr + 1) <= |sk| && 0 < i < nr && j < 4
    ensures DecWord(sk, nr, 4 * (nr - i) + j) == Unpack(Mixed(t, sk[4 * i + j]))
  {
    hide Correct, Unpack, InvMixColumn, Mixed, DecWord;
    MixedCorrect(t, sk[4 * i + j]);
    DecWordAt(sk, nr, nr - i, j);
  }

  /** The part of aes_setkey_dec after the encryption schedule sk has been made. */
  method InvertSchedule(t: Tables, rk: array<Word>, sk: seq<Word>, nr: nat)
    requires Correct(t) && nr > 0 && 4 * (nr + 1) <= |sk| && 4 * (nr + 1) <= rk.Length
    modifies rk
    ensures DecExpanded(rk[..], sk, nr, 4 * (nr + 1))
  {
    hide Correct, DecWord, Mixed, Unpack;
    CorrectIsSized(t);
    var n, at := 0, 4 * nr;
    for j := 0 to 4
      invariant n == j && at == 4 * nr + j && DecExpanded(rk[..], sk, nr, n)
    {
      DecWordAt(sk, nr, 0, j);
      Append(rk, n, sk[at], sk, nr);
      n, at := n + 1, at + 1;
    }
    var i := nr - 1;
    at := at - 8;
    while i > 0
      invariant 0 <= i < nr && at == 4 * i && n == 4 * (nr - i) && DecExpanded(rk[..], sk, nr, n)
    {
      for j := 0 to 4
        invariant at == 4 * i + j && n == 4 * (nr - i) + j && DecExpanded(rk[..], sk, nr, n)
      {
        MixedWord(t, sk, nr, i, j);
        Append(rk, n, Mixed(t, sk[at]), sk, nr);
        n, at := n + 1, at + 1;
      }
      i := i - 1;
      at := at - 8;
    }
    for j := 0 to 4
      invariant at == j && n == 4 * nr + j && DecExpanded(rk[..], sk, nr, n)
    {
      DecWordAt(sk, nr, nr, j);
      Append(rk, n, sk[at], sk, nr);
      n, at := n + 1, at + 1;
    }
  }

  /** The context holds the decryption key schedule of key. */
  ghost predicate DecKeyed(ctx: Context, key: seq<Byte>)
    reads ctx, ctx.rk
  {
    && |key| in {16, 24, 32} && ctx.nr == RoundsFor(8 * |key|) && ctx.rk.Length == BUFFER
    && IsInvSchedule(Columns(ctx.rk[..]), KeySchedule(KeyColumns(key), 4 * (ctx.nr + 1)), ctx.nr)
  }

  lemma InvertedKey(rk: seq<Word>, sk: seq<Word>, key: seq<Column>, nr: nat)
    requires nr > 0 && |key| > 0 && 4 * (nr + 1) <= |sk| && 4 * (nr + 1) <= |rk|
    requires Expanded(sk, key, 4 * (nr + 1)) && DecExpanded(rk, sk, nr, 4 * (nr + 1))
    ensures IsInvSchedule(Columns(rk), KeySchedule(key, 4 * (nr + 1)), nr)
  {
    InvertedRound(rk, sk, key, nr, 0);
    InvertedRound(rk, sk, key, nr, nr);
    forall r | 0 < r < nr
      ensures RoundKey(Columns(rk), r) == InvMixColumns(RoundKey(KeySchedule(key, 4 * (nr + 1)), nr - r))
    {
      InvertedRound(rk, sk, key, nr, r);
    }
    hide Expanded, DecExpanded, Columns, RoundKey, InvMixColumns, KeyWord;
  }

  lemma InvertedRound(rk: seq<Word>, sk: seq<Word>, key: seq<Column>, nr: nat, r: nat)
    requires nr > 0 && |key| > 0 && 4 * (nr + 1) <= |sk| && 4 * (nr + 1) <= |rk| && r <= nr
    requires Expanded(sk, key, 4 * (nr + 1)) && DecExpanded(rk, sk, nr, 4 * (nr + 1))
    ensures var k := RoundKey(KeySchedule(key, 4 * (nr + 1)), nr - r);
            RoundKey(Columns(rk), r) == if 0 < r < nr then InvMixColumns(k) else k
  {
    hide Unpack, InvMixColumn, KeyWord, DecWord;
    DecWordAt(sk, nr, r, 0);
    DecWordAt(sk, nr, r, 1);
    DecWordAt(sk, nr, r, 2);
    DecWordAt(sk, nr, r, 3);
  }

  /** aes_setkey_dec */
  method SetkeyDec(ctx: Context, t: Tables, key: seq<Byte>, keysize: nat) returns (ret: int)
    requires Correct(t) && ctx.rk.Length == BUFFER
    requires RoundsFor(keysize) != 0 ==> 8 * |key| == keysize
    modifies ctx, ctx.rk
    ensures ret == if RoundsFor(keysize) == 0 then INVALID_KEY_LENGTH else 0
    ensures ret == 0 ==> DecKeyed(ctx, key)
    ensures ret != 0 ==> ctx.nr == old(ctx.nr) && ctx.rk[..] == old(ctx.rk[..])
  {
    hide Correct, Expanded, DecExpanded, IsInvSchedule, Columns;
    if RoundsFor(keysize) == 0 {
      return INVALID_KEY_LENGTH;
    }
    ctx.nr := RoundsFor(keysize);
    var cty := new Context();
    ret := SetkeyEnc(cty, t, key, keysize);
    InvertSchedule(t, ctx.rk, cty.rk[..], ctx.nr);
    InvertedKey(ctx.rk[..], cty.rk[..], KeyColumns(key), ctx.nr);
  }

  // ---------- Encryption and decryption ----------

  /** Only the first words of a schedule matter. */
  lemma {:induction false} RoundsOfPrefix(v: seq<Column>, w: seq<Column>, input: State, r: nat)
    requires |v| >= 4 * (r + 1) && |w| >= 4 * (r + 1) && v[..4 * (r + 1)] == w[..4 * (r + 1)]
    ensures Rounds(v, input, r) == Rounds(w, input, r)
  {
    hide AddRoundKey, MixColumns, ShiftRows, SubBytes;
    SameRoundKey(v, w, r);
    if r > 0 {
      assert v[..4 * r] == v[..4 * (r + 1)][..4 * r] == w[..4 * r];
      RoundsOfPrefix(v, w, input, r - 1);
    }
  }

  lemma SameRoundKey(v: seq<Column>, w: seq<Column>, r: nat)
    requires |v| >= 4 * (r + 1) && |w| >= 4 * (r + 1) && v[..4 * (r + 1)] == w[..4 * (r + 1)]
    ensures RoundKey(v, r) == RoundKey(w, r)
  {
    assert forall j :: 4 * r <= j < 4 * r + 4 ==> v[j] == v[..4 * (r + 1)][j] == w[j];
  }

  /** With the schedule of aes_setkey_enc, aes_crypt_ecb encrypts as section 5.1 of FIPS 197 says. */
  lemma EncryptsAsCipher(rk: seq<Word>, nr: nat, key: seq<Column>, input: State)
    requires nr > 0 && |key| > 0 && Expanded(rk, key, 4 * (nr + 1))
    ensures Ecb(rk, nr, AES_ENCRYPT, input) == Cipher(KeySchedule(key, 4 * (nr + 1)), nr, input)
  {
    hide AddRoundKey, ShiftRows, SubBytes, KeyWord, Unpack, Rounds;
    var v, w := Columns(rk), KeySchedule(key, 4 * (nr + 1));
    assert v[..4 * (nr + 1)] == w[..4 * (nr + 1)];
    SameRoundKey(v, w, nr);
    assert v[..4 * nr] == v[..4 * (nr + 1)][..4 * nr] == w[..4 * nr];
    RoundsOfPrefix(v, w, input, nr - 1);
  }

  /** With the schedule of aes_setkey_dec, it decrypts as section 5.3 of FIPS 197 says. */
  lemma DecryptsAsInvCipher(rk: seq<Word>, nr: nat, key: seq<Column>, input: State)
    requires nr > 0 && |key| > 0 && |rk| >= 4 * (nr + 1)
    requires IsInvSchedule(Columns(rk), KeySchedule(key, 4 * (nr + 1)), nr)
    ensures Ecb(rk, nr, AES_DECRYPT, input) == InvCipher(KeySchedule(key, 4 * (nr + 1)), nr, input)
  {
    hide IsInvSchedule;
    EqInvCipherAgrees(Columns(rk), KeySchedule(key, 4 * (nr + 1)), nr, input);
  }

  /** For every key and block: decryption undoes encryption. */
  lemma EcbInverse(erk: seq<Word>, drk: seq<Word>, nr: nat, key: seq<Column>, input: State)
    requires nr > 0 && |key| > 0 && |drk| >= 4 * (nr + 1)
    requires Expanded(erk, key, 4 * (nr + 1)) && IsInvSchedule(Columns(drk), KeySchedule(key, 4 * (nr + 1)), nr)
    ensures Ecb(drk, nr, AES_DECRYPT, Ecb(erk, nr, AES_ENCRYPT, input)) == input
  {
    EncryptsAsCipher(erk, nr, key, input);
    DecryptsAsInvCipher(drk, nr, key, Ecb(erk, nr, AES_ENCRYPT, input));
    hide Ecb, Expanded, IsInvSchedule;
    CipherInverse(KeySchedule(key, 4 * (nr + 1)), nr, input);
  }

  /** Set up two contexts with one key, encrypt a block and decrypt it: the block comes back. */
  method EncryptThenDecrypt(enc: Context, dec: Context, t: Tables, key: seq<Byte>, block: seq<Byte>)
    returns (output: seq<Byte>)
    requires Correct(t) && enc != dec && enc.rk != dec.rk && enc.rk.Length == dec.rk.Length == BUFFER
    requires |key| in {16, 24, 32} && |block| == 16
    modifies enc, enc.rk, dec, dec.rk
    ensures output == block
  {
    hide Correct, Ecb, Expanded, IsInvSchedule, BlockState, StateBytes;
    var ret := SetkeyEnc(enc, t, key, 8 * |key|);
    ret := SetkeyDec(dec, t, key, 8 * |key|);
    var cipherText := CryptEcb(enc, t, AES_ENCRYPT, block);
    output := CryptEcb(dec, t, AES_DECRYPT, cipherText);
    EcbInverse(enc.rk[..], dec.rk[..], enc.nr, KeyColumns(key), BlockState(block));
    StateBytesOfBlock(block);
    StateBytesOfBlock(output);
  }
}

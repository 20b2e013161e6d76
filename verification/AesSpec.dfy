/** The AES cipher and its inverse, byte by byte, as defined in sections 4 and 5 of FIPS 197. */
module AesSpec {
  import opened Gf256

  /** A column of the state, or a word of the key schedule, first byte first. */
  datatype Column = Column(b0: Byte, b1: Byte, b2: Byte, b3: Byte)

  datatype State = State(c0: Column, c1: Column, c2: Column, c3: Column)

  // ---------- The S-box (sections 5.1.1 and 5.3.2) ----------

  /** The multiplicative inverse; {00} is mapped to itself. */
  ghost function Inverse(b: Byte): (x: Byte)
    ensures b != 0 ==> Gmul(b, x) == 1
  {
    if b == 0 then 0 else
      PowInverse(b);
      var x: Byte :| Gmul(b, x) == 1;
      x
  }

  lemma PowInverse(b: Byte)
    requires b != 0
    ensures exists x: Byte :: Gmul(b, x) == 1
  {
    hide Gmul, Pow;
    var i := PowSurjective(b);
    PowAdd(i, 255 - i);
    PowValues();
    assert Gmul(b, Pow(255 - i)) == 1;
  }

  /** Bit i of the result is bit (i + k) mod 8 of b. */
  function Rotate(b: Byte, k: nat): Byte
    requires 0 < k < 8
  {
    (b >> k) | (b << (8 - k))
  }

  /** The affine transformation of section 5.1.1: b_i + b_(i+4) + b_(i+5) + b_(i+6) + b_(i+7) + c_i. */
  function Affine(b: Byte): Byte {
    b ^ Rotate(b, 4) ^ Rotate(b, 5) ^ Rotate(b, 6) ^ Rotate(b, 7) ^ 0x63
  }

  /** Its inverse: b_(i+2) + b_(i+5) + b_(i+7) + d_i. */
  function InvAffine(b: Byte): Byte {
    Rotate(b, 2) ^ Rotate(b, 5) ^ Rotate(b, 7) ^ 0x05
  }

  lemma AffineInverse(b: Byte)
    ensures InvAffine(Affine(b)) == b && Affine(InvAffine(b)) == b
  {
  }

  ghost function SubByte(b: Byte): Byte {
    Affine(Inverse(b))
  }

  ghost function InvSubByte(b: Byte): Byte {
    Inverse(InvAffine(b))
  }

  /** {03}^n is one only for multiples of 255. */
  lemma PowOne(n: nat)
    requires Pow(n) == 1
    ensures n % 255 == 0
  {
    hide Pow, Gmul;
    var q, r := n / 255, n % 255;
    PowValues();
    PowMultiple(255, q);
    PowAdd(255 * q, r);
    GmulOne(Pow(r));
    if r > 0 {
      Primitive(r);
    }
  }

  lemma GmulZero(b: Byte)
    ensures Gmul(0, b) == 0 && Gmul(b, 0) == 0
  {
  }

  lemma GmulCommutes(a: Byte, b: Byte)
    ensures Gmul(a, b) == Gmul(b, a)
  {
    hide Gmul, Pow;
    if a == 0 {
      GmulZero(b);
    } else if b == 0 {
      GmulZero(a);
    } else {
      var i := PowSurjective(a);
      var j := PowSurjective(b);
      PowAdd(i, j);
      PowAdd(j, i);
    }
  }

  lemma InverseIsUnique(b: Byte, x: Byte)
    requires Gmul(b, x) == 1
    ensures b != 0 && x == Inverse(b)
  {
    hide Gmul, Pow, Inverse;
    GmulZero(x);
    GmulZero(b);
    var y := Inverse(b);
    GmulZero(y);
    var i := PowSurjective(b);
    var j := PowSurjective(x);
    var k := PowSurjective(y);
    PowAdd(i, j);
    PowAdd(i, k);
    PowOne(i + j);
    PowOne(i + k);
  }

  lemma InverseInverse(b: Byte)
    ensures Inverse(Inverse(b)) == b
  {
    hide Gmul;
    if b != 0 {
      var x := Inverse(b);
      GmulCommutes(b, x);
      InverseIsUnique(x, b);
    }
  }

  /** The two S-boxes undo each other. */
  lemma SubByteInverse(b: Byte)
    ensures InvSubByte(SubByte(b)) == b && SubByte(InvSubByte(b)) == b
  {
    hide Affine, InvAffine, Inverse;
    AffineInverse(Inverse(b));
    InverseInverse(b);
    AffineInverse(b);
    InverseInverse(InvAffine(b));
  }

  // ---------- The round transformations (sections 5.1.2 to 5.1.4 and 5.3.1 to 5.3.4) ----------

  function AddColumn(a: Column, b: Column): Column {
    Column(Add(a.b0, b.b0), Add(a.b1, b.b1), Add(a.b2, b.b2), Add(a.b3, b.b3))
  }

  function AddRoundKey(s: State, k: State): State {
    State(AddColumn(s.c0, k.c0), AddColumn(s.c1, k.c1), AddColumn(s.c2, k.c2), AddColumn(s.c3, k.c3))
  }

  ghost function SubColumn(c: Column): Column {
    Column(SubByte(c.b0), SubByte(c.b1), SubByte(c.b2), SubByte(c.b3))
  }

  ghost function InvSubColumn(c: Column): Column {
    Column(InvSubByte(c.b0), InvSubByte(c.b1), InvSubByte(c.b2), InvSubByte(c.b3))
  }

  ghost function SubBytes(s: State): State {
    State(SubColumn(s.c0), SubColumn(s.c1), SubColumn(s.c2), SubColumn(s.c3))
  }

  ghost function InvSubBytes(s: State): State {
    State(InvSubColumn(s.c0), InvSubColumn(s.c1), InvSubColumn(s.c2), InvSubColumn(s.c3))
  }

  /** Row r is rotated r places to the left. */
  function ShiftRows(s: State): State {
    State(Column(s.c0.b0, s.c1.b1, s.c2.b2, s.c3.b3), Column(s.c1.b0, s.c2.b1, s.c3.b2, s.c0.b3),
          Column(s.c2.b0, s.c3.b1, s.c0.b2, s.c1.b3), Column(s.c3.b0, s.c0.b1, s.c1.b2, s.c2.b3))
  }

  function InvShiftRows(s: State): State {
    State(Column(s.c0.b0, s.c3.b1, s.c2.b2, s.c1.b3), Column(s.c1.b0, s.c0.b1, s.c3.b2, s.c2.b3),
          Column(s.c2.b0, s.c1.b1, s.c0.b2, s.c3.b3), Column(s.c3.b0, s.c2.b1, s.c1.b2, s.c0.b3))
  }

  /** One row of a matrix times a column. */
  function Dot(m0: Byte, m1: Byte, m2: Byte, m3: Byte, c: Column): Byte {
    Add(Add(Gmul(c.b0, m0), Gmul(c.b1, m1)), Add(Gmul(c.b2, m2), Gmul(c.b3, m3)))
  }

  function MixColumn(c: Column): Column {
    Column(Dot(2, 3, 1, 1, c), Dot(1, 2, 3, 1, c), Dot(1, 1, 2, 3, c), Dot(3, 1, 1, 2, c))
  }

  function InvMixColumn(c: Column): Column {
    Column(Dot(0x0e, 0x0b, 0x0d, 0x09, c), Dot(0x09, 0x0e, 0x0b, 0x0d, c),
           Dot(0x0d, 0x09, 0x0e, 0x0b, c), Dot(0x0b, 0x0d, 0x09, 0x0e, c))
  }

  function MixColumns(s: State): State {
    State(MixColumn(s.c0), MixColumn(s.c1), MixColumn(s.c2), MixColumn(s.c3))
  }

  function InvMixColumns(s: State): State {
    State(InvMixColumn(s.c0), InvMixColumn(s.c1), InvMixColumn(s.c2), InvMixColumn(s.c3))
  }

  // ---------- Inverses and linearity ----------

  lemma SubBytesInverse(s: State)
    ensures InvSubBytes(SubBytes(s)) == s && SubBytes(InvSubBytes(s)) == s
  {
    hide SubByte, InvSubByte;
    SubColumnInverse(s.c0);
    SubColumnInverse(s.c1);
    SubColumnInverse(s.c2);
    SubColumnInverse(s.c3);
  }

  lemma SubColumnInverse(c: Column)
    ensures InvSubColumn(SubColumn(c)) == c && SubColumn(InvSubColumn(c)) == c
  {
    hide SubByte, InvSubByte;
    SubByteInverse(c.b0);
    SubByteInverse(c.b1);
    SubByteInverse(c.b2);
    SubByteInverse(c.b3);
  }

  lemma ShiftRowsInverse(s: State)
    ensures InvShiftRows(ShiftRows(s)) == s && ShiftRows(InvShiftRows(s)) == s
  {
  }

  /** SubBytes works on bytes and ShiftRows moves them, so they commute. */
  lemma SubShiftCommute(s: State)
    ensures InvSubBytes(InvShiftRows(s)) == InvShiftRows(InvSubBytes(s))
  {
  }

  lemma AddTwice(s: State, k: State)
    ensures AddRoundKey(AddRoundKey(s, k), k) == s
  {
  }

  lemma DotLinear(m0: Byte, m1: Byte, m2: Byte, m3: Byte, a: Column, b: Column)
    ensures Dot(m0, m1, m2, m3, AddColumn(a, b)) == Add(Dot(m0, m1, m2, m3, a), Dot(m0, m1, m2, m3, b))
  {
    hide Gmul, Add;
    GmulLinear(a.b0, b.b0, m0);
    GmulLinear(a.b1, b.b1, m1);
    GmulLinear(a.b2, b.b2, m2);
    GmulLinear(a.b3, b.b3, m3);
    AddSwap(Gmul(a.b0, m0), Gmul(b.b0, m0), Gmul(a.b1, m1), Gmul(b.b1, m1));
    AddSwap(Gmul(a.b2, m2), Gmul(b.b2, m2), Gmul(a.b3, m3), Gmul(b.b3, m3));
    AddSwap(Add(Gmul(a.b0, m0), Gmul(a.b1, m1)), Add(Gmul(b.b0, m0), Gmul(b.b1, m1)),
            Add(Gmul(a.b2, m2), Gmul(a.b3, m3)), Add(Gmul(b.b2, m2), Gmul(b.b3, m3)));
  }

  lemma InvMixColumnLinear(a: Column, b: Column)
    ensures InvMixColumn(AddColumn(a, b)) == AddColumn(InvMixColumn(a), InvMixColumn(b))
  {
    hide Dot, Add;
    DotLinear(0x0e, 0x0b, 0x0d, 0x09, a, b);
    DotLinear(0x09, 0x0e, 0x0b, 0x0d, a, b);
    DotLinear(0x0d, 0x09, 0x0e, 0x0b, a, b);
    DotLinear(0x0b, 0x0d, 0x09, 0x0e, a, b);
  }

  /** InvMixColumns distributes over the addition of round keys (section 5.3.5). */
  lemma InvMixColumnsLinear(s: State, k: State)
    ensures InvMixColumns(AddRoundKey(s, k)) == AddRoundKey(InvMixColumns(s), InvMixColumns(k))
  {
    hide InvMixColumn, AddColumn;
    InvMixColumnLinear(s.c0, k.c0);
    InvMixColumnLinear(s.c1, k.c1);
    InvMixColumnLinear(s.c2, k.c2);
    InvMixColumnLinear(s.c3, k.c3);
  }

  // ---------- InvMixColumns undoes MixColumns ----------

  lemma GmulAssociative(a: Byte, b: Byte, c: Byte)
    ensures Gmul(Gmul(a, b), c) == Gmul(a, Gmul(b, c))
  {
    hide Gmul, Pow;
    if a == 0 || b == 0 || c == 0 {
      GmulZero(a);
      GmulZero(b);
      GmulZero(c);
      GmulZero(Gmul(a, b));
      GmulZero(Gmul(b, c));
    } else {
      var i := PowSurjective(a);
      var j := PowSurjective(b);
      var k := PowSurjective(c);
      PowAdd(i, j);
      PowAdd(j, k);
      PowAdd(i + j, k);
      PowAdd(i, j + k);
    }
  }

  function Sum4(a: Byte, b: Byte, c: Byte, d: Byte): Byte {
    Add(Add(a, b), Add(c, d))
  }

  /** Summing by rows or by columns makes no difference. */
  lemma SumTranspose(a0: Byte, a1: Byte, a2: Byte, a3: Byte, b0: Byte, b1: Byte, b2: Byte, b3: Byte,
                     c0: Byte, c1: Byte, c2: Byte, c3: Byte, d0: Byte, d1: Byte, d2: Byte, d3: Byte)
    ensures Sum4(Sum4(a0, a1, a2, a3), Sum4(b0, b1, b2, b3), Sum4(c0, c1, c2, c3), Sum4(d0, d1, d2, d3))
         == Sum4(Sum4(a0, b0, c0, d0), Sum4(a1, b1, c1, d1), Sum4(a2, b2, c2, d2), Sum4(a3, b3, c3, d3))
  {
    hide Add;
    AddSwap(Add(a0, a1), Add(a2, a3), Add(b0, b1), Add(b2, b3));
    AddSwap(a0, a1, b0, b1);
    AddSwap(a2, a3, b2, b3);
    AddSwap(Add(c0, c1), Add(c2, c3), Add(d0, d1), Add(d2, d3));
    AddSwap(c0, c1, d0, d1);
    AddSwap(c2, c3, d2, d3);
    AddSwap(Add(Add(a0, b0), Add(a1, b1)), Add(Add(a2, b2), Add(a3, b3)),
            Add(Add(c0, d0), Add(c1, d1)), Add(Add(c2, d2), Add(c3, d3)));
    AddSwap(Add(a0, b0), Add(a1, b1), Add(c0, d0), Add(c1, d1));
    AddSwap(Add(a2, b2), Add(a3, b3), Add(c2, d2), Add(c3, d3));
  }

  /** A product of sums, with the factor moved inward. */
  lemma ScaleDot(m0: Byte, m1: Byte, m2: Byte, m3: Byte, c: Column, f: Byte)
    ensures Gmul(Dot(m0, m1, m2, m3, c), f) == Dot(Gmul(m0, f), Gmul(m1, f), Gmul(m2, f), Gmul(m3, f), c)
  {
    hide Gmul, Add;
    var p0, p1, p2, p3 := Gmul(c.b0, m0), Gmul(c.b1, m1), Gmul(c.b2, m2), Gmul(c.b3, m3);
    GmulLinear(Add(p0, p1), Add(p2, p3), f);
    GmulLinear(p0, p1, f);
    GmulLinear(p2, p3, f);
    GmulAssociative(c.b0, m0, f);
    GmulAssociative(c.b1, m1, f);
    GmulAssociative(c.b2, m2, f);
    GmulAssociative(c.b3, m3, f);
  }

  lemma FactorOut(b: Byte, m0: Byte, m1: Byte, m2: Byte, m3: Byte)
    ensures Sum4(Gmul(b, m0), Gmul(b, m1), Gmul(b, m2), Gmul(b, m3)) == Gmul(b, Sum4(m0, m1, m2, m3))
  {
    hide Gmul, Add;
    GmulCommutes(b, m0);
    GmulCommutes(b, m1);
    GmulCommutes(b, m2);
    GmulCommutes(b, m3);
    GmulLinear(m0, m1, b);
    GmulLinear(m2, m3, b);
    GmulLinear(Add(m0, m1), Add(m2, m3), b);
    GmulCommutes(b, Sum4(m0, m1, m2, m3));
  }

  /** Adding four dot products with the same column adds their coefficients. */
  lemma SumOfDots(p0: Column, p1: Column, p2: Column, p3: Column, c: Column)
    ensures Sum4(Dot(p0.b0, p0.b1, p0.b2, p0.b3, c), Dot(p1.b0, p1.b1, p1.b2, p1.b3, c),
                 Dot(p2.b0, p2.b1, p2.b2, p2.b3, c), Dot(p3.b0, p3.b1, p3.b2, p3.b3, c))
         == Dot(Sum4(p0.b0, p1.b0, p2.b0, p3.b0), Sum4(p0.b1, p1.b1, p2.b1, p3.b1),
                Sum4(p0.b2, p1.b2, p2.b2, p3.b2), Sum4(p0.b3, p1.b3, p2.b3, p3.b3), c)
  {
    hide Gmul, Add;
    SumTranspose(Gmul(c.b0, p0.b0), Gmul(c.b1, p0.b1), Gmul(c.b2, p0.b2), Gmul(c.b3, p0.b3),
      Gmul(c.b0, p1.b0), Gmul(c.b1, p1.b1), Gmul(c.b2, p1.b2), Gmul(c.b3, p1.b3),
      Gmul(c.b0, p2.b0), Gmul(c.b1, p2.b1), Gmul(c.b2, p2.b2), Gmul(c.b3, p2.b3),
      Gmul(c.b0, p3.b0), Gmul(c.b1, p3.b1), Gmul(c.b2, p3.b2), Gmul(c.b3, p3.b3));
    FactorOut(c.b0, p0.b0, p1.b0, p2.b0, p3.b0);
    FactorOut(c.b1, p0.b1, p1.b1, p2.b1, p3.b1);
    FactorOut(c.b2, p0.b2, p1.b2, p2.b2, p3.b2);
    FactorOut(c.b3, p0.b3, p1.b3, p2.b3, p3.b3);
  }

  /** The coefficients of one row of the product of the two matrices. */
  function ProductRow(i0: Byte, i1: Byte, i2: Byte, i3: Byte): Column {
    Column(Sum4(Gmul(2, i0), Gmul(1, i1), Gmul(1, i2), Gmul(3, i3)),
           Sum4(Gmul(3, i0), Gmul(2, i1), Gmul(1, i2), Gmul(1, i3)),
           Sum4(Gmul(1, i0), Gmul(3, i1), Gmul(2, i2), Gmul(1, i3)),
           Sum4(Gmul(1, i0), Gmul(1, i1), Gmul(3, i2), Gmul(2, i3)))
  }

  lemma DotOfMixed(i0: Byte, i1: Byte, i2: Byte, i3: Byte, c: Column)
    ensures var k := ProductRow(i0, i1, i2, i3);
            Dot(i0, i1, i2, i3, MixColumn(c)) == Dot(k.b0, k.b1, k.b2, k.b3, c)
  {
    ScaleDot(2, 3, 1, 1, c, i0);
    ScaleDot(1, 2, 3, 1, c, i1);
    ScaleDot(1, 1, 2, 3, c, i2);
    ScaleDot(3, 1, 1, 2, c, i3);
    SumOfDots(Column(Gmul(2, i0), Gmul(3, i0), Gmul(1, i0), Gmul(1, i0)),
              Column(Gmul(1, i1), Gmul(2, i1), Gmul(3, i1), Gmul(1, i1)),
              Column(Gmul(1, i2), Gmul(1, i2), Gmul(2, i2), Gmul(3, i2)),
              Column(Gmul(3, i3), Gmul(1, i3), Gmul(1, i3), Gmul(2, i3)), c);
    var m := MixColumn(c);
    hide Gmul, Add;
    assert Dot(i0, i1, i2, i3, m) == Sum4(Gmul(m.b0, i0), Gmul(m.b1, i1), Gmul(m.b2, i2), Gmul(m.b3, i3));
    hide Dot, Sum4;
  }

  lemma Multiples(b: Byte)
    ensures Gmul(1, b) == b && Gmul(2, b) == Xtime(b) && Gmul(3, b) == Mul3(b)
  {
    assert Xtime(1) == 2 && Mul3(1) == 3;
    hide Gmul, Xtime, Mul3;
    GmulOne(b);
    GmulXtime(1, b);
    GmulMul3(1, b);
  }

  /** The product of the two matrices is the identity. */
  lemma MatrixProduct()
    ensures ProductRow(0x0e, 0x0b, 0x0d, 0x09) == Column(1, 0, 0, 0)
    ensures ProductRow(0x09, 0x0e, 0x0b, 0x0d) == Column(0, 1, 0, 0)
    ensures ProductRow(0x0d, 0x09, 0x0e, 0x0b) == Column(0, 0, 1, 0)
    ensures ProductRow(0x0b, 0x0d, 0x09, 0x0e) == Column(0, 0, 0, 1)
  {
    hide Gmul, Xtime, Mul3;
    SmallMultiples();
  }

  lemma SmallMultiples()
    ensures Gmul(1, 0x09) == 0x09 && Gmul(2, 0x09) == 0x12 && Gmul(3, 0x09) == 0x1b
    ensures Gmul(1, 0x0b) == 0x0b && Gmul(2, 0x0b) == 0x16 && Gmul(3, 0x0b) == 0x1d
    ensures Gmul(1, 0x0d) == 0x0d && Gmul(2, 0x0d) == 0x1a && Gmul(3, 0x0d) == 0x17
    ensures Gmul(1, 0x0e) == 0x0e && Gmul(2, 0x0e) == 0x1c && Gmul(3, 0x0e) == 0x12
  {
    hide Gmul;
    Multiples(0x09);
    Multiples(0x0b);
    Multiples(0x0d);
    Multiples(0x0e);
  }

  lemma DotUnit(c: Column)
    ensures Dot(1, 0, 0, 0, c) == c.b0 && Dot(0, 1, 0, 0, c) == c.b1
    ensures Dot(0, 0, 1, 0, c) == c.b2 && Dot(0, 0, 0, 1, c) == c.b3
  {
    hide Gmul;
    GmulZero(c.b0);
    GmulZero(c.b1);
    GmulZero(c.b2);
    GmulZero(c.b3);
    GmulCommutes(c.b0, 1);
    GmulCommutes(c.b1, 1);
    GmulCommutes(c.b2, 1);
    GmulCommutes(c.b3, 1);
    GmulOne(c.b0);
    GmulOne(c.b1);
    GmulOne(c.b2);
    GmulOne(c.b3);
  }

  /** InvMixColumns undoes MixColumns, column by column. */
  lemma MixColumnInverse(c: Column)
    ensures InvMixColumn(MixColumn(c)) == c
  {
    hide Dot, ProductRow, MixColumn;
    MatrixProduct();
    DotUnit(c);
    DotOfMixed(0x0e, 0x0b, 0x0d, 0x09, c);
    DotOfMixed(0x09, 0x0e, 0x0b, 0x0d, c);
    DotOfMixed(0x0d, 0x09, 0x0e, 0x0b, c);
    DotOfMixed(0x0b, 0x0d, 0x09, 0x0e, c);
  }

  lemma MixColumnsInverse(s: State)
    ensures InvMixColumns(MixColumns(s)) == s
  {
    hide MixColumn, InvMixColumn;
    MixColumnInverse(s.c0);
    MixColumnInverse(s.c1);
    MixColumnInverse(s.c2);
    MixColumnInverse(s.c3);
  }

  // ---------- The cipher, its inverse and the key schedule (sections 5.1, 5.2 and 5.3) ----------

  /** The round key of a round. */
  function RoundKey(w: seq<Column>, round: nat): State
    requires |w| >= 4 * (round + 1)
  {
    State(w[4 * round], w[4 * round + 1], w[4 * round + 2], w[4 * round + 3])
  }

  /** The state after round r of the cipher, r < Nr. */
  ghost function Rounds(w: seq<Column>, input: State, r: nat): State
    requires |w| >= 4 * (r + 1)
  {
    if r == 0 then AddRoundKey(input, RoundKey(w, 0))
    else AddRoundKey(MixColumns(ShiftRows(SubBytes(Rounds(w, input, r - 1)))), RoundKey(w, r))
  }

  /** Figure 5. */
  ghost function Cipher(w: seq<Column>, nr: nat, input: State): State
    requires nr > 0 && |w| >= 4 * (nr + 1)
  {
    AddRoundKey(ShiftRows(SubBytes(Rounds(w, input, nr - 1))), RoundKey(w, nr))
  }

  /** The state before the round key of round r is added in the inverse cipher, r < Nr. */
  ghost function InvRounds(w: seq<Column>, nr: nat, input: State, r: nat): State
    requires r < nr && |w| >= 4 * (nr + 1)
    decreases nr - r
  {
    if r == nr - 1 then InvSubBytes(InvShiftRows(AddRoundKey(input, RoundKey(w, nr))))
    else InvSubBytes(InvShiftRows(InvMixColumns(AddRoundKey(InvRounds(w, nr, input, r + 1), RoundKey(w, r + 1)))))
  }

  /** Figure 12. */
  ghost function InvCipher(w: seq<Column>, nr: nat, input: State): State
    requires nr > 0 && |w| >= 4 * (nr + 1)
  {
    AddRoundKey(InvRounds(w, nr, input, 0), RoundKey(w, 0))
  }

  /** Going back, the inverse cipher meets the states of the cipher. */
  lemma {:induction false} InvRoundsMeetRounds(w: seq<Column>, nr: nat, input: State, r: nat)
    requires r < nr && |w| >= 4 * (nr + 1)
    ensures InvRounds(w, nr, Cipher(w, nr, input), r) == Rounds(w, input, r)
    decreases nr - r
  {
    hide SubBytes, InvSubBytes, ShiftRows, InvShiftRows, MixColumns, InvMixColumns, AddRoundKey, RoundKey;
    var s := Rounds(w, input, r);
    SubBytesInverse(s);
    ShiftRowsInverse(SubBytes(s));
    if r == nr - 1 {
      AddTwice(ShiftRows(SubBytes(s)), RoundKey(w, nr));
    } else {
      InvRoundsMeetRounds(w, nr, input, r + 1);
      AddTwice(MixColumns(ShiftRows(SubBytes(s))), RoundKey(w, r + 1));
      MixColumnsInverse(ShiftRows(SubBytes(s)));
    }
  }

  /** The inverse cipher undoes the cipher. */
  lemma CipherInverse(w: seq<Column>, nr: nat, input: State)
    requires nr > 0 && |w| >= 4 * (nr + 1)
    ensures InvCipher(w, nr, Cipher(w, nr, input)) == input
  {
    InvRoundsMeetRounds(w, nr, input, 0);
    AddTwice(input, RoundKey(w, 0));
  }

  /** The state after r rounds of the equivalent inverse cipher (figure 15), with the schedule dw it uses. */
  ghost function EqInvRounds(dw: seq<Column>, input: State, r: nat): State
    requires |dw| >= 4 * (r + 1)
  {
    if r == 0 then AddRoundKey(input, RoundKey(dw, 0))
    else AddRoundKey(InvMixColumns(InvShiftRows(InvSubBytes(EqInvRounds(dw, input, r - 1)))), RoundKey(dw, r))
  }

  ghost function EqInvCipher(dw: seq<Column>, nr: nat, input: State): State
    requires nr > 0 && |dw| >= 4 * (nr + 1)
  {
    AddRoundKey(InvShiftRows(InvSubBytes(EqInvRounds(dw, input, nr - 1))), RoundKey(dw, nr))
  }

  /**
   * dw is the schedule of the equivalent inverse cipher for w: the round keys in reverse order, all but the
   * first and the last transformed by InvMixColumns.
   */
  ghost predicate IsInvSchedule(dw: seq<Column>, w: seq<Column>, nr: nat)
    requires nr > 0 && |w| >= 4 * (nr + 1) && |dw| >= 4 * (nr + 1)
  {
    && RoundKey(dw, 0) == RoundKey(w, nr) && RoundKey(dw, nr) == RoundKey(w, 0)
    && forall r :: 0 < r < nr ==> RoundKey(dw, r) == InvMixColumns(RoundKey(w, nr - r))
  }

  lemma {:induction false} EqInvRoundsAgree(dw: seq<Column>, w: seq<Column>, nr: nat, input: State, r: nat)
    requires r < nr && |w| >= 4 * (nr + 1) && |dw| >= 4 * (nr + 1) && IsInvSchedule(dw, w, nr)
    ensures InvShiftRows(InvSubBytes(EqInvRounds(dw, input, r))) == InvRounds(w, nr, input, nr - 1 - r)
  {
    hide SubBytes, InvSubBytes, ShiftRows, InvShiftRows, MixColumns, InvMixColumns, AddRoundKey, RoundKey;
    SubShiftCommute(EqInvRounds(dw, input, r));
    if r > 0 {
      EqInvRoundsAgree(dw, w, nr, input, r - 1);
      InvMixColumnsLinear(InvRounds(w, nr, input, nr - r), RoundKey(w, nr - r));
    }
  }

  /** The equivalent inverse cipher computes the inverse cipher (section 5.3.5). */
  lemma EqInvCipherAgrees(dw: seq<Column>, w: seq<Column>, nr: nat, input: State)
    requires nr > 0 && |w| >= 4 * (nr + 1) && |dw| >= 4 * (nr + 1) && IsInvSchedule(dw, w, nr)
    ensures EqInvCipher(dw, nr, input) == InvCipher(w, nr, input)
  {
    EqInvRoundsAgree(dw, w, nr, input, nr - 1);
  }

  // ---------- Key expansion (section 5.2) ----------

  function RotWord(c: Column): Column {
    Column(c.b1, c.b2, c.b3, c.b0)
  }

  /** x^n */
  function PowerOfX(n: nat): Byte {
    if n == 0 then 1 else Xtime(PowerOfX(n - 1))
  }

  /** The round constants of figure 11 and appendix A. */
  lemma RoundConstants()
    ensures PowerOfX(0) == 0x01 && PowerOfX(1) == 0x02 && PowerOfX(2) == 0x04 && PowerOfX(3) == 0x08
    ensures PowerOfX(4) == 0x10 && PowerOfX(5) == 0x20 && PowerOfX(6) == 0x40 && PowerOfX(7) == 0x80
    ensures PowerOfX(8) == 0x1b && PowerOfX(9) == 0x36
  {
    assert Xtime(0x01) == 0x02 && Xtime(0x02) == 0x04 && Xtime(0x04) == 0x08 && Xtime(0x08) == 0x10;
    assert Xtime(0x10) == 0x20 && Xtime(0x20) == 0x40 && Xtime(0x40) == 0x80 && Xtime(0x80) == 0x1b;
    assert Xtime(0x1b) == 0x36;
  }

  /** Defined for i > 0 only. */
  function Rcon(i: int): Column {
    Column(if i > 0 then PowerOfX(i - 1) else 0, 0, 0, 0)
  }

  /** Word i of the key schedule (figure 11). */
  ghost function KeyWord(key: seq<Column>, i: nat): Column
    requires |key| > 0
  {
    var nk := |key|;
    if i < nk then key[i]
    else AddColumn(KeyWord(key, i - nk), Temp(key, i, KeyWord(key, i - 1)))
  }

  ghost function Temp(key: seq<Column>, i: nat, previous: Column): Column
    requires 0 < |key| <= i
  {
    var nk := |key|;
    if i % nk == 0 then AddColumn(SubColumn(RotWord(previous)), Rcon(i / nk))
    else if nk > 6 && i % nk == 4 then SubColumn(previous)
    else previous
  }

  /** The first n words of the key schedule. */
  ghost function KeySchedule(key: seq<Column>, n: nat): (w: seq<Column>)
    requires |key| > 0
    ensures |w| == n && forall i :: 0 <= i < n ==> w[i] == KeyWord(key, i)
  {
    seq(n, i requires i >= 0 => KeyWord(key, i))
  }
}

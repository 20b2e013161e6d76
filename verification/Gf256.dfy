/** Arithmetic in GF(2^8) as defined in section 4.2 of FIPS 197. */
module Gf256 {
  type Byte = bv8

  /** Addition (section 4.1). */
  function Add(a: Byte, b: Byte): Byte {
    a ^ b
  }

  /** What the reduction modulo x^8 + x^4 + x^3 + x + 1 adds when b is doubled. */
  function Carry(b: Byte): Byte {
    if b & 0x80 != 0 then 0x1b else 0
  }

  /** Multiplication by x (section 4.2.1). */
  function Xtime(b: Byte): Byte {
    Add(b << 1, Carry(b))
  }

  /** b if the bit is set in mask, else 0. */
  function Term(b: Byte, mask: Byte, bit: Byte): Byte {
    if mask & bit != 0 then b else 0
  }

  function Sum8(a: Byte, b: Byte, c: Byte, d: Byte, e: Byte, f: Byte, g: Byte, h: Byte): Byte {
    Add(Add(Add(a, b), Add(c, d)), Add(Add(e, f), Add(g, h)))
  }

  /** The sum of those of the given multiples that occur in b. */
  function Select(b: Byte, a0: Byte, a1: Byte, a2: Byte, a3: Byte, a4: Byte, a5: Byte, a6: Byte, a7: Byte): Byte {
    Sum8(Term(a0, b, 1), Term(a1, b, 2), Term(a2, b, 4), Term(a3, b, 8),
      Term(a4, b, 16), Term(a5, b, 32), Term(a6, b, 64), Term(a7, b, 128))
  }

  /** The product (section 4.2): the sum of the multiples of a by the powers of x that occur in b. */
  function Gmul(a: Byte, b: Byte): Byte {
    var a1 := Xtime(a);
    var a2 := Xtime(a1);
    var a3 := Xtime(a2);
    var a4 := Xtime(a3);
    var a5 := Xtime(a4);
    var a6 := Xtime(a5);
    Select(b, a, a1, a2, a3, a4, a5, a6, Xtime(a6))
  }

  /** Multiplication by the generator {03}. */
  function Mul3(b: Byte): Byte {
    Add(b, Xtime(b))
  }

  function Pow(i: nat): Byte {
    if i == 0 then 1 else Mul3(Pow(i - 1))
  }

  lemma AddAssociative(a: Byte, b: Byte, c: Byte)
    ensures Add(Add(a, b), c) == Add(a, Add(b, c))
  {
  }

  lemma AddCommutative(a: Byte, b: Byte)
    ensures Add(a, b) == Add(b, a)
  {
  }

  lemma AddSwap(a: Byte, b: Byte, c: Byte, d: Byte)
    ensures Add(Add(a, b), Add(c, d)) == Add(Add(a, c), Add(b, d))
  {
    hide Add;
    AddAssociative(a, b, Add(c, d));
    AddAssociative(b, c, d);
    AddCommutative(b, c);
    AddAssociative(c, b, d);
    AddAssociative(a, c, Add(b, d));
  }

  lemma DoubleLinear(a: Byte, b: Byte)
    ensures Add(a, b) << 1 == Add(a << 1, b << 1)
  {
  }

  lemma CarryLinear(a: Byte, b: Byte)
    ensures Carry(Add(a, b)) == Add(Carry(a), Carry(b))
  {
    assert Add(a, b) & 0x80 == (a & 0x80) ^ (b & 0x80);
  }

  lemma XtimeLinear(a: Byte, b: Byte)
    ensures Xtime(Add(a, b)) == Add(Xtime(a), Xtime(b))
  {
    hide Add, Carry;
    DoubleLinear(a, b);
    CarryLinear(a, b);
    AddSwap(a << 1, b << 1, Carry(a), Carry(b));
  }

  lemma TermLinear(a: Byte, b: Byte, mask: Byte, bit: Byte)
    ensures Term(Add(a, b), mask, bit) == Add(Term(a, mask, bit), Term(b, mask, bit))
  {
  }

  lemma SumLinear(a0: Byte, a1: Byte, a2: Byte, a3: Byte, a4: Byte, a5: Byte, a6: Byte, a7: Byte,
                  b0: Byte, b1: Byte, b2: Byte, b3: Byte, b4: Byte, b5: Byte, b6: Byte, b7: Byte)
    ensures Sum8(Add(a0, b0), Add(a1, b1), Add(a2, b2), Add(a3, b3), Add(a4, b4), Add(a5, b5), Add(a6, b6), Add(a7, b7))
         == Add(Sum8(a0, a1, a2, a3, a4, a5, a6, a7), Sum8(b0, b1, b2, b3, b4, b5, b6, b7))
  {
    hide Add;
    AddSwap(a0, b0, a1, b1);
    AddSwap(a2, b2, a3, b3);
    AddSwap(a4, b4, a5, b5);
    AddSwap(a6, b6, a7, b7);
    AddSwap(Add(a0, a1), Add(b0, b1), Add(a2, a3), Add(b2, b3));
    AddSwap(Add(a4, a5), Add(b4, b5), Add(a6, a7), Add(b6, b7));
    AddSwap(Add(Add(a0, a1), Add(a2, a3)), Add(Add(b0, b1), Add(b2, b3)),
            Add(Add(a4, a5), Add(a6, a7)), Add(Add(b4, b5), Add(b6, b7)));
  }

  lemma SelectLinear(c: Byte, a0: Byte, a1: Byte, a2: Byte, a3: Byte, a4: Byte, a5: Byte, a6: Byte, a7: Byte,
                     b0: Byte, b1: Byte, b2: Byte, b3: Byte, b4: Byte, b5: Byte, b6: Byte, b7: Byte)
    ensures Select(c, Add(a0, b0), Add(a1, b1), Add(a2, b2), Add(a3, b3),
                   Add(a4, b4), Add(a5, b5), Add(a6, b6), Add(a7, b7))
         == Add(Select(c, a0, a1, a2, a3, a4, a5, a6, a7), Select(c, b0, b1, b2, b3, b4, b5, b6, b7))
  {
    hide Term, Sum8, Add;
    TermLinear(a0, b0, c, 1);
    TermLinear(a1, b1, c, 2);
    TermLinear(a2, b2, c, 4);
    TermLinear(a3, b3, c, 8);
    TermLinear(a4, b4, c, 16);
    TermLinear(a5, b5, c, 32);
    TermLinear(a6, b6, c, 64);
    TermLinear(a7, b7, c, 128);
    SumLinear(Term(a0, c, 1), Term(a1, c, 2), Term(a2, c, 4), Term(a3, c, 8),
      Term(a4, c, 16), Term(a5, c, 32), Term(a6, c, 64), Term(a7, c, 128),
      Term(b0, c, 1), Term(b1, c, 2), Term(b2, c, 4), Term(b3, c, 8),
      Term(b4, c, 16), Term(b5, c, 32), Term(b6, c, 64), Term(b7, c, 128));
  }

  /** Multiplication distributes over addition. */
  lemma GmulLinear(a: Byte, b: Byte, c: Byte)
    ensures Gmul(Add(a, b), c) == Add(Gmul(a, c), Gmul(b, c))
  {
    hide Select, Xtime, Add;
    var a1, b1 := Xtime(a), Xtime(b);
    var a2, b2 := Xtime(a1), Xtime(b1);
    var a3, b3 := Xtime(a2), Xtime(b2);
    var a4, b4 := Xtime(a3), Xtime(b3);
    var a5, b5 := Xtime(a4), Xtime(b4);
    var a6, b6 := Xtime(a5), Xtime(b5);
    XtimeLinear(a, b);
    XtimeLinear(a1, b1);
    XtimeLinear(a2, b2);
    XtimeLinear(a3, b3);
    XtimeLinear(a4, b4);
    XtimeLinear(a5, b5);
    XtimeLinear(a6, b6);
    SelectLinear(c, a, a1, a2, a3, a4, a5, a6, Xtime(a6), b, b1, b2, b3, b4, b5, b6, Xtime(b6));
  }

  lemma XtimeTerm(a: Byte, mask: Byte, bit: Byte)
    ensures Xtime(Term(a, mask, bit)) == Term(Xtime(a), mask, bit)
  {
  }

  lemma XtimeSum(a: Byte, b: Byte, c: Byte, d: Byte, e: Byte, f: Byte, g: Byte, h: Byte)
    ensures Xtime(Sum8(a, b, c, d, e, f, g, h)) ==
            Sum8(Xtime(a), Xtime(b), Xtime(c), Xtime(d), Xtime(e), Xtime(f), Xtime(g), Xtime(h))
  {
    hide Xtime, Add;
    XtimeLinear(a, b);
    XtimeLinear(c, d);
    XtimeLinear(e, f);
    XtimeLinear(g, h);
    XtimeLinear(Add(a, b), Add(c, d));
    XtimeLinear(Add(e, f), Add(g, h));
    XtimeLinear(Add(Add(a, b), Add(c, d)), Add(Add(e, f), Add(g, h)));
  }

  /** Multiplication by x commutes with multiplication. */
  lemma GmulXtime(a: Byte, c: Byte)
    ensures Gmul(Xtime(a), c) == Xtime(Gmul(a, c))
  {
    hide Sum8, Term, Xtime;
    var a1 := Xtime(a);
    var a2 := Xtime(a1);
    var a3 := Xtime(a2);
    var a4 := Xtime(a3);
    var a5 := Xtime(a4);
    var a6 := Xtime(a5);
    var a7 := Xtime(a6);
    XtimeTerm(a, c, 1);
    XtimeTerm(a1, c, 2);
    XtimeTerm(a2, c, 4);
    XtimeTerm(a3, c, 8);
    XtimeTerm(a4, c, 16);
    XtimeTerm(a5, c, 32);
    XtimeTerm(a6, c, 64);
    XtimeTerm(a7, c, 128);
    XtimeSum(Term(a, c, 1), Term(a1, c, 2), Term(a2, c, 4), Term(a3, c, 8),
      Term(a4, c, 16), Term(a5, c, 32), Term(a6, c, 64), Term(a7, c, 128));
  }

  lemma GmulMul3(a: Byte, b: Byte)
    ensures Gmul(Mul3(a), b) == Mul3(Gmul(a, b))
  {
    hide Gmul, Xtime, Add;
    GmulLinear(a, Xtime(a), b);
    GmulXtime(a, b);
  }

  lemma SelectBits(b: Byte)
    ensures Select(b, 1, 2, 4, 8, 16, 32, 64, 128) == b
  {
    assert Term(1, b, 1) == b & 1 && Term(2, b, 2) == b & 2 && Term(4, b, 4) == b & 4 && Term(8, b, 8) == b & 8;
    assert Term(16, b, 16) == b & 16 && Term(32, b, 32) == b & 32;
    assert Term(64, b, 64) == b & 64 && Term(128, b, 128) == b & 128;
    hide Term;
  }

  lemma GmulOne(b: Byte)
    ensures Gmul(1, b) == b
  {
    assert Xtime(1) == 2 && Xtime(2) == 4 && Xtime(4) == 8 && Xtime(8) == 16;
    assert Xtime(16) == 32 && Xtime(32) == 64 && Xtime(64) == 128;
    hide Select;
    SelectBits(b);
  }

  lemma {:induction false} PowAdd(i: nat, j: nat)
    ensures Gmul(Pow(i), Pow(j)) == Pow(i + j)
  {
    if i == 0 {
      GmulOne(Pow(j));
    } else {
      PowAdd(i - 1, j);
      GmulMul3(Pow(i - 1), Pow(j));
    }
  }

  /** b times {03}^5 and {03}^17. */
  function Times5(b: Byte): Byte {
    Mul3(Mul3(Mul3(Mul3(Mul3(b)))))
  }

  function Times17(b: Byte): Byte {
    Mul3(Mul3(Times5(Times5(Times5(b)))))
  }

  lemma PowTimes5(i: nat)
    ensures Pow(i + 5) == Times5(Pow(i))
  {
    assert Pow(i + 2) == Mul3(Pow(i + 1)) && Pow(i + 4) == Mul3(Pow(i + 3));
    assert Pow(i + 3) == Mul3(Pow(i + 2));
  }

  lemma PowTimes17(i: nat)
    ensures Pow(i + 17) == Times17(Pow(i))
  {
    assert Pow(i + 17) == Mul3(Pow(i + 16)) && Pow(i + 16) == Mul3(Pow(i + 15));
    hide Times5, Pow;
    PowTimes5(i);
    PowTimes5(i + 5);
    PowTimes5(i + 10);
  }

  lemma Products0()
    ensures Times17(0x01) == 0xe1
    ensures Times17(0xe1) == 0x5c
    ensures Times17(0x5c) == 0x0c
  {
  }

  lemma Products3()
    ensures Times17(0x0c) == 0xe0
    ensures Times17(0xe0) == 0xbd
    ensures Times17(0xbd) == 0x50
  {
  }

  lemma Products6()
    ensures Times17(0x50) == 0xec
    ensures Times17(0xec) == 0x5d
    ensures Times17(0x5d) == 0xed
  {
  }

  lemma Products9()
    ensures Times17(0xed) == 0xbc
    ensures Times17(0xbc) == 0xb1
    ensures Times17(0xb1) == 0xb0
  {
  }

  lemma Products12()
    ensures Times17(0xb0) == 0x51
    ensures Times17(0x51) == 0x0d
    ensures Times17(0x0d) == 0x01
  {
  }

  lemma PowFifteen()
    ensures Pow(0) == 1 && Pow(15) != 1
  {
    assert Times5(Times5(Times5(1))) != 1;
    hide Times5;
    assert Pow(0) == 1;
    PowTimes5(0);
    PowTimes5(5);
    PowTimes5(10);
  }

  lemma PowValues()
    ensures Pow(15) != 1 && Pow(51) != 1 && Pow(85) != 1 && Pow(255) == 1
  {
    hide Pow, Times17;
    PowFifteen();
    Products0();
    Products3();
    Products6();
    Products9();
    Products12();
    PowTimes17(0);
    PowTimes17(17);
    PowTimes17(34);
    PowTimes17(51);
    PowTimes17(68);
    PowTimes17(85);
    PowTimes17(102);
    PowTimes17(119);
    PowTimes17(136);
    PowTimes17(153);
    PowTimes17(170);
    PowTimes17(187);
    PowTimes17(204);
    PowTimes17(221);
    PowTimes17(238);
  }

  lemma {:induction false} PowMultiple(d: nat, q: nat)
    requires Pow(d) == 1
    ensures Pow(d * q) == 1
  {
    if q > 0 {
      PowMultiple(d, q - 1);
      assert d * q == d + d * (q - 1);
      PowAdd(d, d * (q - 1));
      GmulOne(1);
    }
  }

  /** {03} generates all non-zero bytes: none of its smaller powers is one. */
  lemma {:induction false} Primitive(d: nat)
    requires 0 < d < 255 && Pow(d) == 1
    ensures false
    decreases d
  {
    hide Gmul, Pow;
    var q, r := 255 / d, 255 % d;
    PowValues();
    PowMultiple(d, q);
    PowAdd(d * q, r);
    GmulOne(Pow(r));
    if r > 0 {
      Primitive(r);
    } else {
      var p := PrimeFactor(d, q);
      PowMultiple(d, q / p);
    }
  }

  lemma PrimeFactor(d: nat, q: nat) returns (p: nat)
    requires d * q == 255 && d < 255
    ensures p == 3 || p == 5 || p == 17
    ensures d * (q / p) == 255 / p
  {
    assert d == 1 || d == 3 || d == 5 || d == 15 || d == 17 || d == 51 || d == 85;
    p := if q % 3 == 0 then 3 else if q % 5 == 0 then 5 else 17;
  }

  lemma PowPeriod(i: nat)
    ensures Pow(i + 255) == Pow(i)
  {
    hide Pow, Gmul;
    PowValues();
    PowAdd(255, i);
    GmulOne(Pow(i));
  }

  lemma PowInjective(i: nat, j: nat)
    requires i < j < 255
    ensures Pow(i) != Pow(j)
  {
    hide Pow, Gmul;
    PowAdd(i, 255 - i);
    PowAdd(j, 255 - i);
    PowPeriod(j - i);
    PowValues();
    if Pow(i) == Pow(j) {
      Primitive(j - i);
    }
  }

  lemma {:induction false} PowNonZero(i: nat)
    ensures Pow(i) != 0
  {
    if i > 0 {
      PowNonZero(i - 1);
    }
  }

  ghost function Interval(n: nat): (s: set<int>)
    ensures |s| == n && forall k :: k in s <==> 0 <= k < n
  {
    if n == 0 then {} else Interval(n - 1) + {n - 1}
  }

  ghost function Powers(n: nat): set<int> {
    set i | 0 <= i < n :: Pow(i) as int
  }

  lemma {:induction false} PowersSize(n: nat)
    requires n <= 255
    ensures |Powers(n)| == n
  {
    if n > 0 {
      PowersSize(n - 1);
      forall i | 0 <= i < n - 1 ensures Pow(i) as int != Pow(n - 1) as int {
        PowInjective(i, n - 1);
        SameNumber(Pow(i), Pow(n - 1));
      }
      assert Powers(n) == Powers(n - 1) + {Pow(n - 1) as int};
    }
  }

  lemma SameNumber(a: Byte, b: Byte)
    ensures a as int == b as int ==> a == b
  {
  }

  /** Every non-zero byte is a power of {03}. */
  lemma PowSurjective(b: Byte) returns (i: nat)
    requires b != 0
    ensures i < 255 && Pow(i) == b
  {
    hide Pow;
    SameNumber(b, 0);
    PowersAreAll(b as int);
    i :| 0 <= i < 255 && Pow(i) as int == b as int;
    SameNumber(Pow(i), b);
  }

  lemma PowersAreAll(n: int)
    requires 0 < n < 256
    ensures n in Powers(255)
  {
    hide Powers, Interval;
    PowersSize(255);
    PowersRange();
    var p, all := Powers(255), Interval(256);
    if n !in p {
      var more := p + {0, n};
      assert |more| == 257;
      Smaller(more, all);
    }
  }

  lemma PowersRange()
    ensures forall k :: k in Powers(255) ==> 0 < k < 256
  {
    hide Pow;
    forall k | 0 <= k < 255 ensures Pow(k) as int != 0 {
      PowNonZero(k);
      SameNumber(Pow(k), 0);
    }
  }

  lemma Smaller(a: set<int>, b: set<int>)
    requires a <= b
    ensures |a| <= |b|
  {
    assert a + (b - a) == b && a * (b - a) == {};
  }
}

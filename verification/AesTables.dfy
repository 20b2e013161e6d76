/** The tables of aes.c and how aes_gen_tables computes them. */
module AesTables {
  import opened Gf256
  import opened AesSpec

  type Word = bv32

  // ---------- Words and their bytes, least significant byte first ----------

  function Byte0(w: Word): Byte { (w & 0xff) as Byte }
  function Byte1(w: Word): Byte { ((w >> 8) & 0xff) as Byte }
  function Byte2(w: Word): Byte { ((w >> 16) & 0xff) as Byte }
  function Byte3(w: Word): Byte { ((w >> 24) & 0xff) as Byte }

  function Unpack(w: Word): Column {
    Column(Byte0(w), Byte1(w), Byte2(w), Byte3(w))
  }

  function Pack(c: Column): Word {
    (c.b0 as Word) ^ ((c.b1 as Word) << 8) ^ ((c.b2 as Word) << 16) ^ ((c.b3 as Word) << 24)
  }

  lemma UnpackPack(c: Column)
    ensures Unpack(Pack(c)) == c
  {
  }

  function Xor(v: Word, w: Word): Word {
    v ^ w
  }

  lemma UnpackXor(v: Word, w: Word)
    ensures Unpack(Xor(v, w)) == AddColumn(Unpack(v), Unpack(w))
  {
  }

  /** ROTL8 */
  function Rotl8(x: Word): Word {
    (x << 8) | (x >> 24)
  }

  lemma Rotl8Bytes(c: Column)
    ensures Rotl8(Pack(c)) == Pack(Column(c.b3, c.b0, c.b1, c.b2))
  {
  }

  // ---------- The tables ----------

  /** A table entry; the index is a byte. */
  function At<T>(t: seq<T>, b: Byte): T
    requires |t| == 256
  {
    t[b as int]
  }

  lemma AtUpdate<T>(t: seq<T>, i: Byte, x: T, b: Byte)
    requires |t| == 256
    ensures At(t[i as int := x], b) == if b == i then x else At(t, b)
  {
  }

  lemma Successor(b: Byte)
    requires b < 255
    ensures (b + 1) as int == b as int + 1
  {
  }

  lemma {:induction false} SomeByte(i: int) returns (b: Byte)
    requires 0 <= i < 256
    ensures b as int == i
  {
    if i == 0 {
      b := 0;
    } else {
      b := SomeByte(i - 1);
      Successor(b);
      b := b + 1;
    }
  }

  lemma ByteOfInt(i: int)
    requires 0 <= i < 256
    ensures (i as Byte) as int == i
  {
    var b := SomeByte(i);
    assert b as int as Byte == b;
  }

  datatype Tables = Tables(
    fsb: seq<Byte>, ft0: seq<Word>, ft1: seq<Word>, ft2: seq<Word>, ft3: seq<Word>,
    rsb: seq<Byte>, rt0: seq<Word>, rt1: seq<Word>, rt2: seq<Word>, rt3: seq<Word>,
    rcon: seq<Word>)

  /** Every table has an entry for every byte. */
  predicate Sized(t: Tables) {
    && |t.fsb| == |t.ft0| == |t.ft1| == |t.ft2| == |t.ft3| == 256
    && |t.rsb| == |t.rt0| == |t.rt1| == |t.rt2| == |t.rt3| == 256
    && |t.rcon| == 10
  }

  /** The column of multiples of b with the given coefficients. */
  function Multiple(b: Byte, m0: Byte, m1: Byte, m2: Byte, m3: Byte): Column {
    Column(Gmul(b, m0), Gmul(b, m1), Gmul(b, m2), Gmul(b, m3))
  }

  /** The forward tables combine SubBytes with the columns of MixColumns. */
  ghost predicate ForwardOk(t: Tables, b: Byte)
    requires Sized(t)
  {
    && At(t.fsb, b) == SubByte(b)
    && Unpack(At(t.ft0, b)) == Multiple(SubByte(b), 2, 1, 1, 3)
    && Unpack(At(t.ft1, b)) == Multiple(SubByte(b), 3, 2, 1, 1)
    && Unpack(At(t.ft2, b)) == Multiple(SubByte(b), 1, 3, 2, 1)
    && Unpack(At(t.ft3, b)) == Multiple(SubByte(b), 1, 1, 3, 2)
  }

  /** The reverse tables combine InvSubBytes with the columns of InvMixColumns. */
  ghost predicate ReverseOk(t: Tables, b: Byte)
    requires Sized(t)
  {
    && At(t.rsb, b) == InvSubByte(b)
    && Unpack(At(t.rt0, b)) == Multiple(InvSubByte(b), 0x0e, 0x09, 0x0d, 0x0b)
    && Unpack(At(t.rt1, b)) == Multiple(InvSubByte(b), 0x0b, 0x0e, 0x09, 0x0d)
    && Unpack(At(t.rt2, b)) == Multiple(InvSubByte(b), 0x0d, 0x0b, 0x0e, 0x09)
    && Unpack(At(t.rt3, b)) == Multiple(InvSubByte(b), 0x09, 0x0d, 0x0b, 0x0e)
  }

  ghost predicate Correct(t: Tables) {
    && Sized(t)
    && (forall b: Byte :: ForwardOk(t, b))
    && (forall b: Byte :: ReverseOk(t, b))
    && forall i :: 0 <= i < 10 ==> Unpack(t.rcon[i]) == Rcon(i + 1)
  }

  // ---------- pow and log ----------

  /** The table pow: the powers of {03}. */
  ghost predicate PowOk(pow: seq<Byte>) {
    |pow| == 256 && forall i :: 0 <= i < 256 ==> pow[i] == Pow(i)
  }

  /** log inverts pow; only 0 has no logarithm. */
  ghost predicate LogOk(log: seq<nat>) {
    |log| == 256 && forall b: Byte :: b != 0 ==> LogAt(log, b)
  }

  ghost predicate LogAt(log: seq<nat>, b: Byte)
    requires |log| == 256
  {
    At(log, b) <= 255 && Pow(At(log, b)) == b
  }

  /** The entries made so far, for the first n powers. */
  ghost predicate LogsUpTo(log: seq<nat>, n: nat) {
    |log| == 256 && forall k :: 0 <= k < n ==> LogAt(log, Pow(k))
  }

  lemma LogInsert(log: seq<nat>, n: nat)
    requires LogsUpTo(log, n) && n <= 255
    ensures LogsUpTo(log[Pow(n) as int := n], n + 1)
  {
    hide Pow, At;
    var log' := log[Pow(n) as int := n];
    forall k | 0 <= k < n + 1 ensures LogAt(log', Pow(k)) {
      AtUpdate(log, Pow(n), n, Pow(k));
    }
  }

  lemma LogComplete(log: seq<nat>)
    requires LogsUpTo(log, 256)
    ensures LogOk(log)
  {
    hide Pow, At;
    forall b: Byte | b != 0 ensures LogAt(log, b) {
      var i := PowSurjective(b);
    }
  }

  /** One round of the first loop of aes_gen_tables. */
  method GenLog(i: nat, x: Byte, pow: seq<Byte>, log: seq<nat>)
    returns (x': Byte, pow': seq<Byte>, log': seq<nat>)
    requires i < 256 && |pow| == i && x == Pow(i) && LogsUpTo(log, i) && PowsUpTo(pow)
    ensures |pow'| == i + 1 && x' == Pow(i + 1) && LogsUpTo(log', i + 1) && PowsUpTo(pow')
  {
    hide Pow, Add, Xtime, LogAt;
    LogInsert(log, i);
    PowStep(i);
    pow' := pow + [x];
    log' := log[x as int := i];
    x' := Add(x, Xtime(x));
  }

  ghost predicate PowsUpTo(pow: seq<Byte>) {
    forall k :: 0 <= k < |pow| ==> pow[k] == Pow(k)
  }

  /** The first loop of aes_gen_tables. */
  method GenLogs() returns (pow: seq<Byte>, log: seq<nat>)
    ensures PowOk(pow) && LogOk(log)
  {
    pow, log := [], seq(256, _ => 0);
    var x: Byte := 1;
    assert x == Pow(0) && LogsUpTo(log, 0) && PowsUpTo(pow);
    hide Pow, LogOk, LogsUpTo;
    for i := 0 to 256
      invariant |pow| == i && x == Pow(i) && LogsUpTo(log, i) && PowsUpTo(pow)
    {
      x, pow, log := GenLog(i, x, pow, log);
    }
    LogComplete(log);
  }

  lemma PowStep(i: nat)
    ensures Pow(i + 1) == Add(Pow(i), Xtime(Pow(i)))
  {
  }

  /** MUL */
  method Mul(pow: seq<Byte>, log: seq<nat>, x: Byte, y: Byte) returns (r: Byte)
    requires PowOk(pow) && LogOk(log)
    ensures r == Gmul(x, y)
  {
    hide Gmul, Pow, At;
    if x != 0 && y != 0 {
      assert LogAt(log, x) && LogAt(log, y);
      r := pow[(At(log, x) + At(log, y)) % 255];
      PowAdd(At(log, x), At(log, y));
      PowModulo(At(log, x) + At(log, y));
    } else {
      r := 0;
      GmulZero(x);
      GmulZero(y);
    }
  }

  lemma {:induction false} PowModulo(n: nat)
    ensures Pow(n % 255) == Pow(n)
  {
    hide Pow;
    if n >= 255 {
      PowModulo(n - 255);
      PowPeriod(n - 255);
    }
  }

  /** The S-box entry of a non-zero byte: its inverse, then four rotations. */
  method SboxEntry(pow: seq<Byte>, log: seq<nat>, b: Byte) returns (x: Byte)
    requires PowOk(pow) && LogOk(log) && b != 0
    ensures x == SubByte(b)
  {
    hide Gmul, Pow, Affine, At;
    assert LogAt(log, b);
    x := pow[255 - At(log, b)];
    PowAdd(At(log, b), 255 - At(log, b));
    PowValues();
    InverseIsUnique(b, x);
    FourRotations(x);
    var y := x;
    y := (y << 1) | (y >> 7);
    x := x ^ y;
    y := (y << 1) | (y >> 7);
    x := x ^ y;
    y := (y << 1) | (y >> 7);
    x := x ^ y;
    y := (y << 1) | (y >> 7);
    x := x ^ (y ^ 0x63);
  }

  lemma FourRotations(b: Byte)
    ensures var y1 := (b << 1) | (b >> 7);
            var y2 := (y1 << 1) | (y1 >> 7);
            var y3 := (y2 << 1) | (y2 >> 7);
            var y4 := (y3 << 1) | (y3 >> 7);
            b ^ y1 ^ y2 ^ y3 ^ (y4 ^ 0x63) == Affine(b)
  {
  }

  // ---------- S-boxes ----------

  ghost predicate SboxAt(fsb: seq<Byte>, rsb: seq<Byte>, b: Byte)
    requires |fsb| == |rsb| == 256
  {
    At(fsb, b) == SubByte(b) && At(rsb, SubByte(b)) == b
  }

  ghost predicate SboxUpTo(fsb: seq<Byte>, rsb: seq<Byte>, n: nat) {
    |fsb| == |rsb| == 256 && forall b: Byte :: b as int < n ==> SboxAt(fsb, rsb, b)
  }

  lemma SboxInsertAt(fsb: seq<Byte>, rsb: seq<Byte>, i: Byte, b: Byte)
    requires |fsb| == |rsb| == 256 && (b == i || SboxAt(fsb, rsb, b))
    ensures SboxAt(fsb[i as int := SubByte(i)], rsb[SubByte(i) as int := i], b)
  {
    hide At, SubByte, InvSubByte;
    AtUpdate(fsb, i, SubByte(i), b);
    AtUpdate(rsb, SubByte(i), i, SubByte(b));
    SubByteInverse(b);
    SubByteInverse(i);
  }

  lemma SboxInsert(fsb: seq<Byte>, rsb: seq<Byte>, i: nat, x: Byte)
    requires i < 256 && SboxUpTo(fsb, rsb, i) && x == SubByte(i as Byte)
    ensures SboxUpTo(fsb[i := x], rsb[x as int := i as Byte], i + 1)
  {
    hide SboxAt, SubByte;
    ByteOfInt(i);
    var f, r := fsb[i := x], rsb[x as int := i as Byte];
    forall b: Byte | b as int < i + 1 ensures SboxAt(f, r, b) {
      SameNumber(b, i as Byte);
      SboxInsertAt(fsb, rsb, i as Byte, b);
    }
  }

  lemma SboxZero()
    ensures SubByte(0) == 0x63
  {
    assert Inverse(0) == 0;
    hide Inverse;
  }

  lemma SboxComplete(fsb: seq<Byte>, rsb: seq<Byte>, b: Byte)
    requires SboxUpTo(fsb, rsb, 256)
    ensures At(fsb, b) == SubByte(b) && At(rsb, b) == InvSubByte(b)
  {
    hide At, SubByte, InvSubByte;
    SubByteInverse(b);
    assert SboxAt(fsb, rsb, b) && SboxAt(fsb, rsb, InvSubByte(b));
  }

  /** The third loop of aes_gen_tables. */
  method GenSboxes(pow: seq<Byte>, log: seq<nat>) returns (fsb: seq<Byte>, rsb: seq<Byte>)
    requires PowOk(pow) && LogOk(log)
    ensures |fsb| == |rsb| == 256 && SboxUpTo(fsb, rsb, 256)
  {
    hide SubByte, At, PowOk, LogOk, SboxUpTo;
    fsb, rsb := seq(256, _ => 0), seq(256, _ => 0);
    NoSbox(fsb, rsb);
    SboxInsert(fsb, rsb, 0, 0x63) by { SboxZero(); }
    fsb := fsb[0 := 0x63];
    rsb := rsb[0x63 := 0];
    for i := 1 to 256
      invariant |fsb| == |rsb| == 256 && SboxUpTo(fsb, rsb, i)
    {
      ByteOfInt(i);
      SameNumber(i as Byte, 0);
      var x := SboxEntry(pow, log, i as Byte);
      SboxInsert(fsb, rsb, i, x);
      fsb := fsb[i := x];
      rsb := rsb[x as int := i as Byte];
    }
  }

  lemma NoSbox(fsb: seq<Byte>, rsb: seq<Byte>)
    requires |fsb| == |rsb| == 256
    ensures SboxUpTo(fsb, rsb, 0)
  {
  }

  // ---------- Round tables ----------

  lemma MultipleByForward(x: Byte)
    ensures Multiple(x, 2, 1, 1, 3) == Column(Xtime(x), x, x, Add(Xtime(x), x))
  {
    hide Gmul, Xtime, Add;
    GmulCommutes(x, 1);
    GmulCommutes(x, 2);
    GmulCommutes(x, 3);
    Multiples(x);
    AddCommutative(x, Xtime(x));
  }

  /** The entries of FT0 to FT3 for the S-box value x. */
  method ForwardEntry(x: Byte) returns (w0: Word, w1: Word, w2: Word, w3: Word)
    ensures Unpack(w0) == Multiple(x, 2, 1, 1, 3) && Unpack(w1) == Multiple(x, 3, 2, 1, 1)
    ensures Unpack(w2) == Multiple(x, 1, 3, 2, 1) && Unpack(w3) == Multiple(x, 1, 1, 3, 2)
  {
    hide Pack, Unpack, Rotl8, Gmul, Xtime, Add;
    var y := Xtime(x);
    var z := Add(y, x);
    w0 := Pack(Column(y, x, x, z));
    w1 := Rotl8(w0);
    w2 := Rotl8(w1);
    w3 := Rotl8(w2);
    Rotations(Column(y, x, x, z));
    MultipleByForward(x);
  }

  lemma Rotations(c: Column)
    ensures var w0 := Pack(c);
            var w1 := Rotl8(w0);
            var w2 := Rotl8(w1);
            && Unpack(w0) == c && Unpack(w1) == Column(c.b3, c.b0, c.b1, c.b2)
            && Unpack(w2) == Column(c.b2, c.b3, c.b0, c.b1) && Unpack(Rotl8(w2)) == Column(c.b1, c.b2, c.b3, c.b0)
  {
    hide Pack, Unpack, Rotl8;
    var c1 := Column(c.b3, c.b0, c.b1, c.b2);
    var c2 := Column(c.b2, c.b3, c.b0, c.b1);
    Rotl8Bytes(c);
    Rotl8Bytes(c1);
    Rotl8Bytes(c2);
    UnpackPack(c);
    UnpackPack(c1);
    UnpackPack(c2);
    UnpackPack(Column(c.b1, c.b2, c.b3, c.b0));
  }

  /** The entries of RT0 to RT3 for the reverse S-box value x. */
  method ReverseEntry(pow: seq<Byte>, log: seq<nat>, x: Byte) returns (w0: Word, w1: Word, w2: Word, w3: Word)
    requires PowOk(pow) && LogOk(log)
    ensures Unpack(w0) == Multiple(x, 0x0e, 0x09, 0x0d, 0x0b) && Unpack(w1) == Multiple(x, 0x0b, 0x0e, 0x09, 0x0d)
    ensures Unpack(w2) == Multiple(x, 0x0d, 0x0b, 0x0e, 0x09) && Unpack(w3) == Multiple(x, 0x09, 0x0d, 0x0b, 0x0e)
  {
    hide Pack, Unpack, Rotl8, Gmul, PowOk, LogOk;
    var e := Mul(pow, log, 0x0e, x);
    var n := Mul(pow, log, 0x09, x);
    var d := Mul(pow, log, 0x0d, x);
    var b := Mul(pow, log, 0x0b, x);
    w0 := Pack(Column(e, n, d, b));
    w1 := Rotl8(w0);
    w2 := Rotl8(w1);
    w3 := Rotl8(w2);
    Rotations(Column(e, n, d, b));
    GmulCommutes(x, 0x0e);
    GmulCommutes(x, 0x09);
    GmulCommutes(x, 0x0d);
    GmulCommutes(x, 0x0b);
  }

  /** The second loop of aes_gen_tables: the round constants. */
  method GenRcon() returns (rcon: seq<Word>)
    ensures |rcon| == 10 && forall i :: 0 <= i < 10 ==> Unpack(rcon[i]) == Rcon(i + 1)
  {
    rcon := [];
    var x: Byte := 1;
    for i := 0 to 10
      invariant |rcon| == i && x == PowerOfX(i)
      invariant forall k :: 0 <= k < i ==> Unpack(rcon[k]) == Rcon(k + 1)
    {
      hide Unpack, Pack, Xtime;
      SmallWord(x);
      rcon := rcon + [x as Word];
      x := Xtime(x);
    }
  }

  lemma SmallWord(x: Byte)
    ensures Unpack(x as Word) == Column(x, 0, 0, 0)
  {
  }

  /** The entries of all tables for bytes below n. */
  ghost predicate FilledUpTo(t: Tables, n: nat) {
    && Sized(t)
    && (forall b: Byte :: b as int < n ==> ForwardOk(t, b))
    && (forall b: Byte :: b as int < n ==> ReverseOk(t, b))
  }

  function Fill(t: Tables, i: Byte, f0: Word, f1: Word, f2: Word, f3: Word,
                r0: Word, r1: Word, r2: Word, r3: Word): Tables
    requires Sized(t)
  {
    var k := i as int;
    t.(ft0 := t.ft0[k := f0], ft1 := t.ft1[k := f1], ft2 := t.ft2[k := f2], ft3 := t.ft3[k := f3],
       rt0 := t.rt0[k := r0], rt1 := t.rt1[k := r1], rt2 := t.rt2[k := r2], rt3 := t.rt3[k := r3])
  }

  /** Filling in the entries of one byte keeps those of the others. */
  lemma FillKeeps(t: Tables, t': Tables, i: Byte, b: Byte)
    requires Sized(t) && Sized(t') && b != i && t'.fsb == t.fsb && t'.rsb == t.rsb
    requires exists f0, f1, f2, f3, r0, r1, r2, r3 :: t' == Fill(t, i, f0, f1, f2, f3, r0, r1, r2, r3)
    ensures ForwardOk(t, b) ==> ForwardOk(t', b)
    ensures ReverseOk(t, b) ==> ReverseOk(t', b)
  {
    hide At, Multiple, Unpack, SubByte, InvSubByte;
    var f0, f1, f2, f3, r0, r1, r2, r3 :| t' == Fill(t, i, f0, f1, f2, f3, r0, r1, r2, r3);
    AtUpdate(t.ft0, i, f0, b);
    AtUpdate(t.ft1, i, f1, b);
    AtUpdate(t.ft2, i, f2, b);
    AtUpdate(t.ft3, i, f3, b);
    AtUpdate(t.rt0, i, r0, b);
    AtUpdate(t.rt1, i, r1, b);
    AtUpdate(t.rt2, i, r2, b);
    AtUpdate(t.rt3, i, r3, b);
  }

  lemma FillSets(t: Tables, i: Byte, f0: Word, f1: Word, f2: Word, f3: Word, r0: Word, r1: Word, r2: Word, r3: Word)
    requires Sized(t) && At(t.fsb, i) == SubByte(i) && At(t.rsb, i) == InvSubByte(i)
    requires var x := SubByte(i);
             && Unpack(f0) == Multiple(x, 2, 1, 1, 3) && Unpack(f1) == Multiple(x, 3, 2, 1, 1)
             && Unpack(f2) == Multiple(x, 1, 3, 2, 1) && Unpack(f3) == Multiple(x, 1, 1, 3, 2)
    requires var x := InvSubByte(i);
             && Unpack(r0) == Multiple(x, 0x0e, 0x09, 0x0d, 0x0b) && Unpack(r1) == Multiple(x, 0x0b, 0x0e, 0x09, 0x0d)
             && Unpack(r2) == Multiple(x, 0x0d, 0x0b, 0x0e, 0x09) && Unpack(r3) == Multiple(x, 0x09, 0x0d, 0x0b, 0x0e)
    ensures var t' := Fill(t, i, f0, f1, f2, f3, r0, r1, r2, r3);
            && Sized(t') && t'.fsb == t.fsb && t'.rsb == t.rsb && t'.rcon == t.rcon
            && ForwardOk(t', i) && ReverseOk(t', i)
  {
    hide At, Multiple, Unpack, SubByte, InvSubByte;
    AtUpdate(t.ft0, i, f0, i);
    AtUpdate(t.ft1, i, f1, i);
    AtUpdate(t.ft2, i, f2, i);
    AtUpdate(t.ft3, i, f3, i);
    AtUpdate(t.rt0, i, r0, i);
    AtUpdate(t.rt1, i, r1, i);
    AtUpdate(t.rt2, i, r2, i);
    AtUpdate(t.rt3, i, r3, i);
  }

  /** One round of the fourth loop of aes_gen_tables. */
  method GenEntry(pow: seq<Byte>, log: seq<nat>, t: Tables, i: Byte) returns (t': Tables)
    requires PowOk(pow) && LogOk(log) && Sized(t)
    requires At(t.fsb, i) == SubByte(i) && At(t.rsb, i) == InvSubByte(i)
    ensures Sized(t') && t'.fsb == t.fsb && t'.rsb == t.rsb && t'.rcon == t.rcon
    ensures ForwardOk(t', i) && ReverseOk(t', i)
    ensures forall b: Byte :: b != i && ForwardOk(t, b) ==> ForwardOk(t', b)
    ensures forall b: Byte :: b != i && ReverseOk(t, b) ==> ReverseOk(t', b)
  {
    hide PowOk, LogOk, Multiple, Unpack, SubByte, InvSubByte, At, ForwardOk, ReverseOk, Fill;
    var f0, f1, f2, f3 := ForwardEntry(At(t.fsb, i));
    var r0, r1, r2, r3 := ReverseEntry(pow, log, At(t.rsb, i));
    t' := Fill(t, i, f0, f1, f2, f3, r0, r1, r2, r3);
    FillSets(t, i, f0, f1, f2, f3, r0, r1, r2, r3);
    forall b: Byte | b != i
      ensures ForwardOk(t, b) ==> ForwardOk(t', b)
      ensures ReverseOk(t, b) ==> ReverseOk(t', b)
    {
      FillKeeps(t, t', i, b);
    }
  }

  lemma FillStep(t: Tables, t': Tables, i: nat)
    requires i < 256 && FilledUpTo(t, i) && Sized(t')
    requires ForwardOk(t', i as Byte) && ReverseOk(t', i as Byte)
    requires forall b: Byte :: b != i as Byte && ForwardOk(t, b) ==> ForwardOk(t', b)
    requires forall b: Byte :: b != i as Byte && ReverseOk(t, b) ==> ReverseOk(t', b)
    ensures FilledUpTo(t', i + 1)
  {
    hide ForwardOk, ReverseOk;
    ByteOfInt(i);
    forall b: Byte | b as int < i + 1 ensures ForwardOk(t', b) && ReverseOk(t', b) {
      SameNumber(b, i as Byte);
    }
  }

  /** aes_gen_tables: the generated tables are those of FIPS 197. */
  method GenTables() returns (t: Tables)
    ensures Correct(t)
  {
    hide PowOk, LogOk, SboxUpTo, ForwardOk, ReverseOk, Unpack, Rcon, SubByte, InvSubByte, At;
    var pow, log := GenLogs();
    var rcon := GenRcon();
    var fsb, rsb := GenSboxes(pow, log);
    var zero := seq(256, _ => 0 as Word);
    t := Tables(fsb, zero, zero, zero, zero, rsb, zero, zero, zero, zero, rcon);
    for i := 0 to 256
      invariant FilledUpTo(t, i) && t.fsb == fsb && t.rsb == rsb && t.rcon == rcon
    {
      SboxComplete(fsb, rsb, i as Byte);
      var t' := GenEntry(pow, log, t, i as Byte);
      FillStep(t, t', i);
      t := t';
    }
  }
}

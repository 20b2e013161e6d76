/** The streaming interface of md5.c, and the one-shot definition of RFC 1321 it must agree with. */
module Md5 {
  import opened Common
  import opened Md5Block

  const TWO32: nat := 0x1_0000_0000
  const TWO64: nat := 0x1_0000_0000_0000_0000

  // ---------- RFC 1321 ----------

  /** Section 3.3. */
  const INITIAL := Regs(0x67452301, 0xefcdab89, 0x98badcfe, 0x10325476)

  /** The blocks of data, one after the other. */
  function Fold(r: Regs, data: seq<Byte>): Regs
    requires |data| % 64 == 0
    decreases |data|
  {
    if data == [] then r else Fold(Compress(r, data[..64]), data[64..])
  }

  /** Byte i of a number, least significant first. */
  function ByteOf(n: nat, i: nat): Byte {
    if i == 0 then (n % 0x100) as Byte else ByteOf(n / 0x100, i - 1)
  }

  /** The number of bits, modulo 2^64, in eight bytes (section 3.2). */
  function LengthBytes(bits: nat): (b: seq<Byte>)
    ensures |b| == 8
  {
    seq(8, i requires 0 <= i < 8 => ByteOf(bits % TWO64, i))
  }

  function Zeros(n: nat): (z: seq<Byte>)
    ensures |z| == n
  {
    seq(n, _ => 0)
  }

  /** A one bit, zero bits up to 448 modulo 512 (section 3.1), and the length. */
  function Padded(msg: seq<Byte>): (p: seq<Byte>)
    ensures |p| % 64 == 0 && msg <= p
    ensures |msg| + 9 <= |p| < |msg| + 9 + 64
  {
    PadFills(|msg|);
    msg + [0x80] + Zeros((55 - |msg|) % 64) + LengthBytes(8 * |msg|)
  }

  lemma PadFills(n: nat)
    ensures (n + 1 + (55 - n) % 64 + 8) % 64 == 0
  {
    var q := (55 - n) / 64;
    assert n + 1 + (55 - n) % 64 + 8 == 64 * (1 - q);
  }

  /** Byte i of a number is its digit i to the base 256. */
  lemma {:induction false} ByteOfExact(n: nat, i: nat)
    ensures ByteOf(n, i) == (n / Power256(i) % 0x100) as Byte
  {
    if i > 0 {
      ByteOfExact(n / 0x100, i - 1);
      DivTwice(n, Power256(i - 1));
    }
  }

  lemma DivTwice(n: nat, p: nat)
    requires p > 0
    ensures n / 0x100 / p == n / (0x100 * p)
  {
    var q, r := n / 0x100 / p, n / 0x100 % p;
    assert n / 0x100 == q * p + r;
    assert n == q * (0x100 * p) + (n % 0x100 + 0x100 * r);
    Quotient(n, 0x100 * p, q, n % 0x100 + 0x100 * r);
  }

  lemma Quotient(n: nat, d: nat, q: nat, r: nat)
    requires d > 0 && r < d && n == q * d + r
    ensures n / d == q
  {
    var p := n / d;
    assert n == p * d + n % d;
    InOrder(q + 1, p, d);
    InOrder(p + 1, q, d);
  }

  lemma InOrder(a: nat, b: nat, d: nat)
    ensures a <= b ==> a * d <= b * d
  {
    assert a <= b ==> b * d == a * d + (b - a) * d;
  }

  /** Sections 3.1 and 3.2: a one bit, zeros, and the number of bits modulo 2^64, low byte first. */
  lemma PaddedExact(msg: seq<Byte>)
    ensures var p := Padded(msg);
            && p[|msg|] == 0x80 && (forall i :: |msg| < i < |p| - 8 ==> p[i] == 0)
            && forall i :: 0 <= i < 8 ==> p[|p| - 8 + i] == (8 * |msg| % TWO64 / Power256(i) % 0x100) as Byte
  {
    var p, b := Padded(msg), LengthBytes(8 * |msg|);
    hide ByteOf;
    assert forall i :: 0 <= i < 8 ==> p[|p| - 8 + i] == b[i];
    forall i | 0 <= i < 8 ensures b[i] == (8 * |msg| % TWO64 / Power256(i) % 0x100) as Byte {
      ByteOfExact(8 * |msg| % TWO64, i);
    }
    hide Padded, Power256, LengthBytes;
  }

  function RegByte(w: Word, i: nat): Byte
    requires i < 4
  {
    ((w >> (8 * i)) & 0xff) as Byte
  }

  function RegBytes(w: Word): seq<Byte> {
    [RegByte(w, 0), RegByte(w, 1), RegByte(w, 2), RegByte(w, 3)]
  }

  /** Section 3.5. */
  function Output(r: Regs): seq<Byte> {
    RegBytes(r.a) + RegBytes(r.b) + RegBytes(r.c) + RegBytes(r.d)
  }

  function Digest(msg: seq<Byte>): seq<Byte> {
    Output(Fold(INITIAL, Padded(msg)))
  }

  // ---------- Folding in pieces ----------

  lemma {:induction false} FoldAppend(r: Regs, a: seq<Byte>, b: seq<Byte>)
    requires |a| % 64 == 0 && |b| % 64 == 0
    ensures Fold(r, a + b) == Fold(Fold(r, a), b)
    decreases |a|
  {
    hide Compress;
    if a == [] {
      assert a + b == b;
    } else {
      assert (a + b)[..64] == a[..64] && (a + b)[64..] == a[64..] + b;
      FoldAppend(Compress(r, a[..64]), a[64..], b);
    }
  }

  lemma FoldOne(r: Regs, a: seq<Byte>, block: seq<Byte>)
    requires |a| % 64 == 0 && |block| == 64
    ensures Fold(r, a + block) == Compress(Fold(r, a), block)
  {
    hide Compress;
    FoldAppend(r, a, block);
    assert block[..64] == block && block[64..] == [];
  }

  // ---------- The state ----------

  /** The number of whole blocks' bytes in msg. */
  function Whole(msg: seq<Byte>): nat {
    |msg| - |msg| % 64
  }

  /** The registers after the blocks of data. */
  predicate Covers(r: Regs, data: seq<Byte>) {
    |data| % 64 == 0 && r == Fold(INITIAL, data)
  }

  class State {
    var count0: nat   // bits, low word
    var count1: nat   // high word
    var abcd: Regs
    const buf: array<Byte>
    ghost var msg: seq<Byte>   // everything appended so far

    /** The registers hold the whole blocks, the buffer the rest. */
    ghost predicate Holds()
      reads this, buf
    {
      buf.Length == 64 && Covers(abcd, msg[..Whole(msg)]) && buf[..|msg| % 64] == msg[Whole(msg)..]
    }

    /** The counters hold the length. */
    ghost predicate Valid()
      reads this, buf
    {
      Holds() && count0 < TWO32 && count1 < TWO32 && count1 * TWO32 + count0 == 8 * |msg| % TWO64
    }

    /** md5_init */
    constructor ()
      ensures Valid() && msg == [] && fresh(buf)
    {
      count0, count1, abcd, msg := 0, 0, INITIAL, [];
      buf := new Byte[64];
    }

    /** The counters of md5_append: the number of bits is added to the two words, with the carry. */
    method AddLength(nbytes: nat)
      requires count0 < TWO32 && count1 < TWO32 && nbytes < 0x8000_0000
      modifies `count0, `count1
      ensures count0 < TWO32 && count1 < TWO32
      ensures count1 * TWO32 + count0 == (old(count1) * TWO32 + old(count0) + 8 * nbytes) % TWO64
    {
      AddWithCarry(count0, count1, nbytes);
      var nbits := 8 * nbytes % TWO32;
      count1 := (count1 + nbytes / 0x2000_0000) % TWO32;
      count0 := (count0 + nbits) % TWO32;
      if count0 < nbits {
        count1 := (count1 + 1) % TWO32;
      }
    }

    /** memcpy into the buffer */
    method Copy(offset: nat, p: seq<Byte>)
      requires buf.Length == 64 && offset + |p| <= 64
      modifies buf
      ensures buf[..offset + |p|] == old(buf[..offset]) + p
    {
      for i := 0 to |p|
        invariant buf[..offset + i] == old(buf[..offset]) + p[..i]
      {
        buf[offset + i] := p[i];
      }
    }

    /** The part of md5_append that fills up a partial block; at is how much of the data it used. */
    method FillBlock(data: seq<Byte>, offset: nat) returns (at: nat, done: bool)
      requires Holds() && offset == |msg| % 64 && 0 < |data|
      modifies `msg, `abcd, buf
      ensures msg == old(msg) + data
      ensures done ==> Holds()
      ensures !done ==> at <= |data| && Covers(abcd, old(msg) + data[..at])
    {
      hide Fold, Compress;
      ghost var before := msg;
      ghost var rest := msg[Whole(msg)..];
      msg := msg + data;
      at, done := 0, false;
      if offset != 0 {
        at := if offset + |data| > 64 then 64 - offset else |data|;
        Copy(offset, data[..at]);
        assert buf[..offset + at] == rest + data[..at];
        if offset + at < 64 {
          assert data[..at] == data;
          StillShort(before, data);
          done := true;
        } else {
          assert buf[..] == buf[..64];
          FirstBlock(before, data, at);
          abcd := Process(abcd, buf[..]);
        }
      } else {
        assert before[..Whole(before)] == before == before + data[..0];
      }
    }

    /** The loop of md5_append over full blocks. */
    method FullBlocks(ghost before: seq<Byte>, data: seq<Byte>, start: nat) returns (at: nat)
      requires start <= |data| && Covers(abcd, before + data[..start])
      modifies `abcd
      ensures at <= |data| < at + 64 && Covers(abcd, before + data[..at])
    {
      hide Fold, Compress;
      at := start;
      var left := |data| - start;
      while left >= 64
        invariant at + left == |data| && left >= 0 && Covers(abcd, before + data[..at])
      {
        NextBlock(before, data, at);
        abcd := Process(abcd, data[at..at + 64]);
        at := at + 64;
        left := left - 64;
      }
    }

    /** md5_append */
    method Append(data: seq<Byte>)
      requires Valid() && |data| < 0x8000_0000
      modifies this, buf
      ensures Valid() && msg == old(msg) + data
    {
      hide Fold, Compress;
      var offset := count0 / 8 % 64;
      OffsetIsRest(count0, count1, |msg|);
      if |data| == 0 {
        assert msg + data == msg;
        return;
      }
      ghost var before := msg;
      AddLength(|data|);
      CountsAdd(|before|, |data|);
      var at, done := FillBlock(data, offset);
      if done {
        return;
      }
      at := FullBlocks(before, data, at);
      if at < |data| {
        Copy(0, data[at..]);
      }
      LastRest(before, data, at);
    }

    /** md5_finish */
    method Finish() returns (digest: seq<Byte>)
      requires Valid()
      modifies this, buf
      ensures digest == Digest(old(msg))
      ensures Valid() && msg == Padded(old(msg)) && |msg| % 64 == 0
    {
      hide Fold, Output, RegBytes, LengthBytes, Zeros;
      ghost var before := msg;
      var data := SavedLength(count0, count1, |before|);
      PadLength(count0, count1, |before|);
      Append(([0x80] + Zeros(63))[..(55 - count0 / 8) % 64 + 1]);
      Append(data);
      PadPieces(before);
      hide Padded;
      assert msg[..Whole(msg)] == msg;
      digest := Output(abcd);
    }
  }

  /** The loop of md5_finish that saves the length before padding, byte by byte from the two counter words. */
  method SavedLength(count0: nat, count1: nat, ghost n: nat) returns (data: seq<Byte>)
    requires count0 < TWO32 && count1 < TWO32 && count1 * TWO32 + count0 == 8 * n % TWO64
    ensures data == LengthBytes(8 * n)
  {
    data := [];
    for i := 0 to 8
      invariant |data| == i && forall k :: 0 <= k < i ==> data[k] == ByteOf(8 * n % TWO64, k)
    {
      CountByte(count0, count1, i);
      data := data + [ByteOf(if i / 4 == 0 then count0 else count1, i % 4)];
    }
  }

  function Power256(k: nat): (p: nat)
    ensures p > 0
  {
    if k == 0 then 1 else 0x100 * Power256(k - 1)
  }

  /** The low k bytes of a number come from its low part, the others from its high part. */
  lemma {:induction false} BytesOfParts(high: nat, low: nat, k: nat, i: nat)
    requires low < Power256(k)
    ensures ByteOf(high * Power256(k) + low, i) == if i < k then ByteOf(low, i) else ByteOf(high, i - k)
  {
    if k > 0 {
      var x := high * Power256(k - 1);
      assert high * Power256(k) == 0x100 * x;
      assert (0x100 * x + low) / 0x100 == x + low / 0x100;
      assert (0x100 * x + low) % 0x100 == low % 0x100;
      if i > 0 {
        BytesOfParts(high, low / 0x100, k - 1, i - 1);
      }
    }
  }

  lemma CountByte(count0: nat, count1: nat, i: nat)
    requires count0 < TWO32 && count1 < TWO32 && i < 8
    ensures ByteOf(count1 * TWO32 + count0, i) == ByteOf(if i / 4 == 0 then count0 else count1, i % 4)
  {
    hide ByteOf;
    assert Power256(2) == 0x1_0000;
    assert Power256(4) == TWO32;
    BytesOfParts(count1, count0, 4, i);
  }

  // ---------- Lengths ----------

  lemma OffsetIsRest(count0: nat, count1: nat, n: nat)
    requires count0 < TWO32 && count1 < TWO32 && count1 * TWO32 + count0 == 8 * n % TWO64
    ensures count0 / 8 % 64 == n % 64
  {
    EightTimes(n);
    LowCount(count0, count1, 8 * n % TWO64);
  }

  lemma LowCount(count0: nat, count1: nat, m: nat)
    requires count0 < TWO32 && count1 * TWO32 + count0 == m
    ensures m % TWO32 == count0
  {
  }

  lemma EightTimes(n: nat)
    ensures 8 * n % TWO64 % TWO32 / 8 % 64 == n % 64
  {
    LowWord(8 * n);
    LowPart(n);
  }

  lemma LowWord(m: nat)
    ensures m % TWO64 % TWO32 == m % TWO32
  {
    var q := m / TWO64;
    assert m == TWO32 * (TWO32 * q) + m % TWO64;
  }

  lemma LowPart(n: nat)
    ensures 8 * n % TWO32 / 8 % 64 == n % 64
  {
    var q := 8 * n / TWO32;
    assert 8 * n % TWO32 == 8 * (n - 0x2000_0000 * q);
  }

  /** Adding with a carry is adding modulo 2^64. */
  lemma AddWithCarry(count0: nat, count1: nat, nbytes: nat)
    requires count0 < TWO32 && count1 < TWO32 && nbytes < 0x8000_0000
    ensures var low := (count0 + 8 * nbytes % TWO32) % TWO32;
            var high := (count1 + nbytes / 0x2000_0000) % TWO32;
            (if low < 8 * nbytes % TWO32 then (high + 1) % TWO32 else high) * TWO32 + low ==
            (count1 * TWO32 + count0 + 8 * nbytes) % TWO64
  {
    var lo, hi := 8 * nbytes % TWO32, nbytes / 0x2000_0000;
    assert 8 * nbytes == hi * TWO32 + lo;
    var low := (count0 + lo) % TWO32;
    var carry := if low < lo then 1 else 0;
    assert count0 + lo == carry * TWO32 + low;
    var high := (count1 + hi) % TWO32;
    HighWord(count1 + hi + carry, low);
    CarryWord(count1 + hi);
  }

  lemma CarryWord(x: nat)
    ensures (x % TWO32 + 1) % TWO32 == (x + 1) % TWO32
  {
  }

  lemma HighWord(x: nat, low: nat)
    requires low < TWO32
    ensures (x * TWO32 + low) % TWO64 == x % TWO32 * TWO32 + low
  {
    var q, r := x / TWO32, x % TWO32;
    assert x * TWO32 + low == TWO64 * q + (r * TWO32 + low);
  }

  lemma CountsAdd(n: nat, nbytes: nat)
    ensures (8 * n % TWO64 + 8 * nbytes) % TWO64 == 8 * (n + nbytes) % TWO64
  {
  }

  lemma PadLength(count0: nat, count1: nat, n: nat)
    requires count0 < TWO32 && count1 < TWO32 && count1 * TWO32 + count0 == 8 * n % TWO64
    ensures (55 - count0 / 8) % 64 == (55 - n) % 64
  {
    OffsetIsRest(count0, count1, n);
    MinusRest(count0 / 8);
    MinusRest(n);
  }

  lemma PadPieces(msg: seq<Byte>)
    ensures msg + ([0x80] + Zeros(63))[..(55 - |msg|) % 64 + 1] + LengthBytes(8 * |msg|) == Padded(msg)
  {
    assert ([0x80] + Zeros(63))[..(55 - |msg|) % 64 + 1] == [0x80] + Zeros((55 - |msg|) % 64);
  }

  lemma MinusRest(x: nat)
    ensures (55 - x) % 64 == (55 - x % 64) % 64
  {
    assert 55 - x == 64 * (0 - x / 64) + (55 - x % 64);
  }

  // ---------- Blocks ----------

  lemma StillShort(before: seq<Byte>, data: seq<Byte>)
    requires |before| % 64 + |data| < 64
    ensures Whole(before + data) == Whole(before) && (before + data)[..Whole(before)] == before[..Whole(before)]
    ensures (before + data)[Whole(before)..] == before[Whole(before)..] + data
  {
  }

  lemma FirstBlock(before: seq<Byte>, data: seq<Byte>, copy: nat)
    requires |before| % 64 + copy == 64 && copy <= |data|
    ensures (|before| + copy) % 64 == 0
    ensures Fold(INITIAL, before + data[..copy]) ==
            Compress(Fold(INITIAL, before[..Whole(before)]), before[Whole(before)..] + data[..copy])
  {
    hide Fold, Compress;
    var whole, rest := before[..Whole(before)], before[Whole(before)..];
    FoldOne(INITIAL, whole, rest + data[..copy]);
    assert before + data[..copy] == whole + (rest + data[..copy]);
  }

  lemma NextBlock(before: seq<Byte>, data: seq<Byte>, at: nat)
    requires (|before| + at) % 64 == 0 && at + 64 <= |data|
    ensures Fold(INITIAL, before + data[..at + 64]) ==
            Compress(Fold(INITIAL, before + data[..at]), data[at..at + 64])
  {
    hide Fold, Compress;
    FoldOne(INITIAL, before + data[..at], data[at..at + 64]);
    assert before + data[..at + 64] == (before + data[..at]) + data[at..at + 64];
  }

  lemma LastRest(before: seq<Byte>, data: seq<Byte>, at: nat)
    requires (|before| + at) % 64 == 0 && at <= |data| < at + 64
    ensures var msg := before + data;
            && Whole(msg) == |before| + at && |msg| % 64 == |data| - at
            && msg[..Whole(msg)] == before + data[..at] && msg[Whole(msg)..] == data[at..]
  {
  }

  // ---------- GetMD5String ----------

  /** GetMD5String: the digest of the characters before the terminating NUL, in lower-case hexadecimal. */
  method GetMD5String(src: seq<Byte>) returns (des: string)
    requires |src| < 0x8000_0000
    ensures des == Hex(Digest(src)) && |des| == 32
  {
    hide *;
    var ctx := new State();
    ctx.Append(src);
    assert [] + src == src;
    var digest := ctx.Finish();
    DigestLength(src);
    des := PrintHex(digest);
  }

  lemma DigestLength(msg: seq<Byte>)
    ensures |Digest(msg)| == 16
  {
    hide Fold, Padded, RegByte;
  }
}

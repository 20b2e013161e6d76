/**
 * The modes of operation of NIST SP 800-38A over any block cipher with 16-byte blocks. A run over a buffer is a fold,
 * so what is carried from one call to the next makes any division of the data into calls equivalent.
 */
module BlockModes {
  import opened Gf256

  /** A function on blocks of 16 bytes. */
  type BlockFn = f: seq<Byte> -> seq<Byte> | OnBlocks(f) witness Unchanged

  ghost predicate OnBlocks(f: seq<Byte> -> seq<Byte>) {
    forall b: seq<Byte> {:trigger f(b)} :: |b| == 16 ==> |f(b)| == 16
  }

  function Unchanged(b: seq<Byte>): seq<Byte> {
    b
  }

  /** Decryption d undoes encryption e. */
  ghost predicate Inverses(e: BlockFn, d: BlockFn) {
    forall b: seq<Byte> {:trigger e(b)} :: |b| == 16 ==> d(e(b)) == b
  }

  // ---------- Adding bytes ----------

  function XorBytes(a: seq<Byte>, b: seq<Byte>): (c: seq<Byte>)
    requires |a| == |b|
    ensures |c| == |a| && forall i :: 0 <= i < |a| ==> c[i] == Add(a[i], b[i])
  {
    seq(|a|, i requires 0 <= i < |a| => Add(a[i], b[i]))
  }

  lemma AddCancels(a: Byte, b: Byte)
    ensures Add(Add(a, b), b) == a && Add(a, Add(a, b)) == b
  {
  }

  lemma XorBytesTwice(a: seq<Byte>, b: seq<Byte>)
    requires |a| == |b|
    ensures XorBytes(XorBytes(a, b), b) == a
  {
    hide Add;
    forall i | 0 <= i < |a| ensures XorBytes(XorBytes(a, b), b)[i] == a[i] {
      AddCancels(a[i], b[i]);
    }
  }

  // ---------- CBC (section 6.2) ----------

  /** Each cipher block is the encryption of the plain block added to the cipher block before it. */
  ghost function CbcEncrypt(e: BlockFn, iv: seq<Byte>, x: seq<Byte>): (y: seq<Byte>)
    requires |iv| == 16 && |x| % 16 == 0
    ensures |y| == |x|
    decreases |x|
  {
    if x == [] then [] else
      var c := e(XorBytes(x[..16], iv));
      c + CbcEncrypt(e, c, x[16..])
  }

  ghost function CbcDecrypt(d: BlockFn, iv: seq<Byte>, y: seq<Byte>): (x: seq<Byte>)
    requires |iv| == 16 && |y| % 16 == 0
    ensures |x| == |y|
    decreases |y|
  {
    if y == [] then [] else XorBytes(d(y[..16]), iv) + CbcDecrypt(d, y[..16], y[16..])
  }

  /** The vector after a run: the last cipher block. */
  function LastBlock(iv: seq<Byte>, y: seq<Byte>): (r: seq<Byte>)
    requires |iv| == 16 && |y| % 16 == 0
    ensures |r| == 16
  {
    if y == [] then iv else y[|y| - 16..]
  }

  /** CBC decryption undoes CBC encryption, for every number of blocks. */
  lemma {:induction false} CbcInverse(e: BlockFn, d: BlockFn, iv: seq<Byte>, x: seq<Byte>)
    requires Inverses(e, d) && |iv| == 16 && |x| % 16 == 0
    ensures CbcDecrypt(d, iv, CbcEncrypt(e, iv, x)) == x
    decreases |x|
  {
    if x != [] {
      var c := e(XorBytes(x[..16], iv));
      var y := CbcEncrypt(e, iv, x);
      assert y[..16] == c && y[16..] == CbcEncrypt(e, c, x[16..]);
      CbcInverse(e, d, c, x[16..]);
      XorBytesTwice(x[..16], iv);
      assert x == x[..16] + x[16..];
    }
  }

  /** Section 6.2 of NIST SP 800-38A: every block goes in together with the cipher block before it. */
  lemma {:induction false} CbcMeaning(e: BlockFn, iv: seq<Byte>, x: seq<Byte>, at: nat)
    requires |iv| == 16 && |x| % 16 == 0 && at % 16 == 0 && at < |x|
    ensures var y := CbcEncrypt(e, iv, x);
            y[at..at + 16] == e(XorBytes(x[at..at + 16], if at == 0 then iv else y[at - 16..at]))
    decreases |x|
  {
    hide XorBytes;
    var c := e(XorBytes(x[..16], iv));
    var rest := CbcEncrypt(e, c, x[16..]);
    assert CbcEncrypt(e, iv, x) == c + rest;
    if at == 0 {
      assert (c + rest)[0..16] == c && x[0..16] == x[..16];
    } else {
      CbcMeaning(e, c, x[16..], at - 16);
      Later(c, rest, at);
      assert x[at..at + 16] == x[16..][at - 16..at];
    }
  }

  /** What follows the first block, 16 bytes on; and the block before it. */
  lemma Later(c: seq<Byte>, rest: seq<Byte>, at: nat)
    requires |c| == 16 && 16 <= at <= |rest| && at % 16 == 0
    ensures (c + rest)[at..at + 16] == rest[at - 16..at]
    ensures (c + rest)[at - 16..at] == if at == 16 then c else rest[at - 32..at - 16]
  {
  }

  /** And comes out, with the cipher block before it added again. */
  lemma {:induction false} CbcDecryptMeaning(d: BlockFn, iv: seq<Byte>, y: seq<Byte>, at: nat)
    requires |iv| == 16 && |y| % 16 == 0 && at % 16 == 0 && at < |y|
    ensures CbcDecrypt(d, iv, y)[at..at + 16] == XorBytes(d(y[at..at + 16]), if at == 0 then iv else y[at - 16..at])
    decreases |y|
  {
    hide XorBytes;
    var c, rest := XorBytes(d(y[..16]), iv), CbcDecrypt(d, y[..16], y[16..]);
    assert CbcDecrypt(d, iv, y) == c + rest;
    if at == 0 {
      assert (c + rest)[0..16] == c && y[0..16] == y[..16];
    } else {
      CbcDecryptMeaning(d, y[..16], y[16..], at - 16);
      Later(c, rest, at);
      Later(y[..16], y[16..], at);
      assert y == y[..16] + y[16..];
    }
  }

  lemma CbcUnfold(e: BlockFn, iv: seq<Byte>, x: seq<Byte>, rest: seq<Byte>)
    requires |iv| == |x| == 16 && |rest| % 16 == 0
    ensures var c := e(XorBytes(x, iv)); CbcEncrypt(e, iv, x + rest) == c + CbcEncrypt(e, c, rest)
    ensures CbcDecrypt(e, iv, x + rest) == XorBytes(e(x), iv) + CbcDecrypt(e, x, rest)
  {
    hide XorBytes;
    assert (x + rest)[..16] == x && (x + rest)[16..] == rest;
  }

  lemma LastOfAppend(iv: seq<Byte>, c: seq<Byte>, y: seq<Byte>)
    requires |iv| == |c| == 16 && |y| % 16 == 0
    ensures LastBlock(iv, c + y) == LastBlock(c, y)
  {
  }

  /** Two calls that carry the vector do what one call does. */
  lemma {:induction false} CbcChunks(e: BlockFn, iv: seq<Byte>, a: seq<Byte>, b: seq<Byte>)
    requires |iv| == 16 && |a| % 16 == 0 && |b| % 16 == 0
    ensures CbcEncrypt(e, iv, a + b) ==
            CbcEncrypt(e, iv, a) + CbcEncrypt(e, LastBlock(iv, CbcEncrypt(e, iv, a)), b)
    decreases |a|
  {
    hide XorBytes, LastBlock;
    if a == [] {
      assert a + b == b && CbcEncrypt(e, iv, a) == [];
      assert LastBlock(iv, []) == iv by { LastOfNothing(iv); }
    } else {
      hide CbcEncrypt;
      var x, rest := a[..16], a[16..];
      assert a == x + rest;
      Regroup(x, rest, b);
      var c := e(XorBytes(x, iv));
      CbcUnfold(e, iv, x, rest + b);
      CbcUnfold(e, iv, x, rest);
      CbcChunks(e, c, rest, b);
      var y := CbcEncrypt(e, c, rest);
      LastOfAppend(iv, c, y);
      Regroup(c, y, CbcEncrypt(e, LastBlock(c, y), b));
    }
  }

  lemma Regroup(a: seq<Byte>, b: seq<Byte>, c: seq<Byte>)
    ensures (a + b) + c == a + (b + c)
  {
  }

  lemma LastOfNothing(iv: seq<Byte>)
    requires |iv| == 16
    ensures LastBlock(iv, []) == iv
  {
  }

  lemma {:induction false} CbcDecryptChunks(d: BlockFn, iv: seq<Byte>, a: seq<Byte>, b: seq<Byte>)
    requires |iv| == 16 && |a| % 16 == 0 && |b| % 16 == 0
    ensures CbcDecrypt(d, iv, a + b) == CbcDecrypt(d, iv, a) + CbcDecrypt(d, LastBlock(iv, a), b)
    decreases |a|
  {
    hide XorBytes, LastBlock;
    if a == [] {
      assert a + b == b && CbcDecrypt(d, iv, a) == [];
      assert LastBlock(iv, []) == iv by { LastOfNothing(iv); }
    } else {
      hide CbcDecrypt;
      var x, rest := a[..16], a[16..];
      assert a == x + rest && a + b == x + (rest + b);
      CbcUnfold(d, iv, x, rest + b);
      CbcUnfold(d, iv, x, rest);
      CbcDecryptChunks(d, x, rest, b);
      LastOfAppend(iv, x, rest);
    }
  }

  lemma OneBlock(f: BlockFn, iv: seq<Byte>, x: seq<Byte>)
    requires |iv| == 16 && |x| == 16
    ensures CbcEncrypt(f, iv, x) == f(XorBytes(x, iv))
    ensures CbcDecrypt(f, iv, x) == XorBytes(f(x), iv)
  {
    assert x[..16] == x && x[16..] == [];
  }

  // ---------- CFB with 128-bit segments (section 6.3) ----------

  /** What a caller carries between calls: *iv_off and iv. */
  datatype Cfb = Cfb(n: nat, iv: seq<Byte>)

  predicate CfbValid(s: Cfb) {
    s.n < 16 && |s.iv| == 16
  }

  /** A new block is encrypted when the last one is used up. */
  ghost function CfbFilled(e: BlockFn, s: Cfb): (r: seq<Byte>)
    requires CfbValid(s)
    ensures |r| == 16
  {
    if s.n == 0 then e(s.iv) else s.iv
  }

  ghost function CfbOut(e: BlockFn, s: Cfb, x: Byte): Byte
    requires CfbValid(s)
  {
    Add(CfbFilled(e, s)[s.n], x)
  }

  /** The cipher byte, whichever side it is on, goes into the vector. */
  ghost function CfbNext(e: BlockFn, decrypt: bool, s: Cfb, x: Byte): (r: Cfb)
    requires CfbValid(s)
    ensures CfbValid(r)
  {
    Cfb((s.n + 1) % 16, CfbFilled(e, s)[s.n := if decrypt then x else CfbOut(e, s, x)])
  }

  ghost function CfbAfter(e: BlockFn, decrypt: bool, s: Cfb, x: seq<Byte>): (r: Cfb)
    requires CfbValid(s)
    ensures CfbValid(r)
  {
    if x == [] then s else CfbNext(e, decrypt, CfbAfter(e, decrypt, s, x[..|x| - 1]), x[|x| - 1])
  }

  ghost function CfbBytes(e: BlockFn, decrypt: bool, s: Cfb, x: seq<Byte>): (y: seq<Byte>)
    requires CfbValid(s)
    ensures |y| == |x|
  {
    if x == [] then [] else
      CfbBytes(e, decrypt, s, x[..|x| - 1]) + [CfbOut(e, CfbAfter(e, decrypt, s, x[..|x| - 1]), x[|x| - 1])]
  }

  /** One more byte. */
  lemma CfbStep(e: BlockFn, decrypt: bool, s: Cfb, x: seq<Byte>, c: Byte)
    requires CfbValid(s)
    ensures CfbAfter(e, decrypt, s, x + [c]) == CfbNext(e, decrypt, CfbAfter(e, decrypt, s, x), c)
    ensures CfbBytes(e, decrypt, s, x + [c]) == CfbBytes(e, decrypt, s, x) + [CfbOut(e, CfbAfter(e, decrypt, s, x), c)]
  {
    assert (x + [c])[..|x|] == x;
  }

  /** A run over a + b is a run over a and then one over b from the state in between. */
  ghost predicate CfbSplits(e: BlockFn, decrypt: bool, s: Cfb, a: seq<Byte>, b: seq<Byte>)
    requires CfbValid(s)
  {
    var t := CfbAfter(e, decrypt, s, a);
    && CfbAfter(e, decrypt, s, a + b) == CfbAfter(e, decrypt, t, b)
    && CfbBytes(e, decrypt, s, a + b) == CfbBytes(e, decrypt, s, a) + CfbBytes(e, decrypt, t, b)
  }

  lemma SplitsBeforeNothing(e: BlockFn, decrypt: bool, s: Cfb, a: seq<Byte>)
    requires CfbValid(s)
    ensures CfbSplits(e, decrypt, s, a, [])
  {
    assert a + [] == a;
  }

  lemma SplitsOneLater(e: BlockFn, decrypt: bool, s: Cfb, a: seq<Byte>, b: seq<Byte>, c: Byte)
    requires CfbValid(s) && CfbSplits(e, decrypt, s, a, b)
    ensures CfbSplits(e, decrypt, s, a, b + [c])
  {
    hide CfbOut, CfbNext, CfbAfter, CfbBytes, CfbValid;
    var t := CfbAfter(e, decrypt, s, a);
    assert a + (b + [c]) == (a + b) + [c];
    CfbStep(e, decrypt, s, a + b, c);
    CfbStep(e, decrypt, t, b, c);
  }

  lemma {:induction false} CfbSplit(e: BlockFn, decrypt: bool, s: Cfb, a: seq<Byte>, b: seq<Byte>)
    requires CfbValid(s)
    ensures CfbSplits(e, decrypt, s, a, b)
  {
    hide CfbSplits, CfbValid;
    if b == [] {
      SplitsBeforeNothing(e, decrypt, s, a);
    } else {
      var k := |b| - 1;
      CfbSplit(e, decrypt, s, a, b[..k]);
      SplitsOneLater(e, decrypt, s, a, b[..k], b[k]);
      assert b == b[..k] + [b[k]];
    }
  }

  /** Two calls that carry the offset and the vector do what one call does, wherever the data is cut. */
  lemma CfbChunks(e: BlockFn, decrypt: bool, s: Cfb, a: seq<Byte>, b: seq<Byte>)
    requires CfbValid(s)
    ensures CfbAfter(e, decrypt, s, a + b) == CfbAfter(e, decrypt, CfbAfter(e, decrypt, s, a), b)
    ensures CfbBytes(e, decrypt, s, a + b) ==
            CfbBytes(e, decrypt, s, a) + CfbBytes(e, decrypt, CfbAfter(e, decrypt, s, a), b)
  {
    hide CfbAfter, CfbBytes, CfbValid;
    CfbSplit(e, decrypt, s, a, b);
  }

  /** Decryption gives the plain bytes back for every length, and ends in the state encryption ended in. */
  lemma {:induction false} CfbInverse(e: BlockFn, s: Cfb, x: seq<Byte>)
    requires CfbValid(s)
    ensures CfbBytes(e, true, s, CfbBytes(e, false, s, x)) == x
    ensures CfbAfter(e, true, s, CfbBytes(e, false, s, x)) == CfbAfter(e, false, s, x)
  {
    hide Add;
    if x != [] {
      var k := |x| - 1;
      CfbInverse(e, s, x[..k]);
      assert x == x[..k] + [x[k]];
      CfbStep(e, false, s, x[..k], x[k]);
      var before := CfbAfter(e, false, s, x[..k]);
      CfbStep(e, true, s, CfbBytes(e, false, s, x[..k]), CfbOut(e, before, x[k]));
      AddCancels(CfbFilled(e, before)[before.n], x[k]);
    }
  }

  /** The cipher block before the one that starts at start; the vector if there is none. */
  function Previous(iv: seq<Byte>, cipherText: seq<Byte>, start: nat): (r: seq<Byte>)
    requires |iv| == 16 && start % 16 == 0 && start <= |cipherText|
    ensures |r| == 16
  {
    if start == 0 then iv else cipherText[start - 16..start]
  }

  /** Which of the two sides is the cipher text. */
  ghost function CfbCipherText(e: BlockFn, decrypt: bool, s: Cfb, x: seq<Byte>): (c: seq<Byte>)
    requires CfbValid(s)
    ensures |c| == |x|
  {
    if decrypt then x else CfbBytes(e, decrypt, s, x)
  }

  /** The vector holds the cipher bytes of the block in progress, then what is left of the encrypted block. */
  ghost predicate VectorHolds(e: BlockFn, iv: seq<Byte>, c: seq<Byte>, s: Cfb)
    requires |iv| == 16 && CfbValid(s)
  {
    && s.n == |c| % 16
    && s.iv == if s.n == 0 then Previous(iv, c, |c|) else c[|c| - s.n..] + e(Previous(iv, c, |c| - s.n))[s.n..]
  }

  lemma FilledHolds(e: BlockFn, iv: seq<Byte>, c: seq<Byte>, s: Cfb)
    requires |iv| == 16 && CfbValid(s) && VectorHolds(e, iv, c, s)
    ensures s.n == |c| % 16 && CfbFilled(e, s) == c[|c| - s.n..] + e(Previous(iv, c, |c| - s.n))[s.n..]
    ensures CfbFilled(e, s)[s.n] == e(Previous(iv, c, |c| - s.n))[s.n]
  {
    hide Previous;
    if s.n == 0 {
      assert c[|c|..] == [];
    }
  }

  lemma NextRest(k: nat)
    ensures (k % 16 + 1) % 16 == (k + 1) % 16 && (k % 16 < 15 ==> (k + 1) % 16 == k % 16 + 1)
    ensures (k + 1) / 16 == k / 16 + (if k % 16 == 15 then 1 else 0)
    ensures (k + 15) / 16 == k / 16 + (if k % 16 == 0 then 0 else 1)
  {
    var q, r := k / 16, k % 16;
    if r == 15 {
      assert k + 1 == 16 * (q + 1);
    } else {
      assert k + 1 == 16 * q + (r + 1);
    }
    if r > 0 {
      assert k + 15 == 16 * (q + 1) + (r - 1);
    }
  }

  lemma ReplaceByte(v: seq<Byte>, c: seq<Byte>, q: seq<Byte>, n: nat, y: Byte)
    requires |q| == 16 && n < 16 && n <= |c| && v == c[|c| - n..] + q[n..]
    ensures v[n := y] == (c + [y])[|c| - n..] + q[n + 1..]
  {
  }

  lemma VectorStep(e: BlockFn, iv: seq<Byte>, c: seq<Byte>, s: Cfb, y: Byte)
    requires |iv| == 16 && CfbValid(s) && VectorHolds(e, iv, c, s)
    ensures VectorHolds(e, iv, c + [y], Cfb((s.n + 1) % 16, CfbFilled(e, s)[s.n := y]))
  {
    hide CfbFilled, Previous;
    FilledHolds(e, iv, c, s);
    NextRest(|c|);
    var q := Previous(iv, c, |c| - s.n);
    var v := CfbFilled(e, s)[s.n := y];
    ReplaceByte(CfbFilled(e, s), c, e(q), s.n, y);
    SamePrevious(iv, c, [y], |c| - s.n);
    StepHolds(e, iv, c + [y], s.n, v, q);
  }

  /** After n + 1 bytes of a block that follows q. */
  lemma StepHolds(e: BlockFn, iv: seq<Byte>, c: seq<Byte>, n: nat, v: seq<Byte>, q: seq<Byte>)
    requires |iv| == |q| == |v| == 16 && n < 16 && |c| > n && |c| % 16 == (n + 1) % 16 && (|c| - n - 1) % 16 == 0
    requires q == Previous(iv, c, |c| - n - 1) && v == c[|c| - n - 1..] + e(q)[n + 1..]
    ensures VectorHolds(e, iv, c, Cfb((n + 1) % 16, v))
  {
    hide Previous;
    if n == 15 {
      WholeBlock(iv, c, e(q));
    }
  }

  lemma WholeBlock(iv: seq<Byte>, c: seq<Byte>, q: seq<Byte>)
    requires |iv| == |q| == 16 && |c| % 16 == 0 && |c| > 0
    ensures Previous(iv, c, |c|) == c[|c| - 16..] + q[16..]
  {
  }

  lemma SamePrevious(iv: seq<Byte>, c: seq<Byte>, d: seq<Byte>, start: nat)
    requires |iv| == 16 && start % 16 == 0 && start <= |c|
    ensures Previous(iv, c + d, start) == Previous(iv, c, start)
  {
    if start > 0 {
      assert (c + d)[start - 16..start] == c[start - 16..start];
    }
  }

  lemma VectorAtStart(e: BlockFn, iv: seq<Byte>)
    requires |iv| == 16
    ensures VectorHolds(e, iv, [], Cfb(0, iv))
  {
  }

  /** The next state carries the cipher byte, whichever side it came from. */
  lemma NextVector(e: BlockFn, decrypt: bool, s: Cfb, b: Byte)
    requires CfbValid(s)
    ensures var y := if decrypt then b else CfbOut(e, s, b);
            CfbNext(e, decrypt, s, b) == Cfb((s.n + 1) % 16, CfbFilled(e, s)[s.n := y])
  {
  }

  lemma {:induction false} CfbVector(e: BlockFn, decrypt: bool, iv: seq<Byte>, x: seq<Byte>)
    requires |iv| == 16
    ensures VectorHolds(e, iv, CfbCipherText(e, decrypt, Cfb(0, iv), x), CfbAfter(e, decrypt, Cfb(0, iv), x))
  {
    hide Add, CfbOut, CfbFilled, CfbNext, VectorHolds;
    var start := Cfb(0, iv);
    if x == [] {
      VectorAtStart(e, iv);
      assert CfbCipherText(e, decrypt, start, x) == [];
    } else {
      var k := |x| - 1;
      var s := CfbAfter(e, decrypt, start, x[..k]);
      var y := if decrypt then x[k] else CfbOut(e, s, x[k]);
      CfbVector(e, decrypt, iv, x[..k]);
      VectorStep(e, iv, CfbCipherText(e, decrypt, start, x[..k]), s, y);
      assert x == x[..k] + [x[k]];
      CfbStep(e, decrypt, start, x[..k], x[k]);
      assert CfbCipherText(e, decrypt, start, x) == CfbCipherText(e, decrypt, start, x[..k]) + [y];
      NextVector(e, decrypt, s, x[k]);
    }
  }

  /** A run over a prefix is a prefix of the run, and byte i depends on the state after i bytes. */
  lemma CfbByteAt(e: BlockFn, decrypt: bool, s: Cfb, x: seq<Byte>, i: nat)
    requires CfbValid(s) && i < |x|
    ensures CfbBytes(e, decrypt, s, x)[..i] == CfbBytes(e, decrypt, s, x[..i])
    ensures CfbBytes(e, decrypt, s, x)[i] == CfbOut(e, CfbAfter(e, decrypt, s, x[..i]), x[i])
  {
    hide CfbAfter, CfbBytes, CfbOut;
    CfbChunks(e, decrypt, s, x[..i] + [x[i]], x[i + 1..]);
    CfbStep(e, decrypt, s, x[..i], x[i]);
    assert x == (x[..i] + [x[i]]) + x[i + 1..];
  }

  /** Section 6.3: a byte is added to the encryption of the cipher block before its own. */
  lemma CfbMeaning(e: BlockFn, decrypt: bool, iv: seq<Byte>, x: seq<Byte>, i: nat)
    requires |iv| == 16 && i < |x|
    ensures var c := CfbCipherText(e, decrypt, Cfb(0, iv), x);
            CfbBytes(e, decrypt, Cfb(0, iv), x)[i] == Add(e(Previous(iv, c, i - i % 16))[i % 16], x[i])
  {
    hide Add, CfbFilled, CfbAfter, CfbBytes, CfbNext, Previous, VectorHolds;
    var s := Cfb(0, iv);
    var c, d := CfbCipherText(e, decrypt, s, x[..i]), CfbCipherText(e, decrypt, s, x);
    var t := CfbAfter(e, decrypt, s, x[..i]);
    CfbByteAt(e, decrypt, s, x, i);
    assert c == d[..i] && d == c + d[i..];
    CfbVector(e, decrypt, iv, x[..i]);
    FilledHolds(e, iv, c, t);
    SamePrevious(iv, c, d[i..], i - i % 16);
  }

  // ---------- CTR (section 6.5) ----------

  /** A block as a number, most significant byte first. */
  function Number(b: seq<Byte>): (n: nat) {
    if b == [] then 0 else 256 * Number(b[..|b| - 1]) + b[|b| - 1] as nat
  }

  function Power256(n: nat): (p: nat)
    ensures p > 0
  {
    if n == 0 then 1 else 256 * Power256(n - 1)
  }

  /** The last byte counts up, and carries into the bytes before it when it wraps around. */
  function Increment(b: seq<Byte>): (r: seq<Byte>)
    ensures |r| == |b|
  {
    if b == [] then []
    else if b[|b| - 1] + 1 == 0 then Increment(b[..|b| - 1]) + [0]
    else b[..|b| - 1] + [b[|b| - 1] + 1]
  }

  lemma NextByte(b: Byte)
    ensures (b + 1) as nat == if b + 1 == 0 then 0 else b as nat + 1
    ensures b + 1 == 0 ==> b as nat == 255
  {
  }

  lemma {:induction false} NumberBound(b: seq<Byte>)
    ensures Number(b) < Power256(|b|)
  {
    if b != [] {
      NumberBound(b[..|b| - 1]);
    }
  }

  /** The counter goes up by one, and wraps around to zero. */
  lemma {:induction false} IncrementIsPlusOne(b: seq<Byte>)
    ensures Number(Increment(b)) == if Number(b) + 1 == Power256(|b|) then 0 else Number(b) + 1
  {
    NumberBound(b);
    if b != [] {
      var k := |b| - 1;
      var i := Increment(b);
      NextByte(b[k]);
      NumberBound(b[..k]);
      IncrementIsPlusOne(b[..k]);
      assert i[..k] == if b[k] + 1 == 0 then Increment(b[..k]) else b[..k];
    }
  }

  /** n times the byte x. */
  function Fill(x: Byte, n: nat): (b: seq<Byte>)
    ensures |b| == n
  {
    seq(n, _ => x)
  }

  lemma FillMore(x: Byte, n: nat)
    requires n > 0
    ensures Fill(x, n) == Fill(x, n - 1) + [x]
  {
  }

  lemma IncrementLast(b: seq<Byte>, x: Byte)
    ensures Increment(b + [x]) == if x == 0xff then Increment(b) + [0] else b + [x + 1]
  {
    assert (b + [x])[..|b|] == b;
    assert x + 1 == 0 <==> x == 0xff;
  }

  /** The bytes: the last one that is not 0xff is counted up, and those behind it start again; all of them, if none is. */
  lemma {:induction false} IncrementExact(a: seq<Byte>, x: Byte, n: nat)
    requires x != 0xff
    ensures Increment(a + [x] + Fill(0xff, n)) == a + [x + 1] + Fill(0, n)
    ensures Increment(Fill(0xff, n)) == Fill(0, n)
  {
    if n == 0 {
      IncrementLast(a, x);
      assert a + [x] + Fill(0xff, 0) == a + [x] && a + [x + 1] + Fill(0, 0) == a + [x + 1];
    } else {
      IncrementExact(a, x, n - 1);
      FillMore(0xff, n);
      FillMore(0, n);
      IncrementLast(a + [x] + Fill(0xff, n - 1), 0xff);
      IncrementLast(Fill(0xff, n - 1), 0xff);
      hide Increment, Fill;
      Joined(a + [x], Fill(0xff, n - 1), [0xff]);
      Joined(a + [x + 1], Fill(0, n - 1), [0]);
    }
  }

  lemma Joined(a: seq<Byte>, b: seq<Byte>, c: seq<Byte>)
    ensures a + b + c == a + (b + c)
  {
  }

  lemma SameDigits(n: nat, d: nat, m: nat, e: nat)
    requires 256 * n + d == 256 * m + e && d < 256 && e < 256
    ensures n == m && d == e
  {
  }

  lemma ByteRange(b: Byte)
    ensures b as nat < 256
  {
  }

  /** Blocks with the same number are the same. */
  lemma {:induction false} NumberInjective(a: seq<Byte>, b: seq<Byte>)
    requires |a| == |b| && Number(a) == Number(b)
    ensures a == b
  {
    if a != [] {
      var k := |a| - 1;
      ByteRange(a[k]);
      ByteRange(b[k]);
      SameDigits(Number(a[..k]), a[k] as nat, Number(b[..k]), b[k] as nat);
      SameNumber(a[k], b[k]);
      NumberInjective(a[..k], b[..k]);
      assert a == a[..k] + [a[k]] && b == b[..k] + [b[k]];
    }
  }

  /** *nc_off, nonce_counter and stream_block. */
  datatype Ctr = Ctr(n: nat, counter: seq<Byte>, stream: seq<Byte>)

  predicate CtrValid(s: Ctr) {
    s.n < 16 && |s.counter| == |s.stream| == 16
  }

  ghost function CtrFilled(e: BlockFn, s: Ctr): (r: Ctr)
    requires CtrValid(s)
    ensures CtrValid(r) && r.n == s.n
  {
    if s.n == 0 then Ctr(0, Increment(s.counter), e(s.counter)) else s
  }

  /** The state after m bytes; it does not depend on the bytes. */
  ghost function CtrAfter(e: BlockFn, s: Ctr, m: nat): (r: Ctr)
    requires CtrValid(s)
    ensures CtrValid(r)
  {
    if m == 0 then s else
      var f := CtrFilled(e, CtrAfter(e, s, m - 1));
      f.(n := (f.n + 1) % 16)
  }

  /** Byte i of the key stream. */
  ghost function KeyStream(e: BlockFn, s: Ctr, i: nat): Byte
    requires CtrValid(s)
  {
    var f := CtrFilled(e, CtrAfter(e, s, i));
    f.stream[f.n]
  }

  ghost function CtrBytes(e: BlockFn, s: Ctr, x: seq<Byte>): (y: seq<Byte>)
    requires CtrValid(s)
    ensures |y| == |x| && forall i :: 0 <= i < |x| ==> y[i] == Add(x[i], KeyStream(e, s, i))
  {
    seq(|x|, i requires 0 <= i < |x| => Add(x[i], KeyStream(e, s, i)))
  }

  lemma {:induction false} CtrAfterSum(e: BlockFn, s: Ctr, m: nat, p: nat)
    requires CtrValid(s)
    ensures CtrAfter(e, s, m + p) == CtrAfter(e, CtrAfter(e, s, m), p)
  {
    hide CtrFilled;
    if p > 0 {
      CtrAfterSum(e, s, m, p - 1);
    }
  }

  lemma KeyStreamSum(e: BlockFn, s: Ctr, m: nat, i: nat)
    requires CtrValid(s)
    ensures KeyStream(e, s, m + i) == KeyStream(e, CtrAfter(e, s, m), i)
  {
    hide CtrAfter, CtrFilled;
    CtrAfterSum(e, s, m, i);
  }

  lemma CtrByteAt(e: BlockFn, s: Ctr, a: seq<Byte>, b: seq<Byte>, i: nat)
    requires CtrValid(s) && i < |a| + |b|
    ensures CtrBytes(e, s, a + b)[i] ==
            if i < |a| then CtrBytes(e, s, a)[i] else CtrBytes(e, CtrAfter(e, s, |a|), b)[i - |a|]
  {
    hide Add, CtrAfter, KeyStream;
    if i >= |a| {
      KeyStreamSum(e, s, |a|, i - |a|);
    }
  }

  /** Two calls that carry offset, counter and stream block do what one call does. */
  lemma CtrChunks(e: BlockFn, s: Ctr, a: seq<Byte>, b: seq<Byte>)
    requires CtrValid(s)
    ensures CtrAfter(e, s, |a| + |b|) == CtrAfter(e, CtrAfter(e, s, |a|), |b|)
    ensures CtrBytes(e, s, a + b) == CtrBytes(e, s, a) + CtrBytes(e, CtrAfter(e, s, |a|), b)
  {
    hide *;
    CtrAfterSum(e, s, |a|, |b|);
    var y := CtrBytes(e, s, a + b);
    var z := CtrBytes(e, s, a) + CtrBytes(e, CtrAfter(e, s, |a|), b);
    forall i | 0 <= i < |y| ensures y[i] == z[i] {
      CtrByteAt(e, s, a, b, i);
    }
  }

  /** The same call decrypts. */
  lemma CtrInverse(e: BlockFn, s: Ctr, x: seq<Byte>)
    requires CtrValid(s)
    ensures CtrBytes(e, s, CtrBytes(e, s, x)) == x
  {
    hide Add, KeyStream;
    forall i | 0 <= i < |x| ensures CtrBytes(e, s, CtrBytes(e, s, x))[i] == x[i] {
      AddCancels(x[i], KeyStream(e, s, i));
    }
  }

  /** The counter j blocks on. */
  function CounterPlus(c: seq<Byte>, j: nat): (r: seq<Byte>)
    ensures |r| == |c|
  {
    if j == 0 then c else Increment(CounterPlus(c, j - 1))
  }

  /**
   * Section 6.5 with the standard incrementing function of appendix B.1 over the whole block: j increments add j to
   * the number of the counter, modulo 256 to the number of its bytes.
   */
  lemma {:induction false} CounterValue(c: seq<Byte>, j: nat) returns (wraps: nat)
    ensures Number(c) + j == wraps * Power256(|c|) + Number(CounterPlus(c, j))
    ensures Number(CounterPlus(c, j)) < Power256(|c|)
  {
    hide Number, Power256, Increment;
    NumberBound(CounterPlus(c, j));
    wraps := 0;
    if j > 0 {
      wraps := CounterValue(c, j - 1);
      IncrementIsPlusOne(CounterPlus(c, j - 1));
      if Number(CounterPlus(c, j)) == 0 {
        assert (wraps + 1) * Power256(|c|) == wraps * Power256(|c|) + Power256(|c|);
        wraps := wraps + 1;
      }
    }
  }

  /** From the start of a block, m bytes start (m + 15) / 16 blocks, and the counter has moved on as far. */
  lemma {:induction false} CtrProgress(e: BlockFn, s: Ctr, m: nat)
    requires CtrValid(s) && s.n == 0
    ensures var r := CtrAfter(e, s, m);
            && r.n == m % 16 && r.counter == CounterPlus(s.counter, (m + 15) / 16)
            && (m % 16 != 0 ==> r.stream == e(CounterPlus(s.counter, m / 16)))
  {
    hide Increment;
    if m > 0 {
      CtrProgress(e, s, m - 1);
      NextRest(m - 1);
      NextRest(m);
    }
  }

  /** Byte i of the key stream is in the encryption of the counter i / 16 blocks on. */
  lemma CtrMeaning(e: BlockFn, s: Ctr, i: nat)
    requires CtrValid(s) && s.n == 0
    ensures KeyStream(e, s, i) == e(CounterPlus(s.counter, i / 16))[i % 16]
  {
    hide CounterPlus, Increment;
    CtrProgress(e, s, i);
  }
}

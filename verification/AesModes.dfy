/** aes_crypt_cbc, aes_crypt_cfb128 and aes_crypt_ctr: the modes of operation over the block cipher of aes.c. */
module AesModes {
  import opened Gf256
  import opened AesSpec
  import opened AesTables
  import opened Aes
  import opened BlockModes

  const INVALID_INPUT_LENGTH: int := -0x0022

  // ---------- The block cipher under a key ----------

  /** The context is one that a key schedule made. */
  ghost predicate Usable(ctx: Context)
    reads ctx, ctx.rk
  {
    ctx.nr >= 2 && ctx.nr % 2 == 0 && ctx.rk.Length >= 4 * (ctx.nr + 1)
  }

  /** aes_crypt_ecb on the bytes of one block, as a function of the round keys. */
  ghost function BlockBytes(rk: seq<Word>, nr: nat, mode: Mode, b: seq<Byte>): (r: seq<Byte>)
    ensures |b| == 16 ==> |r| == 16
  {
    if |b| == 16 && nr >= 2 && |rk| >= 4 * (nr + 1) then StateBytes(Ecb(rk, nr, mode, BlockState(b))) else b
  }

  ghost function BlockCipher(rk: seq<Word>, nr: nat, mode: Mode): BlockFn {
    b => BlockBytes(rk, nr, mode, b)
  }

  ghost function FnOf(ctx: Context, mode: Mode): BlockFn
    reads ctx, ctx.rk
  {
    BlockCipher(ctx.rk[..], ctx.nr, mode)
  }

  lemma BlockStateOfBytes(s: State)
    ensures BlockState(StateBytes(s)) == s
  {
  }

  /** The two key schedules of one key make a pair of inverses, so every mode built on them can be undone. */
  lemma KeyedInverses(erk: seq<Word>, drk: seq<Word>, nr: nat, key: seq<Column>)
    requires nr >= 2 && |key| > 0 && |drk| >= 4 * (nr + 1)
    requires Expanded(erk, key, 4 * (nr + 1)) && IsInvSchedule(Columns(drk), KeySchedule(key, 4 * (nr + 1)), nr)
    ensures Inverses(BlockCipher(erk, nr, AES_ENCRYPT), BlockCipher(drk, nr, AES_DECRYPT))
  {
    hide BlockState, StateBytes, Ecb, Unpack, KeyWord, IsInvSchedule;
    var e, d := BlockCipher(erk, nr, AES_ENCRYPT), BlockCipher(drk, nr, AES_DECRYPT);
    forall b: seq<Byte> | |b| == 16 ensures d(e(b)) == b {
      EcbInverse(erk, drk, nr, key, BlockState(b));
      BlockStateOfBytes(Ecb(erk, nr, AES_ENCRYPT, BlockState(b)));
      StateBytesOfBlock(b);
    }
  }

  /** A call of aes_crypt_ecb. */
  method CryptBlock(ctx: Context, t: Tables, mode: Mode, input: seq<Byte>) returns (output: seq<Byte>)
    requires Correct(t) && |input| == 16 && Usable(ctx)
    ensures |output| == 16 && output == FnOf(ctx, mode)(input)
  {
    hide BlockState, StateBytes, Ecb, Correct;
    output := CryptEcb(ctx, t, mode, input);
    StateBytesOfBlock(output);
  }

  // ---------- CBC ----------

  /** Copy a block into a buffer. */
  method Put(output: array<Byte>, at: nat, block: seq<Byte>)
    requires |block| == 16 && at + 16 <= output.Length
    modifies output
    ensures output[..] == old(output[..at]) + block + old(output[at + 16..])
  {
    for i := 0 to 16
      invariant output[..] == old(output[..at]) + block[..i] + old(output[at + i..])
    {
      output[at + i] := block[i];
    }
  }

  /** The buffers when the data x up to at is done: what is left to read, and the bytes y written. */
  predicate InPlace(input: seq<Byte>, output: seq<Byte>, x: seq<Byte>, y: seq<Byte>) {
    |input| == |output| == |x| && |y| <= |x| && input[|y|..] == x[|y|..] && output[..|y|] == y
  }

  /** Writing a block over what has been read leaves the rest to read, even when the buffers are the same. */
  lemma PutInPlace(input: seq<Byte>, output: seq<Byte>, newInput: seq<Byte>, newOutput: seq<Byte>,
                   x: seq<Byte>, y: seq<Byte>, block: seq<Byte>)
    requires InPlace(input, output, x, y) && |y| + |block| <= |x|
    requires newOutput == output[..|y|] + block + output[|y| + |block|..]
    requires newInput == input || (input == output && newInput == newOutput)
    ensures InPlace(newInput, newOutput, x, y + block)
  {
    assert input[|y| + |block|..] == input[|y|..][|block|..] == x[|y| + |block|..];
  }

  lemma StartInPlace(x: seq<Byte>, output: seq<Byte>)
    requires |x| == |output|
    ensures InPlace(x, output, x, [])
  {
  }

  lemma ReadInPlace(input: seq<Byte>, output: seq<Byte>, x: seq<Byte>, y: seq<Byte>)
    requires InPlace(input, output, x, y) && |y| + 16 <= |x|
    ensures input[|y|..|y| + 16] == x[|y|..|y| + 16]
  {
    assert input[|y|..|y| + 16] == input[|y|..][..16];
  }

  lemma DoneInPlace(input: seq<Byte>, output: seq<Byte>, x: seq<Byte>, y: seq<Byte>)
    requires InPlace(input, output, x, y) && |y| == |x|
    ensures output == y
  {
  }

  /** One block more. */
  lemma CbcDecryptStep(d: BlockFn, iv: seq<Byte>, x: seq<Byte>, at: nat)
    requires |iv| == 16 && at % 16 == 0 && at + 16 <= |x|
    ensures var temp := x[at..at + 16];
            && CbcDecrypt(d, iv, x[..at + 16]) == CbcDecrypt(d, iv, x[..at]) + XorBytes(d(temp), LastBlock(iv, x[..at]))
            && LastBlock(iv, x[..at + 16]) == temp
  {
    hide XorBytes, Add, CbcDecrypt;
    CbcDecryptChunks(d, iv, x[..at], x[at..at + 16]);
    OneBlock(d, LastBlock(iv, x[..at]), x[at..at + 16]);
    assert x[..at + 16] == x[..at] + x[at..at + 16];
  }

  lemma LastOf(iv: seq<Byte>, y: seq<Byte>, c: seq<Byte>)
    requires |iv| == |c| == 16 && |y| % 16 == 0
    ensures LastBlock(iv, y + c) == c
  {
  }

  lemma CbcEncryptMore(e: BlockFn, iv: seq<Byte>, a: seq<Byte>, b: seq<Byte>)
    requires |iv| == 16 && |a| % 16 == 0 && |b| == 16
    ensures var y := CbcEncrypt(e, iv, a); var c := e(XorBytes(b, LastBlock(iv, y)));
            CbcEncrypt(e, iv, a + b) == y + c && LastBlock(iv, y + c) == c
  {
    hide XorBytes, Add, CbcEncrypt, LastBlock;
    var y := CbcEncrypt(e, iv, a);
    CbcChunks(e, iv, a, b);
    OneBlock(e, LastBlock(iv, y), b);
    LastOf(iv, y, e(XorBytes(b, LastBlock(iv, y))));
  }

  lemma CbcEncryptStep(e: BlockFn, iv: seq<Byte>, x: seq<Byte>, at: nat)
    requires |iv| == 16 && at % 16 == 0 && at + 16 <= |x|
    ensures var y := CbcEncrypt(e, iv, x[..at]); var c := e(XorBytes(x[at..at + 16], LastBlock(iv, y)));
            CbcEncrypt(e, iv, x[..at + 16]) == y + c && LastBlock(iv, y + c) == c
  {
    hide *;
    CbcEncryptMore(e, iv, x[..at], x[at..at + 16]);
    assert x[..at + 16] == x[..at] + x[at..at + 16];
  }

  /** The loop of aes_crypt_cbc that decrypts. */
  method DecryptCbc(ctx: Context, t: Tables, iv: array<Byte>, input: array<Byte>, output: array<Byte>)
    requires Correct(t) && Usable(ctx) && iv.Length == 16 && input.Length == output.Length && input.Length % 16 == 0
    requires iv != input && iv != output
    modifies iv, output
    ensures output[..] == CbcDecrypt(FnOf(ctx, AES_DECRYPT), old(iv[..]), old(input[..]))
    ensures iv[..] == LastBlock(old(iv[..]), old(input[..]))
  {
    hide Correct, FnOf, InPlace, LastBlock, CbcDecrypt, XorBytes;
    ghost var d, x, iv0 := FnOf(ctx, AES_DECRYPT), input[..], iv[..];
    ghost var y := [];
    var at := 0;
    StartInPlace(x, output[..]);
    StartCbc(d, iv0);
    while at < input.Length
      invariant at == |y| <= input.Length && at % 16 == 0 && FnOf(ctx, AES_DECRYPT) == d && Usable(ctx)
      invariant InPlace(input[..], output[..], x, y)
      invariant iv[..] == LastBlock(iv0, x[..at]) && y == CbcDecrypt(d, iv0, x[..at])
      decreases input.Length - at
    {
      ReadInPlace(input[..], output[..], x, y);
      CbcDecryptStep(d, iv0, x, at);
      var temp := input[..][at..at + 16];
      var plain := CryptBlock(ctx, t, AES_DECRYPT, temp);
      plain := XorBytes(plain, iv[..]);
      ghost var input0, output0 := input[..], output[..];
      Put(output, at, plain);
      PutInPlace(input0, output0, input[..], output[..], x, y, plain);
      Put(iv, 0, temp);
      y := y + plain;
      at := at + 16;
    }
    DoneInPlace(input[..], output[..], x, y);
    assert x[..at] == x;
  }

  lemma StartCbc(f: BlockFn, iv: seq<Byte>)
    requires |iv| == 16
    ensures CbcEncrypt(f, iv, []) == [] && CbcDecrypt(f, iv, []) == [] && LastBlock(iv, []) == iv
  {
  }

  /** The loop of aes_crypt_cbc that encrypts. */
  method EncryptCbc(ctx: Context, t: Tables, iv: array<Byte>, input: array<Byte>, output: array<Byte>)
    requires Correct(t) && Usable(ctx) && iv.Length == 16 && input.Length == output.Length && input.Length % 16 == 0
    requires iv != input && iv != output
    modifies iv, output
    ensures output[..] == CbcEncrypt(FnOf(ctx, AES_ENCRYPT), old(iv[..]), old(input[..]))
    ensures iv[..] == LastBlock(old(iv[..]), output[..])
  {
    hide Correct, FnOf, InPlace, LastBlock, CbcEncrypt, XorBytes;
    ghost var e, x, iv0 := FnOf(ctx, AES_ENCRYPT), input[..], iv[..];
    ghost var y := [];
    var at := 0;
    StartInPlace(x, output[..]);
    StartCbc(e, iv0);
    while at < input.Length
      invariant at == |y| <= input.Length && at % 16 == 0 && FnOf(ctx, AES_ENCRYPT) == e && Usable(ctx)
      invariant InPlace(input[..], output[..], x, y)
      invariant iv[..] == LastBlock(iv0, y) && y == CbcEncrypt(e, iv0, x[..at])
      decreases input.Length - at
    {
      ReadInPlace(input[..], output[..], x, y);
      CbcEncryptStep(e, iv0, x, at);
      var block := XorBytes(input[..][at..at + 16], iv[..]);
      block := CryptBlock(ctx, t, AES_ENCRYPT, block);
      ghost var input0, output0 := input[..], output[..];
      Put(output, at, block);
      PutInPlace(input0, output0, input[..], output[..], x, y, block);
      Put(iv, 0, block);
      y := y + block;
      at := at + 16;
    }
    DoneInPlace(input[..], output[..], x, y);
    assert x[..at] == x;
  }

  /** aes_crypt_cbc; input and output may be the same buffer. */
  method CryptCbc(ctx: Context, t: Tables, mode: Mode, iv: array<Byte>, input: array<Byte>, output: array<Byte>)
    returns (ret: int)
    requires Correct(t) && Usable(ctx) && iv.Length == 16 && input.Length == output.Length
    requires iv != input && iv != output
    modifies iv, output
    ensures ret == if input.Length % 16 != 0 then INVALID_INPUT_LENGTH else 0
    ensures ret != 0 ==> iv[..] == old(iv[..]) && output[..] == old(output[..])
    ensures ret == 0 && mode == AES_ENCRYPT ==>
              && output[..] == CbcEncrypt(FnOf(ctx, mode), old(iv[..]), old(input[..]))
              && iv[..] == LastBlock(old(iv[..]), output[..])
    ensures ret == 0 && mode == AES_DECRYPT ==>
              && output[..] == CbcDecrypt(FnOf(ctx, mode), old(iv[..]), old(input[..]))
              && iv[..] == LastBlock(old(iv[..]), old(input[..]))
  {
    hide Correct, FnOf, LastBlock, CbcEncrypt, CbcDecrypt;
    if input.Length % 16 != 0 {
      return INVALID_INPUT_LENGTH;
    }
    if mode == AES_DECRYPT {
      DecryptCbc(ctx, t, iv, input, output);
    } else {
      EncryptCbc(ctx, t, iv, input, output);
    }
    ret := 0;
  }

  // ---------- CFB128 ----------

  /** aes_crypt_cfb128; input and output may be the same buffer. */
  method CryptCfb128(ctx: Context, t: Tables, mode: Mode, ivOff: nat, iv: array<Byte>, input: array<Byte>,
                     output: array<Byte>)
    returns (n: nat)
    requires Correct(t) && Usable(ctx) && ivOff < 16 && iv.Length == 16 && input.Length == output.Length
    requires iv != input && iv != output
    modifies iv, output
    ensures var e, s := old(FnOf(ctx, AES_ENCRYPT)), Cfb(ivOff, old(iv[..]));
            && output[..] == CfbBytes(e, mode == AES_DECRYPT, s, old(input[..]))
            && Cfb(n, iv[..]) == CfbAfter(e, mode == AES_DECRYPT, s, old(input[..]))
  {
    hide Correct, FnOf, InPlace, CfbAfter, CfbBytes;
    ghost var e, x, s := FnOf(ctx, AES_ENCRYPT), input[..], Cfb(ivOff, iv[..]);
    ghost var dec := mode == AES_DECRYPT;
    ghost var y := [];
    n := ivOff;
    StartInPlace(x, output[..]);
    StartCfb(e, dec, s);
    var at := 0;
    while at < input.Length
      invariant at == |y| <= input.Length && FnOf(ctx, AES_ENCRYPT) == e && Usable(ctx)
      invariant InPlace(input[..], output[..], x, y)
      invariant Cfb(n, iv[..]) == CfbAfter(e, dec, s, x[..at]) && y == CfbBytes(e, dec, s, x[..at])
      decreases input.Length - at
    {
      ReadByte(input[..], output[..], x, y);
      CfbStep(e, dec, s, x[..at], x[at]);
      assert x[..at] + [x[at]] == x[..at + 1];
      ghost var before := Cfb(n, iv[..]);
      var c := input[at];
      n := CfbByte(ctx, t, mode, n, iv, c, output, at);
      y := y + [output[at]];
      at := at + 1;
    }
    DoneInPlace(input[..], output[..], x, y);
    assert x[..at] == x;
  }

  lemma StartCfb(e: BlockFn, decrypt: bool, s: Cfb)
    requires CfbValid(s)
    ensures CfbAfter(e, decrypt, s, []) == s && CfbBytes(e, decrypt, s, []) == []
  {
  }

  lemma ReadByte(input: seq<Byte>, output: seq<Byte>, x: seq<Byte>, y: seq<Byte>)
    requires InPlace(input, output, x, y) && |y| < |x|
    ensures input[|y|] == x[|y|]
    ensures forall c :: InPlace(input, output[|y| := c], x, y + [c])
    ensures input == output ==> forall c :: InPlace(input[|y| := c], output[|y| := c], x, y + [c])
  {
    assert input[|y|] == input[|y|..][0] == x[|y|..][0];
    assert input[|y| + 1..] == input[|y|..][1..];
  }

  /** The body of the two loops of aes_crypt_cfb128. */
  method CfbByte(ctx: Context, t: Tables, mode: Mode, offset: nat, iv: array<Byte>, c: Byte, output: array<Byte>, at: nat)
    returns (n: nat)
    requires Correct(t) && Usable(ctx) && offset < 16 && iv.Length == 16 && at < output.Length && iv != output
    modifies iv, output
    ensures var e, s := old(FnOf(ctx, AES_ENCRYPT)), Cfb(offset, old(iv[..]));
            && output[..] == old(output[..])[at := CfbOut(e, s, c)]
            && n < 16 && Cfb(n, iv[..]) == CfbNext(e, mode == AES_DECRYPT, s, c)
  {
    hide Correct, FnOf, Add;
    n := offset;
    ghost var e, s, output0 := FnOf(ctx, AES_ENCRYPT), Cfb(offset, iv[..]), output[..];
    if n == 0 {
      var block := CryptBlock(ctx, t, AES_ENCRYPT, iv[..]);
      Put(iv, 0, block);
    }
    assert iv[..] == CfbFilled(e, s);
    output[at] := Add(iv[n], c);
    iv[n] := if mode == AES_DECRYPT then c else output[at];
    n := (n + 1) % 16;
    assert output[..] == output0[at := CfbOut(e, s, c)];
    assert iv[..] == CfbNext(e, mode == AES_DECRYPT, s, c).iv;
  }

  // ---------- CTR ----------

  /** The loop that counts up the counter: from the last byte on, as long as a byte wraps around to zero. */
  method IncrementCounter(counter: array<Byte>)
    requires counter.Length == 16
    modifies counter
    ensures counter[..] == Increment(old(counter[..]))
  {
    hide Increment;
    ghost var c := counter[..];
    var i := 16;
    assert c[..16] == c && counter[16..] == [];
    while i > 0
      invariant 0 <= i <= 16 && Carried(c, counter[..], i)
    {
      ghost var before := counter[..];
      CarryStep(c, before, i);
      hide Carried;
      counter[i - 1] := counter[i - 1] + 1;
      assert counter[..] == before[i - 1 := before[i - 1] + 1];
      if counter[i - 1] != 0 {
        return;
      }
      i := i - 1;
    }
    CarriedOut(c, counter[..]);
  }

  /** The last bytes are counted up, and a carry goes into the first i. */
  predicate Carried(c: seq<Byte>, b: seq<Byte>, i: nat) {
    |b| == |c| && i <= |c| && b[..i] == c[..i] && Increment(c) == Increment(c[..i]) + b[i..]
  }

  lemma CarryStep(c: seq<Byte>, b: seq<Byte>, i: nat)
    requires i > 0 && Carried(c, b, i)
    ensures var y := b[i - 1] + 1;
            if y != 0 then Increment(c) == b[i - 1 := y] else Carried(c, b[i - 1 := y], i - 1)
  {
    hide Increment;
    IncrementLast(c[..i]);
    assert c[..i][..i - 1] == c[..i - 1] == b[..i - 1];
    assert b[i - 1] == b[..i][i - 1] == c[..i][i - 1];
  }

  lemma CarriedOut(c: seq<Byte>, b: seq<Byte>)
    requires Carried(c, b, 0)
    ensures Increment(c) == b
  {
    IncrementNothing();
    assert c[..0] == [] && b[0..] == b;
  }

  lemma IncrementNothing()
    ensures Increment([]) == []
  {
  }

  /** The last byte is one more; a carry goes on to the bytes before it. */
  lemma IncrementLast(c: seq<Byte>)
    requires |c| > 0
    ensures var n := |c| - 1;
            Increment(c) == (if c[n] + 1 == 0 then Increment(c[..n]) else c[..n]) + [c[n] + 1]
  {
  }

  /** aes_crypt_ctr; input and output may be the same buffer. */
  method CryptCtr(ctx: Context, t: Tables, ncOff: nat, counter: array<Byte>, stream: array<Byte>, input: array<Byte>,
                  output: array<Byte>)
    returns (n: nat)
    requires Correct(t) && Usable(ctx) && ncOff < 16 && counter.Length == stream.Length == 16
    requires input.Length == output.Length && counter != stream
    requires counter != input && counter != output && stream != input && stream != output
    modifies counter, stream, output
    ensures var e, s := old(FnOf(ctx, AES_ENCRYPT)), Ctr(ncOff, old(counter[..]), old(stream[..]));
            && output[..] == CtrBytes(e, s, old(input[..]))
            && Ctr(n, counter[..], stream[..]) == CtrAfter(e, s, input.Length)
  {
    hide Correct, FnOf, InPlace, CtrAfter, KeyStream, Add;
    ghost var e, x, s := FnOf(ctx, AES_ENCRYPT), input[..], Ctr(ncOff, counter[..], stream[..]);
    ghost var y := [];
    n := ncOff;
    StartInPlace(x, output[..]);
    StartCtr(e, s);
    var at := 0;
    while at < input.Length
      invariant at == |y| <= input.Length && FnOf(ctx, AES_ENCRYPT) == e && Usable(ctx)
      invariant InPlace(input[..], output[..], x, y)
      invariant Ctr(n, counter[..], stream[..]) == CtrAfter(e, s, at)
      invariant y == CtrBytes(e, s, x[..at])
      decreases input.Length - at
    {
      ReadByte(input[..], output[..], x, y);
      StepCtr(e, s, at);
      CtrChunks(e, s, x[..at], [x[at]]);
      assert x[..at] + [x[at]] == x[..at + 1];
      var c := input[at];
      n := CtrByte(ctx, t, n, counter, stream, c, output, at);
      y := y + [output[at]];
      at := at + 1;
      assert y == CtrBytes(e, s, x[..at]);
    }
    DoneInPlace(input[..], output[..], x, y);
    assert x[..at] == x;
  }

  lemma StartCtr(e: BlockFn, s: Ctr)
    requires CtrValid(s)
    ensures CtrAfter(e, s, 0) == s && CtrBytes(e, s, []) == []
  {
  }

  lemma StepCtr(e: BlockFn, s: Ctr, m: nat)
    requires CtrValid(s)
    ensures var f := CtrFilled(e, CtrAfter(e, s, m));
            CtrAfter(e, s, m + 1) == f.(n := (f.n + 1) % 16) && KeyStream(e, s, m) == f.stream[f.n]
  {
  }

  /** The body of the loop of aes_crypt_ctr. */
  method CtrByte(ctx: Context, t: Tables, offset: nat, counter: array<Byte>, stream: array<Byte>, c: Byte,
                 output: array<Byte>, at: nat)
    returns (n: nat)
    requires Correct(t) && Usable(ctx) && offset < 16 && counter.Length == stream.Length == 16 && at < output.Length
    requires counter != stream && counter != output && stream != output
    modifies counter, stream, output
    ensures var f := CtrFilled(old(FnOf(ctx, AES_ENCRYPT)), Ctr(offset, old(counter[..]), old(stream[..])));
            && output[..] == old(output[..])[at := Add(c, f.stream[offset])]
            && n < 16 && Ctr(n, counter[..], stream[..]) == f.(n := (offset + 1) % 16)
  {
    hide Correct, FnOf, Add, Increment;
    n := offset;
    if n == 0 {
      var block := CryptBlock(ctx, t, AES_ENCRYPT, counter[..]);
      Put(stream, 0, block);
      IncrementCounter(counter);
    }
    output[at] := Add(c, stream[n]);
    n := (n + 1) % 16;
  }
}

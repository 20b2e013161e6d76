/** AesEncrypt and AesDecrypt of Arithmetic.cpp: strings as blocks of AES-128 in hexadecimal. */
module AesText {
  import opened Common
  import opened Gf256
  import opened AesSpec
  import opened AesTables
  import opened Aes
  import opened BlockModes
  import opened AesModes

  // ---------- The block cipher of a key ----------

  /** The first 16 bytes of the given key, filled up with zeros. */
  function PadKey(initKey: seq<Byte>): (key: seq<Byte>)
    ensures |key| == 16 && forall i :: 0 <= i < 16 ==> key[i] == if i < |initKey| then initKey[i] else 0
  {
    if |initKey| > 16 then initKey[..16] else initKey + seq(16 - |initKey|, _ => 0)
  }

  ghost function Schedule(key: seq<Byte>): (w: seq<Column>)
    requires |key| == 16
    ensures |w| == 44
  {
    KeySchedule(KeyColumns(key), 44)
  }

  ghost function EncryptBlock(key: seq<Byte>, b: seq<Byte>): (r: seq<Byte>)
    requires |key| == 16
    ensures |b| == 16 ==> |r| == 16
  {
    if |b| == 16 then StateBytes(Cipher(Schedule(key), 10, BlockState(b))) else b
  }

  ghost function DecryptBlock(key: seq<Byte>, b: seq<Byte>): (r: seq<Byte>)
    requires |key| == 16
    ensures |b| == 16 ==> |r| == 16
  {
    if |b| == 16 then StateBytes(InvCipher(Schedule(key), 10, BlockState(b))) else b
  }

  /** AES-128 of FIPS 197. */
  ghost function EncFn(key: seq<Byte>): BlockFn
    requires |key| == 16
  {
    b => EncryptBlock(key, b)
  }

  ghost function DecFn(key: seq<Byte>): BlockFn
    requires |key| == 16
  {
    b => DecryptBlock(key, b)
  }

  lemma BlockInverse(key: seq<Byte>, b: seq<Byte>)
    requires |key| == 16 && |b| == 16
    ensures DecryptBlock(key, EncryptBlock(key, b)) == b
  {
    hide BlockState, StateBytes, Cipher, InvCipher, Schedule;
    BlockStateOfBytes(Cipher(Schedule(key), 10, BlockState(b)));
    CipherInverse(Schedule(key), 10, BlockState(b));
    StateBytesOfBlock(b);
  }

  /** What a context set up with the key computes. */
  lemma EncFnOf(ctx: Context, key: seq<Byte>, b: seq<Byte>)
    requires |key| == 16 && |b| == 16 && EncKeyed(ctx, key)
    ensures FnOf(ctx, AES_ENCRYPT)(b) == EncFn(key)(b)
  {
    EncryptsAsCipher(ctx.rk[..], 10, KeyColumns(key), BlockState(b));
    hide Ecb, Cipher, Expanded, BlockState, StateBytes, KeySchedule;
  }

  lemma DecFnOf(ctx: Context, key: seq<Byte>, b: seq<Byte>)
    requires |key| == 16 && |b| == 16 && DecKeyed(ctx, key)
    ensures FnOf(ctx, AES_DECRYPT)(b) == DecFn(key)(b)
  {
    DecryptsAsInvCipher(ctx.rk[..], 10, KeyColumns(key), BlockState(b));
    hide Ecb, InvCipher, IsInvSchedule, BlockState, StateBytes, KeySchedule;
  }

  // ---------- Blocks one by one ----------

  ghost function EcbRun(f: BlockFn, x: seq<Byte>): (y: seq<Byte>)
    requires |x| % 16 == 0
    ensures |y| == |x|
  {
    if x == [] then [] else
      var k := |x| - 16;
      EcbRun(f, x[..k]) + f(x[k..])
  }

  lemma EcbRunSnoc(f: BlockFn, a: seq<Byte>, b: seq<Byte>)
    requires |a| % 16 == 0 && |b| == 16
    ensures EcbRun(f, a + b) == EcbRun(f, a) + f(b)
  {
    assert (a + b)[..|a|] == a && (a + b)[|a|..] == b;
  }

  lemma EcbRunOne(f: BlockFn, b: seq<Byte>)
    requires |b| == 16
    ensures EcbRun(f, b) == f(b)
  {
    EcbRunSnoc(f, [], b);
    assert [] + b == b && EcbRun(f, []) == [];
    assert [] + f(b) == f(b);
  }

  lemma {:induction false} EcbRunAppend(f: BlockFn, a: seq<Byte>, b: seq<Byte>)
    requires |a| % 16 == 0 && |b| % 16 == 0
    ensures EcbRun(f, a + b) == EcbRun(f, a) + EcbRun(f, b)
    decreases |b|
  {
    if b == [] {
      assert a + b == a && EcbRun(f, []) == [];
      assert EcbRun(f, a) + [] == EcbRun(f, a);
    } else {
      var front, last := b[..|b| - 16], b[|b| - 16..];
      EcbRunAppend(f, a, front);
      EcbRunSnoc(f, a + front, last);
      EcbRunSnoc(f, front, last);
      hide EcbRun;
      assert b == front + last;
      Joined(a, front, last);
      Joined(EcbRun(f, a), EcbRun(f, front), f(last));
    }
  }

  /** Every block is replaced by its image, whatever stands before and behind it. */
  lemma EcbRunBlocks(f: BlockFn, a: seq<Byte>, b: seq<Byte>, c: seq<Byte>)
    requires |a| % 16 == 0 && |b| == 16 && |c| % 16 == 0
    ensures EcbRun(f, a + b + c) == EcbRun(f, a) + f(b) + EcbRun(f, c) && |EcbRun(f, a)| == |a|
  {
    EcbRunAppend(f, a + b, c);
    EcbRunAppend(f, a, b);
    EcbRunOne(f, b);
    hide EcbRun;
  }

  lemma {:induction false} EcbRunInverse(key: seq<Byte>, x: seq<Byte>)
    requires |key| == 16 && |x| % 16 == 0
    ensures EcbRun(DecFn(key), EcbRun(EncFn(key), x)) == x
  {
    hide EncryptBlock, DecryptBlock;
    if x != [] {
      var k := |x| - 16;
      var y := EcbRun(EncFn(key), x);
      assert y[..k] == EcbRun(EncFn(key), x[..k]) && y[k..] == EncFn(key)(x[k..]);
      EcbRunInverse(key, x[..k]);
      BlockInverse(key, x[k..]);
      assert x == x[..k] + x[k..];
    }
  }

  // ---------- Hexadecimal ----------

  function DigitValue(c: char): (v: nat)
    ensures v <= 16
  {
    if '0' <= c <= '9' then c as int - '0' as int
    else if 'a' <= c <= 'f' then c as int - 'a' as int + 10
    else if 'A' <= c <= 'F' then c as int - 'A' as int + 10
    else 16
  }

  /** strtoul of two characters in base 16, as a byte: digits up to another character, after a blank or a sign. */
  function PairValue(a: char, b: char): (v: nat)
    ensures v < 256
  {
    var x, y := DigitValue(a), DigitValue(b);
    if x < 16 then (if y < 16 then 16 * x + y else x)
    else if y == 16 then 0
    else if a == '-' then (256 - y) % 256
    else if a in {'+', ' ', '\t', '\n', '\r', 0x0B as char, 0x0C as char} then y
    else 0
  }

  // strtoul in base 16, as section 7.20.1.4 of ISO C99 has it: blanks, a sign, digits, and the rest is not looked at.

  predicate IsBlank(c: char) {
    c == ' ' || 0x09 <= c as int <= 0x0D
  }

  function SkipBlanks(s: string): string {
    if s != "" && IsBlank(s[0]) then SkipBlanks(s[1..]) else s
  }

  function Digits(s: string, value: int): int {
    if s == "" || DigitValue(s[0]) == 16 then value else Digits(s[1..], 16 * value + DigitValue(s[0]))
  }

  function Strtoul(s: string): int {
    var t := SkipBlanks(s);
    if t == "" then 0
    else if t[0] == '-' then -Digits(t[1..], 0)
    else if t[0] == '+' then Digits(t[1..], 0)
    else Digits(t, 0)
  }

  /** The digits of both cases, and no others. */
  lemma DigitValueIs(c: char)
    ensures DigitValue(c) == 16 <==> c !in "0123456789abcdefABCDEF"
  {
    var d := "0123456789abcdefABCDEF";
    if DigitValue(c) < 10 {
      assert c == d[DigitValue(c)];
    } else if DigitValue(c) < 16 {
      assert c == d[DigitValue(c)] || c == d[DigitValue(c) + 6];
    }
  }

  lemma DigitValueAt(i: nat)
    requires i < 16
    ensures DigitValue(DIGITS[i]) == i && (i >= 10 ==> DigitValue((DIGITS[i] as int - 0x20) as char) == i)
  {
    DigitIs(i);
    var c := HexDigit(i);
    assert i >= 10 ==> 'A' <= (c as int - 0x20) as char <= 'F';
    assert DigitValue(c) == i;
  }

  /** A byte of the result is the low byte of what strtoul makes of the two characters. */
  lemma PairIsStrtoul(a: char, b: char)
    ensures PairValue(a, b) == Strtoul([a, b]) % 256
  {
    StrtoulOfTwo(a, b);
    StrtoulOfOne(b);
    OneDigit(b, 0);
    OneDigit(b, DigitValue(a));
    Separate(a);
    Separate(b);
    hide DigitValue, Strtoul, Digits, IsBlank;
  }

  lemma StrtoulOfOne(b: char)
    ensures Strtoul([b]) == if IsBlank(b) || b == '-' || b == '+' then 0 else Digits([b], 0)
  {
    hide DigitValue;
    assert [b][1..] == "" && SkipBlanks("") == "";
    assert SkipBlanks([b]) == if IsBlank(b) then "" else [b];
    assert Digits("", 0) == 0;
  }

  lemma StrtoulOfTwo(a: char, b: char)
    ensures Strtoul([a, b]) ==
            if IsBlank(a) then Strtoul([b])
            else if a == '-' then -Digits([b], 0)
            else if a == '+' then Digits([b], 0)
            else if DigitValue(a) == 16 then 0 else Digits([b], DigitValue(a))
  {
    hide DigitValue;
    assert [a, b][1..] == [b];
    assert SkipBlanks([a, b]) == if IsBlank(a) then SkipBlanks([b]) else [a, b];
    assert Digits([a, b], 0) == if DigitValue(a) == 16 then 0 else Digits([b], DigitValue(a));
  }

  lemma OneDigit(c: char, value: int)
    ensures Digits([c], value) == if DigitValue(c) == 16 then value else 16 * value + DigitValue(c)
  {
    hide DigitValue;
    assert [c][1..] == "";
  }

  lemma Separate(c: char)
    ensures IsBlank(c) || c == '-' || c == '+' ==> DigitValue(c) == 16
    ensures !(IsBlank(c) && (c == '-' || c == '+'))
    ensures IsBlank(c) <==> c in {' ', '\t', '\n', '\r', 0x0B as char, 0x0C as char}
  {
  }

  /** The pairs of characters, one after the other. */
  lemma {:induction false} UnhexPairs(s: string, i: nat)
    requires 2 * i + 1 < |s|
    ensures Unhex(s)[i] == PairValue(s[2 * i], s[2 * i + 1]) as Byte
    decreases |s|
  {
    hide PairValue;
    if i > 0 {
      UnhexPairs(s[2..], i - 1);
    }
  }

  lemma UnhexAt(s: string, i: nat)
    requires 2 * i + 1 < |s|
    ensures Unhex(s)[i] == (Strtoul([s[2 * i], s[2 * i + 1]]) % 256) as Byte
  {
    hide *;
    UnhexPairs(s, i);
    PairIsStrtoul(s[2 * i], s[2 * i + 1]);
  }

  /** HexToAscii; the NUL after the string stands in for a missing second digit. */
  function Unhex(s: string): (x: seq<Byte>)
    ensures |x| == (|s| + 1) / 2
  {
    if s == "" then []
    else if |s| == 1 then [PairValue(s[0], '\0') as Byte]
    else [PairValue(s[0], s[1]) as Byte] + Unhex(s[2..])
  }

  lemma {:induction false} UnhexAppend(s: string, a: char, b: char)
    requires |s| % 2 == 0
    ensures Unhex(s + [a, b]) == Unhex(s) + [PairValue(a, b) as Byte]
  {
    hide PairValue;
    if s == "" {
      assert s + [a, b] == [a, b] && [a, b][2..] == "";
    } else {
      assert (s + [a, b])[2..] == s[2..] + [a, b];
      UnhexAppend(s[2..], a, b);
    }
  }

  lemma HexByteInverse(b: Byte)
    ensures PairValue(HexByte(b)[0], HexByte(b)[1]) as Byte == b
  {
    hide DigitValue, HexDigit;
    var n := b as nat;
    DigitInverse(n / 16);
    DigitInverse(n % 16);
    assert PairValue(HexByte(b)[0], HexByte(b)[1]) == n;
  }

  lemma DigitInverse(n: nat)
    requires n < 16
    ensures DigitValue(HexDigit(n)) == n
  {
  }

  lemma {:induction false} UnhexInverse(x: seq<Byte>)
    ensures Unhex(Hex(x)) == x
  {
    hide HexByte, PairValue;
    if x != [] {
      var k := |x| - 1;
      UnhexInverse(x[..k]);
      HexByteInverse(x[k]);
      var h := HexByte(x[k]);
      TwoChars(x[k]);
      UnhexAppend(Hex(x[..k]), h[0], h[1]);
      assert x == x[..k] + [x[k]];
    }
  }

  lemma TwoChars(b: Byte)
    ensures |HexByte(b)| == 2 && HexByte(b) == [HexByte(b)[0], HexByte(b)[1]]
  {
  }

  // ---------- Padding ----------

  /** Zeros fill up the last block; a string of whole blocks gets none. */
  function ZeroPadded(src: seq<Byte>): (x: seq<Byte>)
    ensures |x| % 16 == 0 && src <= x && |x| < |src| + 16 && forall i :: |src| <= i < |x| ==> x[i] == 0
  {
    src + seq(-|src| % 16, _ => 0)
  }

  /** The bytes before the first NUL. */
  function CString(x: seq<Byte>): seq<Byte> {
    UpTo(x, 0)
  }

  predicate NulFree(x: seq<Byte>) {
    Lacks(x, 0)
  }

  lemma {:induction false} CStringOfPadded(x: seq<Byte>, n: nat)
    ensures CString(x + seq(n, _ => 0)) == CString(x)
    ensures CString(x) == x <==> NulFree(x)
  {
    if x == [] {
      assert x + seq(n, _ => 0) == seq(n, _ => 0);
    } else {
      assert (x + seq(n, _ => 0))[1..] == x[1..] + seq(n, _ => 0);
      if x[0] != 0 {
        CStringOfPadded(x[1..], n);
        assert x == [x[0]] + x[1..];
      }
    }
  }

  // ---------- The two functions ----------

  ghost function Encrypted(initKey: seq<Byte>, src: seq<Byte>): string {
    Hex(EcbRun(EncFn(PadKey(initKey)), ZeroPadded(src)))
  }

  /** The blocks of a text; a last block that is not whole is left out. */
  ghost function Decrypted(initKey: seq<Byte>, text: string): seq<Byte> {
    var x := Unhex(text);
    CString(EcbRun(DecFn(PadKey(initKey)), x[..|x| - |x| % 16]))
  }

  lemma PaddedText(src: seq<Byte>)
    ensures CString(ZeroPadded(src)) == CString(src) && (CString(src) == src <==> NulFree(src))
  {
    hide CString, NulFree;
    CStringOfPadded(src, -|src| % 16);
  }

  lemma EncryptedIs(initKey: seq<Byte>, src: seq<Byte>)
    ensures Encrypted(initKey, src) == Hex(EcbRun(EncFn(PadKey(initKey)), ZeroPadded(src)))
  {
  }

  lemma DecryptedIs(initKey: seq<Byte>, text: string)
    ensures var x := Unhex(text);
            Decrypted(initKey, text) == CString(EcbRun(DecFn(PadKey(initKey)), x[..|x| - |x| % 16]))
  {
    hide EcbRun, DecFn, PadKey, CString, Unhex;
  }

  lemma {:induction false} UnhexConcat(a: string, b: string)
    requires |a| % 2 == 0
    ensures Unhex(a + b) == Unhex(a) + Unhex(b)
    decreases |a|
  {
    hide PairValue;
    if a == "" {
      assert a + b == b;
    } else {
      assert (a + b)[2..] == a[2..] + b;
      UnhexConcat(a[2..], b);
      hide Unhex;
      UnhexPair(a);
      UnhexPair(a + b);
    }
  }

  lemma UnhexPair(s: string)
    requires |s| >= 2
    ensures Unhex(s) == [PairValue(s[0], s[1]) as Byte] + Unhex(s[2..])
  {
    hide PairValue;
  }

  lemma DecryptedOf(initKey: seq<Byte>, text: string, y: seq<Byte>, z: seq<Byte>)
    requires Unhex(text) == y + z && |y| % 16 == 0 && |z| < 16
    ensures Decrypted(initKey, text) == CString(EcbRun(DecFn(PadKey(initKey)), y))
  {
    WholeBlocks(y, z);
    DecryptedIs(initKey, text);
    hide *;
  }

  lemma UnhexWith(y: seq<Byte>, extra: string)
    requires |extra| <= 30
    ensures Unhex(Hex(y) + extra) == y + Unhex(extra) && |Unhex(extra)| < 16
  {
    hide *;
    UnhexConcat(Hex(y), extra);
    UnhexInverse(y);
  }

  /** Characters behind the last whole block change nothing. */
  lemma PartialBlock(initKey: seq<Byte>, y: seq<Byte>, extra: string)
    requires |y| % 16 == 0 && |extra| <= 30
    ensures Decrypted(initKey, Hex(y) + extra) == CString(EcbRun(DecFn(PadKey(initKey)), y))
  {
    hide *;
    UnhexWith(y, extra);
    DecryptedOf(initKey, Hex(y) + extra, y, Unhex(extra));
  }

  lemma WholeBlocks(y: seq<Byte>, z: seq<Byte>)
    requires |y| % 16 == 0 && |z| < 16
    ensures |y + z| - |y + z| % 16 == |y| && (y + z)[..|y|] == y
  {
  }

  /** A string comes back up to its first NUL, so it comes back whole if and only if there is none. */
  lemma DecryptedInverse(initKey: seq<Byte>, src: seq<Byte>)
    ensures Decrypted(initKey, Encrypted(initKey, src)) == CString(src)
    ensures Decrypted(initKey, Encrypted(initKey, src)) == src <==> NulFree(src)
  {
    hide *;
    PaddedText(src);
    var x := ZeroPadded(src);
    var y := EcbRun(EncFn(PadKey(initKey)), x);
    EncryptedIs(initKey, src);
    DecryptedIs(initKey, Hex(y));
    UnhexInverse(y);
    EcbRunInverse(PadKey(initKey), x);
    assert y[..|y|] == y;
  }

  /** A loop over whole blocks, from the front; blocks is their number. */
  method CryptBlocks(ctx: Context, t: Tables, mode: Mode, ghost f: BlockFn, input: seq<Byte>) returns (out: seq<Byte>)
    requires Correct(t) && Usable(ctx) && |input| % 16 == 0
    requires forall b: seq<Byte> {:trigger f(b)} :: |b| == 16 ==> FnOf(ctx, mode)(b) == f(b)
    ensures out == EcbRun(f, input)
  {
    hide Correct, FnOf, Usable;
    out := [];
    for j := 0 to |input| / 16
      invariant out == EcbRun(f, input[..16 * j])
    {
      var block := input[16 * j..16 * j + 16];
      var next := CryptBlock(ctx, t, mode, block);
      assert next == f(block);
      var x := input[..16 * j + 16];
      assert x[..16 * j] == input[..16 * j] && x[16 * j..] == block;
      out := out + next;
    }
    assert input[..16 * (|input| / 16)] == input;
  }

  /** HexToAscii */
  method HexToAscii(s: string) returns (x: seq<Byte>)
    ensures x == Unhex(s)
  {
    hide PairValue, Unhex;
    x := [];
    var i := 0;
    while i < |s|
      invariant 0 <= i && (i <= |s| || i == |s| + 1)
      invariant x + Unhex(s[if i <= |s| then i else |s|..]) == Unhex(s)
    {
      UnhexStep(s[i..]);
      x := x + [PairValue(s[i], if i + 1 < |s| then s[i + 1] else '\0') as Byte];
      i := i + 2;
    }
    assert Unhex("") == [] by {
      UnhexStep("");
    }
  }

  lemma UnhexStep(s: string)
    ensures s == "" ==> Unhex(s) == []
    ensures s != "" ==>
              Unhex(s) == [PairValue(s[0], if |s| > 1 then s[1] else '\0') as Byte] + Unhex(s[if |s| > 1 then 2 else 1..])
  {
  }

  /** AesEncrypt; the whole blocks and the padded rest are one loop here. */
  method AesEncrypt(t: Tables, initKey: seq<Byte>, src: seq<Byte>) returns (text: string)
    requires Correct(t)
    ensures text == Encrypted(initKey, src)
  {
    hide *;
    var key := PadKey(initKey);
    var ctx := new Context();
    SizeOf128();
    var ret := SetkeyEnc(ctx, t, key, 128);
    KeyedForEncryption(ctx, key);
    var out := CryptBlocks(ctx, t, AES_ENCRYPT, EncFn(key), ZeroPadded(src));
    text := PrintHex(out);
    EncryptedIs(initKey, src);
  }

  lemma SizeOf128()
    ensures RoundsFor(128) == 10
  {
  }

  lemma KeyedForEncryption(ctx: Context, key: seq<Byte>)
    requires |key| == 16 && EncKeyed(ctx, key)
    ensures Usable(ctx) && forall b: seq<Byte> {:trigger EncFn(key)(b)} :: |b| == 16 ==> FnOf(ctx, AES_ENCRYPT)(b) == EncFn(key)(b)
  {
    hide Expanded, EncFn, FnOf;
    forall b: seq<Byte> | |b| == 16 ensures FnOf(ctx, AES_ENCRYPT)(b) == EncFn(key)(b) {
      EncFnOf(ctx, key, b);
    }
  }

  lemma KeyedForDecryption(ctx: Context, key: seq<Byte>)
    requires |key| == 16 && DecKeyed(ctx, key)
    ensures Usable(ctx) && forall b: seq<Byte> {:trigger DecFn(key)(b)} :: |b| == 16 ==> FnOf(ctx, AES_DECRYPT)(b) == DecFn(key)(b)
  {
    hide IsInvSchedule, DecFn, FnOf;
    forall b: seq<Byte> | |b| == 16 ensures FnOf(ctx, AES_DECRYPT)(b) == DecFn(key)(b) {
      DecFnOf(ctx, key, b);
    }
  }

  /** AesDecrypt; the result is read as a C string. */
  method AesDecrypt(t: Tables, initKey: seq<Byte>, text: string) returns (src: seq<Byte>)
    requires Correct(t)
    ensures src == Decrypted(initKey, text)
  {
    hide *;
    var dst := HexToAscii(text);
    var key := PadKey(initKey);
    var ctx := new Context();
    SizeOf128();
    var ret := SetkeyDec(ctx, t, key, 128);
    KeyedForDecryption(ctx, key);
    var out := CryptBlocks(ctx, t, AES_DECRYPT, DecFn(key), dst[..|dst| - |dst| % 16]);
    src := CString(out);
    DecryptedIs(initKey, text);
  }
}

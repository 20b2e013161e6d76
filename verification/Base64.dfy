/** Base64Encode and Base64Decode of Arithmetic.cpp. */
module Base64 {
  type Byte = b: int | 0 <= b < 256

  const WORD: nat := 0x1_0000_0000

  // ---------- The alphabet ----------

  /** Table encode: table 1 of RFC 4648. */
  function Letter(v: nat): char
    requires v < 64
  {
    if v < 26 then ('A' as int + v) as char
    else if v < 52 then ('a' as int + (v - 26)) as char
    else if v < 62 then ('0' as int + (v - 52)) as char
    else if v == 62 then '+' else '/'
  }

  /** Table rstr, which has an entry for every ASCII character. */
  function Value(c: char): (v: nat)
    ensures v < 64
  {
    if 'A' <= c <= 'Z' then c as int - 'A' as int
    else if 'a' <= c <= 'z' then c as int - 'a' as int + 26
    else if '0' <= c <= '9' then c as int - '0' as int + 52
    else if c == '+' then 62
    else if c == '/' then 63
    else 0
  }

  lemma ValueOfLetter(v: nat)
    requires v < 64
    ensures Value(Letter(v)) == v && Letter(v) != '=' && !IsBreak(Letter(v))
  {
  }

  predicate IsBreak(c: char) {
    c == '\r' || c == '\n'
  }

  // ---------- Section 4 of RFC 4648 ----------

  /** The 24 bits of a group as four letters. */
  function Group(a: Byte, b: Byte, c: Byte): (g: string)
    ensures |g| == 4
  {
    [Letter(a / 4), Letter(a % 4 * 16 + b / 16), Letter(b % 16 * 4 + c / 64), Letter(c % 64)]
  }

  /** Groups of three bytes; a last group of one or two bytes is filled with zero bits and padding. */
  function Encoded(data: seq<Byte>): (code: string)
    decreases |data|
  {
    if data == [] then ""
    else if |data| == 1 then Group(data[0], 0, 0)[..2] + "=="
    else if |data| == 2 then Group(data[0], data[1], 0)[..3] + "="
    else Group(data[0], data[1], data[2]) + Encoded(data[3..])
  }

  const ALPHABET: string := "ABCDEFGHIJKLMNOPQRSTUVWXYZ" + "abcdefghijklmnopqrstuvwxyz" + "0123456789" + "+/"

  /** Table 1 of RFC 4648, in both directions. */
  lemma AlphabetExact(v: nat)
    requires v < 64
    ensures Letter(v) == ALPHABET[v] && Value(ALPHABET[v]) == v
  {
    LetterAt(v);
    ValueOfLetter(v);
  }

  /** Every other character counts as zero. */
  lemma OtherCharacters(c: char)
    requires forall v :: 0 <= v < 64 ==> c != ALPHABET[v]
    ensures Value(c) == 0
  {
    hide ALPHABET;
    forall v | 0 <= v < 64 ensures c != Letter(v) {
      LetterAt(v);
    }
    NotALetter(c);
  }

  lemma NotALetter(c: char)
    requires forall v :: 0 <= v < 64 ==> c != Letter(v)
    ensures Value(c) == 0
  {
    assert Value(c) > 0 ==> c == Letter(Value(c));
  }

  lemma LetterAt(v: nat)
    requires v < 64
    ensures Letter(v) == ALPHABET[v]
  {
    if v < 26 {
      UpperAt(v);
    } else if v < 52 {
      LowerAt(v - 26);
    } else if v < 62 {
      assert ALPHABET[v] == "0123456789"[v - 52];
    }
  }

  lemma UpperAt(v: nat)
    requires v < 26
    ensures "ABCDEFGHIJKLMNOPQRSTUVWXYZ"[v] == ('A' as int + v) as char
  {
  }

  lemma LowerAt(v: nat)
    requires v < 26
    ensures "abcdefghijklmnopqrstuvwxyz"[v] == ('a' as int + v) as char
  {
  }

  /** Section 4 of RFC 4648: the four digits to the base 64 of the number the three bytes stand for, the highest first. */
  lemma GroupExact(a: Byte, b: Byte, c: Byte)
    ensures var n := a * 0x1_0000 + b * 0x100 + c;
            && n < 0x100_0000
            && Group(a, b, c) == [ALPHABET[n / 0x4_0000], ALPHABET[n / 0x1000 % 64], ALPHABET[n / 64 % 64], ALPHABET[n % 64]]
  {
    FourDigits(a, b, c);
    LetterAt(a / 4);
    LetterAt(a % 4 * 16 + b / 16);
    LetterAt(b % 16 * 4 + c / 64);
    LetterAt(c % 64);
    hide Letter, ALPHABET;
  }

  lemma FourDigits(a: Byte, b: Byte, c: Byte)
    ensures var n := a * 0x1_0000 + b * 0x100 + c;
            && n < 0x100_0000 && n / 0x4_0000 == a / 4 && n / 0x1000 % 64 == a % 4 * 16 + b / 16
            && n / 64 % 64 == b % 16 * 4 + c / 64 && n % 64 == c % 64
  {
    var n := a * 0x1_0000 + b * 0x100 + c;
    var w, x, y, z := a / 4, a % 4 * 16 + b / 16, b % 16 * 4 + c / 64, c % 64;
    assert n == ((w * 64 + x) * 64 + y) * 64 + z;
    assert n / 64 == (w * 64 + x) * 64 + y;
    assert n / 0x1000 == n / 64 / 64 && n / 64 / 64 == w * 64 + x;
    assert n / 0x4_0000 == n / 0x1000 / 64;
  }

  /** Test vectors of section 10 of RFC 4648: "f", "fo", "foo" and "foobar". */
  lemma Vectors()
    ensures Encoded([]) == "" && Encoded([0x66]) == "Zg==" && Encoded([0x66, 0x6f]) == "Zm8="
    ensures Encoded([0x66, 0x6f, 0x6f]) == "Zm9v"
    ensures Encoded([0x66, 0x6f, 0x6f, 0x62, 0x61, 0x72]) == "Zm9v" + "YmFy"
  {
    var foo, bar: seq<Byte> := [0x66, 0x6f, 0x6f], [0x62, 0x61, 0x72];
    assert foo[3..] == [] && bar[3..] == [];
    assert (foo + bar)[3..] == bar && foo + bar == [0x66, 0x6f, 0x6f, 0x62, 0x61, 0x72];
    assert Group(0x62, 0x61, 0x72) == "YmFy" && Encoded(bar) == "YmFy";
    assert Group(0x66, 0x6f, 0x6f) == "Zm9v" && Encoded(foo) == "Zm9v";
  }

  lemma {:induction false} EncodedLength(data: seq<Byte>)
    ensures |Encoded(data)| == 4 * ((|data| + 2) / 3)
    decreases |data|
  {
    hide Group;
    if |data| >= 3 {
      EncodedLength(data[3..]);
      assert |data| + 2 == 3 + (|data[3..]| + 2);
    }
  }

  /** Whole groups and then the rest. */
  lemma {:induction false} EncodedAppend(a: seq<Byte>, b: seq<Byte>)
    requires |a| % 3 == 0
    ensures Encoded(a + b) == Encoded(a) + Encoded(b)
    decreases |a|
  {
    hide Group;
    if a == [] {
      assert a + b == b;
    } else {
      assert (a + b)[3..] == a[3..] + b;
      EncodedAppend(a[3..], b);
      if |a| == 3 {
        assert a[3..] == [];
      }
    }
  }

  // ---------- Base64Encode ----------

  /** The upper six bits of a word. */
  function Top(x: nat): nat
  {
    x / 0x400_0000
  }

  /** A word shifted left by six bits; what leaves the word is lost. */
  function Shl6(x: nat): (y: nat)
    ensures y < WORD
  {
    x * 64 % WORD
  }

  /** Three bytes in the upper part of a word; they do not overlap, so | adds them. */
  function Packed(a: Byte, b: Byte, c: Byte): (x: nat)
    ensures x < WORD
  {
    a * 0x100_0000 + b * 0x1_0000 + c * 0x100
  }

  lemma TopRange(x: nat)
    requires x < WORD
    ensures Top(x) < 64
  {
  }

  lemma ShiftOut(x: nat, high: nat, low: nat)
    requires x == high * 0x400_0000 + low && high < 64 && low < 0x400_0000
    ensures Top(x) == high && Shl6(x) == low * 64
  {
    assert x * 64 == high * WORD + low * 64;
  }

  /** Shifting the word brings out the four groups of six bits. */
  lemma Sextets(a: Byte, b: Byte, c: Byte)
    ensures var x := Packed(a, b, c);
            && Top(x) == a / 4 && Top(Shl6(x)) == a % 4 * 16 + b / 16
            && Top(Shl6(Shl6(x))) == b % 16 * 4 + c / 64 && Top(Shl6(Shl6(Shl6(x)))) == c % 64
  {
    hide Top, Shl6;
    var x := Packed(a, b, c);
    var y, z := a % 4 * 0x4000_0000 + b * 0x40_0000 + c * 0x4000, b % 16 * 0x1000_0000 + c * 0x10_0000;
    ShiftOut(x, a / 4, a % 4 * 0x100_0000 + b * 0x1_0000 + c * 0x100);
    ShiftOut(y, a % 4 * 16 + b / 16, b % 16 * 0x40_0000 + c * 0x4000);
    ShiftOut(z, b % 16 * 4 + c / 64, c % 64 * 0x10_0000);
    ShiftOut(c % 64 * 0x400_0000, c % 64, 0);
  }

  /** Base64Encode: nothing is allocated for an empty input. */
  method Base64Encode(data: seq<Byte>) returns (code: string, n: nat)
    ensures code == Encoded(data) && n == |code| == 4 * ((|data| + 2) / 3)
  {
    hide Letter, Group, Encoded, Top, Shl6, Packed;
    code, n := "", 0;
    EncodedLength(data);
    if |data| == 0 {
      return;
    }
    var s := 0;
    assert code == Encoded(data[..0]) by { NothingEncoded(); }
    while s < |data| - 3
      invariant 0 <= s < |data| && s % 3 == 0 && code == Encoded(data[..s]) && n == |code|
    {
      Sextets(data[s], data[s + 1], data[s + 2]);
      EncodedAppend(data[..s], data[s..s + 3]);
      OneGroup(data[s..s + 3]);
      assert data[..s + 3] == data[..s] + data[s..s + 3];
      var x := Packed(data[s], data[s + 1], data[s + 2]);
      s := s + 3;
      code := code + LetterOf(x);
      x := Shl6(x);
      code := code + LetterOf(x);
      x := Shl6(x);
      code := code + LetterOf(x);
      x := Shl6(x);
      code := code + LetterOf(x);
      n := n + 4;
    }
    EncodedAppend(data[..s], data[s..]);
    assert data == data[..s] + data[s..];
    var last := LastGroup(data[s..]);
    code := code + last;
    n := n + 4;
  }

  function LetterOf(x: nat): string
    requires x < WORD
  {
    TopRange(x);
    [Letter(Top(x))]
  }

  lemma NothingEncoded()
    ensures Encoded([]) == ""
  {
  }

  lemma OneGroup(g: seq<Byte>)
    requires |g| == 3
    ensures Encoded(g) == LetterOf(Packed(g[0], g[1], g[2])) + LetterOf(Shl6(Packed(g[0], g[1], g[2]))) +
              LetterOf(Shl6(Shl6(Packed(g[0], g[1], g[2])))) + LetterOf(Shl6(Shl6(Shl6(Packed(g[0], g[1], g[2])))))
  {
    hide Letter, Top, Shl6, Packed;
    Sextets(g[0], g[1], g[2]);
    assert g[3..] == [];
  }

  /** x shifted by j groups of six bits. */
  function Shifted(x: nat, j: nat): nat {
    if j == 0 then x else Shl6(Shifted(x, j - 1))
  }

  /** The bytes packed so far, the others zero. */
  function PackedUpTo(rest: seq<Byte>, i: nat): (x: nat)
    requires i <= |rest| <= 3
    ensures x < WORD
  {
    Packed(if i > 0 then rest[0] else 0, if i > 1 then rest[1] else 0, if i > 2 then rest[2] else 0)
  }

  lemma PackMore(rest: seq<Byte>, i: nat)
    requires i < |rest| <= 3
    ensures PackedUpTo(rest, i + 1) ==
            PackedUpTo(rest, i) + (rest[i] as nat) * (if i == 0 then 0x100_0000 else if i == 1 then 0x1_0000 else 0x100)
  {
  }

  /** Letter j of the last group, or padding. */
  lemma LastLetter(rest: seq<Byte>, j: nat)
    requires 1 <= |rest| <= 3 && j < 4
    ensures var x := Shifted(PackedUpTo(rest, |rest|), j);
            x < WORD && |Encoded(rest)| == 4 &&
            [Encoded(rest)[j]] == if 8 * |rest| >= 6 * j then LetterOf(x) else "="
  {
    hide Letter, Top, Shl6, Packed;
    var a, b, c := rest[0], if |rest| > 1 then rest[1] else 0, if |rest| > 2 then rest[2] else 0;
    Sextets(a, b, c);
    var p := Packed(a, b, c);
    assert Shifted(p, 1) == Shl6(p) && Shifted(p, 2) == Shl6(Shl6(p));
    assert Shifted(p, 3) == Shl6(Shl6(Shl6(p)));
    if |rest| == 3 {
      assert rest[3..] == [];
    }
  }

  /** The two loops after the main loop: one to three bytes are left. */
  method LastGroup(rest: seq<Byte>) returns (code: string)
    requires 1 <= |rest| <= 3
    ensures code == Encoded(rest) && |code| == 4
  {
    hide Letter, Encoded, Top, Shl6, Packed, PackedUpTo, LetterOf;
    var x: nat := 0;
    assert x == PackedUpTo(rest, 0) by { NothingPacked(rest); }
    var i := 0;
    while i < |rest|
      invariant 0 <= i <= |rest| && x == PackedUpTo(rest, i)
    {
      PackMore(rest, i);
      x := x + (rest[i] as nat) * (if i == 0 then 0x100_0000 else if i == 1 then 0x1_0000 else 0x100);
      i := i + 1;
    }
    code := "";
    ghost var p := x;
    LastLetter(rest, 0);
    for j := 0 to 4
      invariant |code| == j && |Encoded(rest)| == 4 && code == Encoded(rest)[..j]
      invariant 8 * i >= 6 * j ==> x == Shifted(p, j)
    {
      LastLetter(rest, j);
      if 8 * i >= 6 * j {
        code := code + LetterOf(x);
        x := Shl6(x);
      } else {
        code := code + "=";
      }
    }
  }

  lemma NothingPacked(rest: seq<Byte>)
    requires |rest| <= 3
    ensures PackedUpTo(rest, 0) == 0
  {
  }

  // ---------- Base64Decode ----------

  /** The bytes of four characters: the last two may be padding. */
  function Ungroup(a: char, b: char, c: char, d: char): (bytes: seq<Byte>)
  {
    [Value(a) * 4 % 256 + Value(b) / 16 % 4] +
    (if c != '=' then [Value(b) % 16 * 16 + Value(c) / 4 % 16] else []) +
    (if d != '=' then [Value(c) % 4 * 64 + Value(d)] else [])
  }

  /** After line breaks there are four more characters, or nothing. */
  predicate Complete(text: string)
    decreases |text|
  {
    if text == [] then true
    else if IsBreak(text[0]) then Complete(text[1..])
    else |text| >= 4 && Complete(text[4..])
  }

  function Decoded(text: string): seq<Byte>
    requires Complete(text)
    decreases |text|
  {
    if text == [] then []
    else if IsBreak(text[0]) then Decoded(text[1..])
    else Ungroup(text[0], text[1], text[2], text[3]) + Decoded(text[4..])
  }

  /** Base64Decode of a text in ASCII whose last group is not cut short. */
  method Base64Decode(data: string) returns (code: seq<Byte>, k: nat)
    requires Complete(data)
    ensures code == Decoded(data) && k == |code|
  {
    hide Ungroup, IsBreak;
    code, k := [], 0;
    if |data| == 0 {
      return;
    }
    var i := 0;
    while i < |data|
      invariant 0 <= i <= |data| && Complete(data[i..]) && code + Decoded(data[i..]) == Decoded(data) && k == |code|
      decreases |data| - i
    {
      while i < |data| && IsBreak(data[i])
        invariant 0 <= i <= |data| && Complete(data[i..]) && code + Decoded(data[i..]) == Decoded(data)
      {
        assert data[i..][1..] == data[i + 1..];
        i := i + 1;
      }
      if i < |data| {
        assert data[i..][4..] == data[i + 4..];
        code := code + Ungroup(data[i], data[i + 1], data[i + 2], data[i + 3]);
        i := i + 4;
      }
      k := |code|;
    }
  }

  lemma JoinLow(a: Byte, b: Byte)
    ensures a / 4 * 4 % 256 + (a % 4 * 16 + b / 16) / 16 % 4 == a
  {
  }

  lemma JoinMiddle(a: Byte, b: Byte, c: Byte)
    ensures (a % 4 * 16 + b / 16) % 16 * 16 + (b % 16 * 4 + c / 64) / 4 % 16 == b
  {
    assert (a % 4 * 16 + b / 16) % 16 == b / 16;
    assert (b % 16 * 4 + c / 64) / 4 == b % 16;
  }

  lemma JoinHigh(b: Byte, c: Byte)
    ensures (b % 16 * 4 + c / 64) % 4 * 64 + c % 64 == c
  {
    assert (b % 16 * 4 + c / 64) % 4 == c / 64;
  }

  /** The bytes that four six-bit groups stand for. */
  lemma UngroupLetters(v: nat, w: nat, x: nat, y: nat)
    requires v < 64 && w < 64 && x < 64 && y < 64
    ensures var g0, g1, g2, g3 := Letter(v), Letter(w), Letter(x), Letter(y);
            && Ungroup(g0, g1, '=', '=') == [v * 4 % 256 + w / 16 % 4] && !IsBreak(g0)
            && Ungroup(g0, g1, g2, '=') == [v * 4 % 256 + w / 16 % 4, w % 16 * 16 + x / 4 % 16]
            && Ungroup(g0, g1, g2, g3) ==
                 [v * 4 % 256 + w / 16 % 4, w % 16 * 16 + x / 4 % 16, x % 4 * 64 + y]
  {
    hide Letter, Value, IsBreak;
    ValueOfLetter(v);
    ValueOfLetter(w);
    ValueOfLetter(x);
    ValueOfLetter(y);
  }

  lemma GroupInverse(a: Byte, b: Byte, c: Byte)
    ensures var g := Group(a, b, c);
            && Ungroup(g[0], g[1], g[2], g[3]) == [a, b, c]
            && Ungroup(g[0], g[1], g[2], '=') == [a, b] && Ungroup(g[0], g[1], '=', '=') == [a]
            && !IsBreak(g[0])
  {
    hide Letter, Ungroup, IsBreak;
    UngroupLetters(a / 4, a % 4 * 16 + b / 16, b % 16 * 4 + c / 64, c % 64);
    JoinLow(a, b);
    JoinMiddle(a, b, c);
    JoinHigh(b, c);
  }

  /** Decoding undoes encoding, for every byte string. */
  lemma {:induction false} DecodeInverse(data: seq<Byte>)
    ensures Complete(Encoded(data)) && Decoded(Encoded(data)) == data
    decreases |data|
  {
    hide Group, Ungroup, IsBreak;
    var code := Encoded(data);
    if |data| == 1 {
      GroupInverse(data[0], 0, 0);
      assert code[4..] == [];
    } else if |data| == 2 {
      GroupInverse(data[0], data[1], 0);
      assert code[4..] == [];
    } else if |data| >= 3 {
      GroupInverse(data[0], data[1], data[2]);
      DecodeInverse(data[3..]);
      assert code[4..] == Encoded(data[3..]);
    }
  }

  lemma {:induction false} DecodedAppend(a: string, b: string)
    requires Complete(a) && Complete(b)
    ensures Complete(a + b) && Decoded(a + b) == Decoded(a) + Decoded(b)
    decreases |a|
  {
    hide Ungroup, IsBreak;
    if a == [] {
      assert a + b == b;
    } else if IsBreak(a[0]) {
      assert (a + b)[1..] == a[1..] + b;
      DecodedAppend(a[1..], b);
    } else {
      assert (a + b)[4..] == a[4..] + b;
      DecodedAppend(a[4..], b);
    }
  }

  lemma {:induction false} OnlyBreaks(breaks: string)
    requires forall i :: 0 <= i < |breaks| ==> IsBreak(breaks[i])
    ensures Complete(breaks) && Decoded(breaks) == []
  {
    if breaks != [] {
      OnlyBreaks(breaks[1..]);
    }
  }

  /** Lines may be broken between groups. */
  lemma BreaksAreIgnored(a: seq<Byte>, b: seq<Byte>, breaks: string)
    requires |a| % 3 == 0 && forall i :: 0 <= i < |breaks| ==> IsBreak(breaks[i])
    ensures Encoded(a + b) == Encoded(a) + Encoded(b)
    ensures Complete(Encoded(a) + breaks + Encoded(b)) && Decoded(Encoded(a) + breaks + Encoded(b)) == a + b
  {
    hide Encoded, Decoded, Complete;
    EncodedAppend(a, b);
    DecodeInverse(a);
    DecodeInverse(b);
    OnlyBreaks(breaks);
    DecodedAppend(Encoded(a), breaks);
    DecodedAppend(Encoded(a) + breaks, Encoded(b));
  }
}

/** Reading what FastWriter wrote. */
module JsonRoundTrip {
  import opened Common
  import opened JsonValue
  import opened JsonWriter
  import opened JsonGrammar
  import JsonReader

  // ---------- What comes back ----------

  const LEAST_INT: int := -2147483639      // below it the reader makes a double
  const GREATEST_UINT: int := 4294967289   // above it, too

  /** The value that is read where v was written. */
  function Read(v: Value): Value {
    match v
    case Int(i) => if i < LEAST_INT then Real(IntText(i)) else v
    case UInt(u) => if u <= MAX_INT then Int(u) else if u > GREATEST_UINT then Real(IntText(u)) else v
    case Arr(elems) => Arr(ReadAll(elems))
    case Obj(members) => Obj(ReadMembersOf(members))
    case _ => v
  }

  function ReadAll(elems: seq<Value>): (r: seq<Value>)
    ensures |r| == |elems| && forall i :: 0 <= i < |elems| ==> r[i] == Read(elems[i])
  {
    if elems == [] then [] else [Read(elems[0])] + ReadAll(elems[1..])
  }

  function ReadMembersOf(members: seq<Member>): (r: seq<Member>)
    ensures |r| == |members|
    ensures forall i :: 0 <= i < |members| ==> r[i] == Member(members[i].name, Read(members[i].value))
  {
    if members == [] then [] else [Member(members[0].name, Read(members[0].value))] + ReadMembersOf(members[1..])
  }

  /** The values that come back as they were. */
  predicate Representable(v: Value) {
    match v
    case Int(i) => i >= LEAST_INT
    case UInt(u) => MAX_INT < u <= GREATEST_UINT
    case Arr(elems) => forall i :: 0 <= i < |elems| ==> Representable(elems[i])
    case Obj(members) => forall i :: 0 <= i < |members| ==> Representable(members[i].value)
    case _ => true
  }

  lemma {:induction false} ReadIsSame(v: Value)
    ensures Read(v) == v <==> Representable(v)
  {
    match v
    case Arr(elems) =>
      forall i | 0 <= i < |elems| ensures Read(elems[i]) == elems[i] <==> Representable(elems[i]) {
        ReadIsSame(elems[i]);
      }
      if Representable(v) {
        assert ReadAll(elems) == elems;
      } else {
        var i :| 0 <= i < |elems| && !Representable(elems[i]);
        assert ReadAll(elems)[i] != elems[i];
      }
    case Obj(members) =>
      forall i | 0 <= i < |members| ensures Read(members[i].value) == members[i].value <==> Representable(members[i].value) {
        ReadIsSame(members[i].value);
      }
      if Representable(v) {
        assert ReadMembersOf(members) == members;
      } else {
        var i :| 0 <= i < |members| && !Representable(members[i].value);
        assert ReadMembersOf(members)[i] != members[i];
      }
    case _ =>
  }

  // ---------- Numbers ----------

  predicate AllDigits(s: string) {
    forall i :: 0 <= i < |s| ==> IsDigit(s[i])
  }

  lemma {:induction false} DigitsAreDigits(n: nat)
    ensures |Digits(n)| > 0 && AllDigits(Digits(n))
  {
    if n >= 10 {
      DigitsAreDigits(n / 10);
    }
  }

  /** The loop stops early exactly if a number that is not its last digits is at the threshold or above. */
  lemma {:induction false} AccumulateAppend(a: string, c: char, value: nat, threshold: nat)
    requires AllDigits(a) && IsDigit(c)
    ensures Accumulate(a + [c], value, threshold) ==
            match Accumulate(a, value, threshold)
            case Number(n) => if n >= threshold then TooBig else Number(n * 10 + (c as int - '0' as int))
            case x => x
    decreases |a|
  {
    if a == "" {
      assert a + [c] == [c] && [c][1..] == "";
    } else {
      assert (a + [c])[1..] == a[1..] + [c];
      if value < threshold {
        AccumulateAppend(a[1..], c, value * 10 + (a[0] as int - '0' as int), threshold);
      }
    }
  }

  lemma {:induction false} AccumulateDigits(n: nat, threshold: nat)
    requires threshold > 0
    ensures Accumulate(Digits(n), 0, threshold) == if n / 10 >= threshold then TooBig else Number(n)
    decreases n
  {
    if n < 10 {
      assert Digits(n)[1..] == "";
    } else {
      DigitsAreDigits(n / 10);
      AccumulateDigits(n / 10, threshold);
      AccumulateAppend(Digits(n / 10), DigitChar(n % 10), 0, threshold);
    }
  }

  lemma DigitsLookInteger(d: string, text: string)
    requires AllDigits(d) && |d| > 0 && (text == d || text == "-" + d)
    ensures !LooksDouble(text) && ScansDouble(text) && (text[0] == '-' <==> text != d)
  {
    assert text != d ==> text[1..] == d;
    assert text != d ==> forall i :: 0 < i < |text| ==> text[i] == d[i - 1];
  }

  /** decodeNumber of a written integer; a magnitude that is too big for its loop becomes a double. */
  lemma DecodeInteger(i: int)
    requires MIN_INT <= i <= MAX_UINT
    ensures IntText(i) != "" && DecodeNumber(IntText(i)) ==
            Some(if i < LEAST_INT || i > GREATEST_UINT then Real(IntText(i)) else if i <= MAX_INT then Int(i) else UInt(i))
  {
    var n := if i < 0 then -i else i;
    DigitsAreDigits(n);
    DigitsLookInteger(Digits(n), IntText(i));
    hide Digits, LooksDouble, ScansDouble, Accumulate;
    if i < 0 {
      assert IntText(i)[1..] == Digits(n);
      AccumulateDigits(n, NEGATIVE_THRESHOLD);
    } else {
      AccumulateDigits(n, POSITIVE_THRESHOLD);
    }
  }

  // ---------- Tokens ----------

  /** What follows does not look like more of a number. */
  predicate Delimited(suffix: string) {
    suffix != "" && !IsNumberChar(suffix[0])
  }

  lemma {:induction false} SkipNumberDigits(d: string, suffix: string)
    requires AllDigits(d) && Delimited(suffix)
    ensures SkipNumber(d + suffix) == suffix
    decreases |d|
  {
    if d == "" {
      assert d + suffix == suffix;
    } else {
      assert (d + suffix)[1..] == d[1..] + suffix;
      SkipNumberDigits(d[1..], suffix);
    }
  }

  /** A token that is not a comment and has no space before it. */
  lemma OneToken(text: string, suffix: string, kind: Kind)
    requires text != "" && !IsSpace(text[0]) && kind != Comment
    requires Scan(text[0], text[1..] + suffix) == (kind, suffix)
    ensures ReadToken(text + suffix) == NextToken(text + suffix) == Token(kind, text, suffix)
  {
    hide Scan, IsSpace;
    var s := text + suffix;
    assert s[0] == text[0] && s[1..] == text[1..] + suffix && s[..|s| - |suffix|] == text;
  }

  lemma NumberScan(c: char, r: string)
    requires IsDigit(c) || c == '-'
    ensures !IsSpace(c) && Scan(c, r) == (Kind.NumberToken, SkipNumber(r))
  {
  }

  lemma NumberToken(d: string, text: string, suffix: string)
    requires AllDigits(d) && |d| > 0 && (text == d || text == "-" + d) && Delimited(suffix)
    ensures ReadToken(text + suffix) == NextToken(text + suffix) == Token(Kind.NumberToken, text, suffix)
  {
    hide IsSpace, Scan, SkipNumber, Delimited, NextToken, ReadToken;
    assert AllDigits(text[1..]) by {
      if text != d {
        assert text[1..] == d;
      }
    }
    SkipNumberDigits(text[1..], suffix);
    NumberScan(text[0], text[1..] + suffix);
    OneToken(text, suffix, Kind.NumberToken);
  }

  predicate IsMark(c: char) {
    c == '{' || c == '}' || c == '[' || c == ']' || c == ',' || c == ':'
  }

  function MarkKind(c: char): Kind {
    match c
    case '{' => ObjectBegin
    case '}' => ObjectEnd
    case '[' => ArrayBegin
    case ']' => ArrayEnd
    case ',' => ArraySeparator
    case _ => MemberSeparator
  }

  lemma MarkScan(c: char, r: string)
    requires IsMark(c)
    ensures !IsSpace(c) && Scan(c, r) == (MarkKind(c), r)
  {
  }

  /** A one-character token. */
  lemma MarkToken(c: char, suffix: string)
    requires IsMark(c)
    ensures ReadToken([c] + suffix) == NextToken([c] + suffix) == Token(MarkKind(c), [c], suffix)
  {
    hide Scan, IsSpace, IsMark, NextToken, ReadToken;
    MarkScan(c, suffix);
    assert [c][1..] + suffix == suffix;
    MarkIsNoComment(c);
    OneToken([c], suffix, MarkKind(c));
  }

  lemma MarkIsNoComment(c: char)
    ensures MarkKind(c) != Comment
  {
  }

  function WordKind(word: string): Kind {
    if word == "true" then TrueToken else if word == "false" then FalseToken else NullToken
  }

  lemma WordScan(word: string, suffix: string)
    requires word == "true" || word == "false" || word == "null"
    ensures !IsSpace(word[0]) && Scan(word[0], word[1..] + suffix) == (WordKind(word), suffix)
  {
    var r := word[1..] + suffix;
    assert word[1..] <= r && r[|word| - 1..] == suffix;
  }

  lemma WordToken(word: string, suffix: string)
    requires word == "true" || word == "false" || word == "null"
    ensures ReadToken(word + suffix) == NextToken(word + suffix) == Token(WordKind(word), word, suffix)
  {
    hide Scan, IsSpace, NextToken, ReadToken;
    WordScan(word, suffix);
    OneToken(word, suffix, WordKind(word));
  }

  // ---------- Strings ----------

  lemma EscapeIsSkipped(c: char, t: string)
    ensures SkipString(Escape(c) + t) == SkipString(t)
  {
    var e := Escape(c);
    if |e| == 1 {
      assert (e + t)[1..] == t;
    } else if |e| == 2 {
      assert (e + t)[2..] == t;
    } else {
      UnicodeIsSkipped(e, t);
    }
  }

  lemma PlainIsSkipped(c: char, t: string)
    requires c != '\\' && c != '"'
    ensures SkipString([c] + t) == SkipString(t)
  {
    assert ([c] + t)[1..] == t;
  }

  /** After the backslash and the u the digits are skipped one by one. */
  lemma UnicodeIsSkipped(e: string, t: string)
    requires |e| == 6 && e[0] == '\\' && forall i :: 2 <= i < 6 ==> e[i] != '\\' && e[i] != '"'
    ensures SkipString(e + t) == SkipString(t)
  {
    var t3 := [e[5]] + t;
    var t2 := [e[4]] + t3;
    var t1 := [e[3]] + t2;
    assert (e + t)[2..] == [e[2]] + t1;
    PlainIsSkipped(e[2], t1);
    PlainIsSkipped(e[3], t2);
    PlainIsSkipped(e[4], t3);
    PlainIsSkipped(e[5], t);
  }

  lemma {:induction false} SkipEscaped(s: string, t: string)
    ensures SkipString(Escaped(s) + ("\"" + t)) == (true, t)
  {
    hide Escape;
    if s == "" {
      assert Escaped(s) + ("\"" + t) == "\"" + t;
      assert ("\"" + t)[1..] == t;
    } else {
      assert Escaped(s) + ("\"" + t) == Escape(s[0]) + (Escaped(s[1..]) + ("\"" + t));
      EscapeIsSkipped(s[0], Escaped(s[1..]) + ("\"" + t));
      SkipEscaped(s[1..], t);
    }
  }

  lemma PlainIsDecoded(c: char, t: string)
    requires c != '"' && c != '\\'
    ensures DecodeChars([c] + t) == if DecodeChars(t).Some? then Some([c] + DecodeChars(t).value) else None
  {
    assert ([c] + t)[1..] == t;
  }

  lemma SimpleIsDecoded(e: char, c: char, t: string)
    requires SimpleEscape(e) == Some(c) && e != 'u'
    ensures DecodeChars(['\\', e] + t) == if DecodeChars(t).Some? then Some([c] + DecodeChars(t).value) else None
  {
    assert (['\\', e] + t)[2..] == t;
  }

  /** Decoding one escaped character gives it back. */
  lemma EscapeIsDecoded(c: char, t: string)
    requires c != '\0'
    ensures DecodeChars(Escape(c) + t) == if DecodeChars(t).Some? then Some([c] + DecodeChars(t).value) else None
  {
    hide DecodeChars;
    var e := Escape(c);
    if |e| == 1 {
      PlainIsDecoded(c, t);
    } else if |e| == 2 {
      SimpleIsDecoded(e[1], c, t);
      assert e == ['\\', e[1]];
    } else {
      UnicodeIsDecoded(c, t);
    }
  }

  lemma UnicodeIsDecoded(c: char, t: string)
    requires '\0' < c <= 0x1F as char
    ensures var e := "\\u00" + [HexChar(c as int / 16), HexChar(c as int % 16)];
            DecodeChars(e + t) == if DecodeChars(t).Some? then Some([c] + DecodeChars(t).value) else None
  {
    var e := "\\u00" + [HexChar(c as int / 16), HexChar(c as int % 16)];
    var s := e + t;
    var h := s[2..];
    assert h[0] == '0' && h[1] == '0' && h[2] == HexChar(c as int / 16) && h[3] == HexChar(c as int % 16) && h[4..] == t;
    assert HexValue('0') == Some(0);
    HexInverse(c as int / 16);
    HexInverse(c as int % 16);
    assert DecodeHex4(h) == Ok(c as int, t);
    assert DecodeCodePoint(h) == Ok(c as int, t);
    assert CodePointToUTF8(c as int) == [c];
  }

  lemma HexInverse(d: nat)
    requires d < 16
    ensures HexValue(HexChar(d)) == Some(d)
  {
  }

  lemma {:induction false} EscapedIsDecoded(s: string)
    requires NulFree(s)
    ensures DecodeChars(Escaped(s)) == Some(s)
  {
    hide Escape;
    if s != "" {
      EscapeIsDecoded(s[0], Escaped(s[1..]));
      EscapedIsDecoded(s[1..]);
      assert s == [s[0]] + s[1..];
    }
  }

  lemma StringScan(r: string, rest: string)
    requires SkipString(r) == (true, rest)
    ensures !IsSpace('"') && Scan('"', r) == (StringToken, rest)
  {
    hide SkipString;
  }

  /** A quoted string is one token, and decodes to the string. */
  lemma QuotedToken(s: string, suffix: string)
    requires NulFree(s)
    ensures ReadToken(Quoted(s) + suffix) == NextToken(Quoted(s) + suffix) == Token(StringToken, Quoted(s), suffix)
    ensures DecodeString(Quoted(s)) == Some(s)
  {
    CStringNulFree(s);
    hide CString, Escaped, SkipString, DecodeChars, Scan, NextToken, ReadToken, IsSpace;
    var q := Quoted(s);
    SkipEscaped(s, suffix);
    EscapedIsDecoded(s);
    assert q[0] == '"' && q[1..] + suffix == Escaped(s) + ("\"" + suffix);
    assert q[1..|q| - 1] == Escaped(s);
    StringScan(q[1..] + suffix, suffix);
    OneToken(q, suffix, StringToken);
  }

  // ---------- Values ----------

  lemma WordRoundTrip(v: Value, suffix: string)
    requires v.Null? || v.Bool?
    ensures ReadValue(Text(v) + suffix) == Ok(Read(v), suffix)
  {
    hide NextToken, DecodeString, DecodeNumber;
    WordToken(if v.Null? then "null" else if v.b then "true" else "false", suffix);
  }

  lemma NumberRoundTrip(v: Value, suffix: string)
    requires Writable(v) && (v.Int? || v.UInt?) && Delimited(suffix)
    ensures ReadValue(Text(v) + suffix) == Ok(Read(v), suffix)
  {
    hide NextToken, DecodeString, DecodeNumber, IntText, Delimited;
    IntegerRoundTrip(if v.Int? then v.i else v.u, suffix);
  }

  lemma StringRoundTrip(s: string, suffix: string)
    requires NulFree(s)
    ensures ReadValue(Text(Str(s)) + suffix) == Ok(Read(Str(s)), suffix)
  {
    hide NextToken, DecodeString, DecodeNumber, Quoted, CString;
    QuotedToken(s, suffix);
    CStringNulFree(s);
  }

  lemma {:induction false} RoundTrip(v: Value, suffix: string)
    requires Writable(v) && Delimited(suffix)
    ensures ReadValue(Text(v) + suffix) == Ok(Read(v), suffix)
    decreases v, 0
  {
    hide ReadValue, Text, ReadArray, ReadMembers, ElemsText, MembersText, Delimited;
    if v.Arr? {
      ArrayRoundTrip(v.elems, suffix);
      OpenArray(v.elems, suffix);
    } else if v.Obj? {
      ObjectRoundTrip(v.members, suffix);
      OpenObject(v.members, suffix);
    } else if v.Str? {
      StringRoundTrip(v.s, suffix);
    } else if v.Int? || v.UInt? {
      NumberRoundTrip(v, suffix);
    } else {
      WordRoundTrip(v, suffix);
    }
  }

  lemma OpenArray(elems: seq<Value>, suffix: string)
    ensures ReadValue(Text(Arr(elems)) + suffix) == ReadArray(ElemsText(elems, 0) + ("]" + suffix))
  {
    hide NextToken, ReadArray, ElemsText;
    MarkToken('[', ElemsText(elems, 0) + ("]" + suffix));
    assert Text(Arr(elems)) + suffix == "[" + (ElemsText(elems, 0) + ("]" + suffix));
  }

  lemma OpenObject(members: seq<Member>, suffix: string)
    ensures ReadValue(Text(Obj(members)) + suffix) == ReadMembers(MembersText(members, 0) + ("}" + suffix), [], "")
  {
    hide NextToken, ReadMembers, MembersText;
    MarkToken('{', MembersText(members, 0) + ("}" + suffix));
    assert Text(Obj(members)) + suffix == "{" + (MembersText(members, 0) + ("}" + suffix));
  }

  lemma IntegerRoundTrip(i: int, suffix: string)
    requires MIN_INT <= i <= MAX_UINT && Delimited(suffix)
    ensures var t := NextToken(IntText(i) + suffix);
            && t.kind == Kind.NumberToken && t.rest == suffix && t.text == IntText(i)
            && DecodeNumber(t.text) == Some(if i < LEAST_INT || i > GREATEST_UINT then Real(IntText(i))
                                            else if i <= MAX_INT then Int(i) else UInt(i))
  {
    var n := if i < 0 then -i else i;
    DigitsAreDigits(n);
    NumberToken(Digits(n), IntText(i), suffix);
    DecodeInteger(i);
  }

  /** No text starts with a bracket that closes, or with a space. */
  lemma TextStarts(v: Value)
    requires Writable(v)
    ensures Text(v) != "" && Text(v)[0] != ']' && !IsSpace(Text(v)[0])
  {
    if v.Int? || v.UInt? {
      var i := if v.Int? then v.i else v.u;
      DigitsAreDigits(if i < 0 then -i else i);
    }
  }

  lemma NotSpace(s: string)
    requires s != "" && !IsSpace(s[0])
    ensures SkipSpaces(s) == s
  {
  }

  /** What follows element i. */
  function AfterElem(elems: seq<Value>, i: nat, suffix: string): string
    requires i < |elems|
  {
    ElemsText(elems, i + 1) + ("]" + suffix)
  }

  lemma FirstElem(elems: seq<Value>, suffix: string)
    requires |elems| > 0
    ensures ElemsText(elems, 0) + ("]" + suffix) == Text(elems[0]) + AfterElem(elems, 0, suffix)
  {
    hide Text, ElemsText;
    ElemsTextAt(elems, 0);
    Regroup("", Text(elems[0]), ElemsText(elems, 1), "]" + suffix);
    assert "" + (Text(elems[0]) + AfterElem(elems, 0, suffix)) == Text(elems[0]) + AfterElem(elems, 0, suffix);
  }

  lemma AfterElemIs(elems: seq<Value>, i: nat, suffix: string)
    requires i < |elems|
    ensures i + 1 == |elems| ==> AfterElem(elems, i, suffix) == "]" + suffix
    ensures i + 1 < |elems| ==> AfterElem(elems, i, suffix) == "," + (Text(elems[i + 1]) + AfterElem(elems, i + 1, suffix))
  {
    hide Text, ElemsText;
    ElemsTextAt(elems, i + 1);
    if i + 1 < |elems| {
      Regroup(",", Text(elems[i + 1]), ElemsText(elems, i + 2), "]" + suffix);
    } else {
      assert "" + ("]" + suffix) == "]" + suffix;
    }
  }

  lemma ElemsTextAt(elems: seq<Value>, i: nat)
    requires i <= |elems|
    ensures i == |elems| ==> ElemsText(elems, i) == ""
    ensures i < |elems| ==> ElemsText(elems, i) == (if i > 0 then "," else "") + Text(elems[i]) + ElemsText(elems, i + 1)
  {
  }

  lemma Regroup(a: string, b: string, c: string, d: string)
    ensures (a + b + c) + d == a + (b + (c + d))
  {
  }

  lemma ArrayRoundTrip(elems: seq<Value>, suffix: string)
    requires forall i :: 0 <= i < |elems| ==> Writable(elems[i])
    ensures ReadArray(ElemsText(elems, 0) + ("]" + suffix)) == Ok(Arr(ReadAll(elems)), suffix)
    decreases elems, |elems| + 2
  {
    hide ReadElems, Text, Read, SkipSpaces;
    var s := ElemsText(elems, 0) + ("]" + suffix);
    if elems == [] {
      assert s == "]" + suffix && s[1..] == suffix;
      MarkScan(s[0], suffix);
      NotSpace(s);
    } else {
      hide ElemsText, AfterElem;
      TextStarts(elems[0]);
      FirstElem(elems, suffix);
      assert s == Text(elems[0]) + AfterElem(elems, 0, suffix);
      assert s[0] == Text(elems[0])[0];
      NotSpace(s);
      ElemsRoundTrip(elems, 0, suffix);
      assert ReadAll(elems)[..0] == [];
    }
  }

  /** The loop of readArray, once. */
  lemma ElemStep(s: string, elems: seq<Value>, v: Value, after: string, mark: char, rest: string)
    requires ReadValue(s) == Ok(v, after) && after == [mark] + rest && IsMark(mark)
    ensures ReadElems(s, elems) == if mark == ']' then Ok(Arr(elems + [v]), rest) else ReadElems(rest, elems + [v])
  {
    hide ReadValue, NextToken, ReadToken;
    MarkToken(mark, rest);
  }

  /** From element i on, with those before it read. */
  lemma {:induction false} ElemsRoundTrip(elems: seq<Value>, i: nat, suffix: string)
    requires i < |elems| && forall i :: 0 <= i < |elems| ==> Writable(elems[i])
    ensures ReadElems(Text(elems[i]) + AfterElem(elems, i, suffix), ReadAll(elems)[..i]) == Ok(Arr(ReadAll(elems)), suffix)
    decreases elems, |elems| - i
  {
    hide ReadElems, ReadValue, Text, Read, ReadAll, ElemsText, AfterElem;
    var after := AfterElem(elems, i, suffix);
    AfterElemIs(elems, i, suffix);
    var all := ReadAll(elems);
    assert all[..i] + [all[i]] == all[..i + 1];
    RoundTrip(elems[i], after);
    if i + 1 == |elems| {
      ElemStep(Text(elems[i]) + after, all[..i], all[i], after, ']', suffix);
      assert all[..i + 1] == all;
    } else {
      ElemStep(Text(elems[i]) + after, all[..i], all[i], after, ',', Text(elems[i + 1]) + AfterElem(elems, i + 1, suffix));
      ElemsRoundTrip(elems, i + 1, suffix);
    }
  }

  /** A member, and what follows it. */
  function FromMember(members: seq<Member>, i: nat, suffix: string): string
    requires i < |members|
  {
    Quoted(members[i].name) + (":" + (Text(members[i].value) + AfterMember(members, i, suffix)))
  }

  function AfterMember(members: seq<Member>, i: nat, suffix: string): string
    requires i < |members|
  {
    MembersText(members, i + 1) + ("}" + suffix)
  }

  lemma FirstMember(members: seq<Member>, suffix: string)
    requires |members| > 0
    ensures MembersText(members, 0) + ("}" + suffix) == FromMember(members, 0, suffix)
  {
    hide Text, Quoted, MembersText, FromMember;
    MembersTextAt(members, 0);
    FromMemberIs(members, 0, "", suffix);
    assert "" + FromMember(members, 0, suffix) == FromMember(members, 0, suffix);
  }

  lemma AfterMemberIs(members: seq<Member>, i: nat, suffix: string)
    requires i < |members|
    ensures i + 1 == |members| ==> AfterMember(members, i, suffix) == "}" + suffix
    ensures i + 1 < |members| ==> AfterMember(members, i, suffix) == "," + FromMember(members, i + 1, suffix)
  {
    hide Text, Quoted, MembersText, FromMember;
    MembersTextAt(members, i + 1);
    if i + 1 < |members| {
      FromMemberIs(members, i + 1, ",", suffix);
    } else {
      assert "" + ("}" + suffix) == "}" + suffix;
    }
  }

  lemma MembersTextAt(members: seq<Member>, i: nat)
    requires i <= |members|
    ensures i == |members| ==> MembersText(members, i) == ""
    ensures i < |members| ==>
              MembersText(members, i) == (if i > 0 then "," else "") +
                (Quoted(members[i].name) + ":" + Text(members[i].value)) + MembersText(members, i + 1)
  {
  }

  lemma FromMemberIs(members: seq<Member>, i: nat, comma: string, suffix: string)
    requires i < |members|
    ensures comma + (Quoted(members[i].name) + ":" + Text(members[i].value)) + MembersText(members, i + 1) + ("}" + suffix)
         == comma + FromMember(members, i, suffix)
  {
    hide Text, Quoted, MembersText;
    var q, t, r, end := Quoted(members[i].name), Text(members[i].value), MembersText(members, i + 1), "}" + suffix;
    Regroup(comma, q + ":" + t, r, end);
    Regroup(q, ":", t, r + end);
  }

  lemma ObjectRoundTrip(members: seq<Member>, suffix: string)
    requires Writable(Obj(members))
    ensures ReadMembers(MembersText(members, 0) + ("}" + suffix), [], "") == Ok(Obj(ReadMembersOf(members)), suffix)
    decreases members, |members| + 2
  {
    if members == [] {
      NoMembers(suffix);
    } else {
      hide ReadMembers, Text, Read, Writable, Quoted, MembersText, FromMember;
      FirstMember(members, suffix);
      MembersRoundTrip(members, 0, "", suffix);
      assert ReadMembersOf(members)[..0] == [];
    }
  }

  lemma NoMembers(suffix: string)
    ensures ReadMembers(MembersText([], 0) + ("}" + suffix), [], "") == Ok(Obj([]), suffix)
  {
    hide NextToken, ReadToken, ReadValue, DecodeString, Insert;
    MarkToken('}', suffix);
    assert MembersText([], 0) + ("}" + suffix) == "}" + suffix;
  }

  /** The loop of readObject, once. */
  lemma MemberStep(members: seq<Member>, name: string, m: Member, body: string, after: string, mark: char, rest: string)
    requires NulFree(m.name) && ReadValue(body) == Ok(m.value, after)
    requires after == [mark] + rest && (mark == '}' || mark == ',')
    ensures ReadMembers(Quoted(m.name) + (":" + body), members, name) ==
            if mark == '}' then Ok(Obj(Insert(members, m)), rest) else ReadMembers(rest, Insert(members, m), m.name)
  {
    hide ReadValue, NextToken, ReadToken, Quoted, DecodeString, Insert, CString;
    QuotedToken(m.name, ":" + body);
    CStringNulFree(m.name);
    MarkToken(':', body);
    MarkToken(mark, rest);
  }

  /** From member i on, with those before it in the map. */
  lemma {:induction false} MembersRoundTrip(members: seq<Member>, i: nat, name: string, suffix: string)
    requires i < |members| && Writable(Obj(members))
    ensures ReadMembers(FromMember(members, i, suffix), ReadMembersOf(members)[..i], name) ==
            Ok(Obj(ReadMembersOf(members)), suffix)
    decreases members, |members| - i
  {
    hide ReadMembers, ReadValue, Text, Read, Quoted, Insert, Less, ReadMembersOf, MembersText, AfterMember;
    var m := members[i];
    var after := AfterMember(members, i, suffix);
    AfterMemberIs(members, i, suffix);
    var all := ReadMembersOf(members);
    InsertLast(all[..i], all[i]);
    assert all[..i] + [all[i]] == all[..i + 1];
    RoundTrip(m.value, after);
    if i + 1 == |members| {
      MemberStep(all[..i], name, all[i], Text(m.value) + after, after, '}', suffix);
      assert all[..i + 1] == all;
    } else {
      MemberStep(all[..i], name, all[i], Text(m.value) + after, after, ',', FromMember(members, i + 1, suffix));
      MembersRoundTrip(members, i + 1, m.name, suffix);
    }
  }

  /** What write writes, parse reads: the value itself up to the integers at the limits. */
  lemma ParseInverse(v: Value)
    requires Writable(v)
    ensures Parse(Text(v) + "\n") == Some(Read(v))
  {
    RoundTrip(v, "\n");
  }

  /** A value comes back as it was if and only if its integers are ones the reader makes integers of the same kind. */
  lemma ParseExact(v: Value)
    requires Writable(v)
    ensures Parse(Text(v) + "\n") == Some(v) <==> Representable(v)
  {
    ParseInverse(v);
    ReadIsSame(v);
  }

  /** FastWriter::write and then Reader::parse. */
  method WriteThenParse(v: Value) returns (successful: bool, root: Value)
    requires Writable(v)
    ensures successful && root == Read(v)
  {
    hide *;
    var writer := new FastWriter();
    var text := writer.Write(v);
    var reader := new JsonReader.Reader(text);
    StartOf(reader);
    successful, root := reader.Parse();
    ParseInverse(v);
  }

  lemma StartOf(reader: JsonReader.Reader)
    requires reader.current == 0
    ensures reader.Valid()
  {
  }

  // ---------- What else the reader accepts ----------

  /** The elements of an array may be separated by a colon as well as by a comma. */
  lemma ColonSeparates(v: Value, w: Value)
    requires Writable(v) && Writable(w)
    ensures ReadElems(Text(v) + (":" + (Text(w) + "]")), []) == Ok(Arr([Read(v), Read(w)]), "")
  {
    hide ReadValue, NextToken, Text, Read, Writable;
    var rest := Text(w) + "]";
    RoundTrip(v, ":" + rest);
    MarkToken(':', rest);
    RoundTrip(w, "]");
    assert "]" == "]" + "";
    MarkToken(']', "");
    assert [] + [Read(v)] == [Read(v)] && [Read(v)] + [Read(w)] == [Read(v), Read(w)];
    assert ReadElems(rest, [Read(v)]) == Ok(Arr([Read(v), Read(w)]), "");
  }
}

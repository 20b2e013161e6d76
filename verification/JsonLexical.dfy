/**
 * The lexical level of the JSON reader and writer, said without their functions: UTF-8, escapes, blanks, comments,
 * numbers and the order of names.
 */
module JsonLexical {
  import opened Common
  import opened JsonValue
  import opened JsonGrammar
  import opened JsonWriter
  import opened JsonRoundTrip

  // ---------- UTF-8 (section 3 of RFC 3629) ----------

  /** The number the bits of a UTF-8 sequence stand for, by the class of its first byte. */
  function Utf8Value(b: string): int
    requires 1 <= |b| <= 4
  {
    if |b| == 1 then b[0] as int
    else if |b| == 2 then (b[0] as int - 0xC0) * 0x40 + (b[1] as int - 0x80)
    else if |b| == 3 then (b[0] as int - 0xE0) * 0x1000 + (b[1] as int - 0x80) * 0x40 + (b[2] as int - 0x80)
    else (b[0] as int - 0xF0) * 0x4_0000 + (b[1] as int - 0x80) * 0x1000 + (b[2] as int - 0x80) * 0x40 + (b[3] as int - 0x80)
  }

  /** The first byte says how many follow, and each of those begins with the bits 10. */
  predicate IsUtf8(b: string) {
    && 1 <= |b| <= 4
    && (match |b|
        case 1 => b[0] as int <= 0x7F
        case 2 => 0xC0 <= b[0] as int <= 0xDF
        case 3 => 0xE0 <= b[0] as int <= 0xEF
        case _ => 0xF0 <= b[0] as int <= 0xF7)
    && forall i :: 1 <= i < |b| ==> 0x80 <= b[i] as int <= 0xBF
  }

  /** A code point becomes the UTF-8 sequence for it, of the length its range asks for. */
  lemma CodePointExact(cp: nat)
    requires cp <= 0x10FFFF
    ensures var b := CodePointToUTF8(cp);
            && IsUtf8(b) && Utf8Value(b) == cp
            && |b| == if cp < 0x80 then 1 else if cp < 0x800 then 2 else if cp < 0x1_0000 then 3 else 4
  {
    if cp > 0xFFFF {
      SplitFour(cp);
    } else if cp > 0x7FF {
      SplitThree(cp);
    }
  }

  lemma SplitThree(cp: nat)
    ensures cp == cp / 0x1000 * 0x1000 + cp / 0x40 % 0x40 * 0x40 + cp % 0x40
  {
    assert cp / 0x1000 == cp / 0x40 / 0x40;
  }

  lemma SplitFour(cp: nat)
    ensures cp == cp / 0x4_0000 * 0x4_0000 + cp / 0x1000 % 0x40 * 0x1000 + cp / 0x40 % 0x40 * 0x40 + cp % 0x40
  {
    SplitThree(cp);
    assert cp / 0x4_0000 == cp / 0x1000 / 0x40;
  }

  // ---------- Escapes ----------

  /** The digits of both cases have their values, and nothing else has one. */
  lemma HexValueExact(c: char)
    ensures HexValue(c).Some? <==> c in "0123456789abcdefABCDEF"
    ensures forall i :: 0 <= i < 16 && (c == DIGITS[i] || (i >= 10 && c as int == DIGITS[i] as int - 0x20)) ==>
              HexValue(c) == Some(i)
  {
    var d := "0123456789abcdefABCDEF";
    if '0' <= c <= '9' {
      assert c == d[c as int - '0' as int];
    } else if 'a' <= c <= 'f' {
      assert c == d[c as int - 'a' as int + 10];
    } else if 'A' <= c <= 'F' {
      assert c == d[c as int - 'A' as int + 16];
    }
    forall i | 0 <= i < 16 && (c == DIGITS[i] || (i >= 10 && c as int == DIGITS[i] as int - 0x20))
      ensures HexValue(c) == Some(i)
    {
      DigitIs(i);
    }
  }

  /** Four digits, the high one first. */
  lemma Hex4Exact(a: nat, b: nat, c: nat, d: nat, rest: string)
    requires a < 16 && b < 16 && c < 16 && d < 16
    ensures DecodeHex4([DIGITS[a], DIGITS[b], DIGITS[c], DIGITS[d]] + rest) ==
            Ok(a * 0x1000 + b * 0x100 + c * 0x10 + d, rest)
  {
    HexValueAt(a);
    HexValueAt(b);
    HexValueAt(c);
    HexValueAt(d);
    Hex4Is(DIGITS[a], DIGITS[b], DIGITS[c], DIGITS[d], rest);
    hide DIGITS, HexValue, DecodeHex4;
  }

  lemma HexValueAt(i: nat)
    requires i < 16
    ensures HexValue(DIGITS[i]) == Some(i)
  {
    hide HexValue;
    HexValueExact(DIGITS[i]);
  }

  lemma Hex4Is(a: char, b: char, c: char, d: char, rest: string)
    requires HexValue(a).Some? && HexValue(b).Some? && HexValue(c).Some? && HexValue(d).Some?
    ensures DecodeHex4([a, b, c, d] + rest) ==
            Ok(((HexValue(a).value * 16 + HexValue(b).value) * 16 + HexValue(c).value) * 16 + HexValue(d).value, rest)
  {
    hide HexValue;
    var s := [a, b, c, d] + rest;
    assert s[4..] == rest;
  }

  /** The escapes of one character, and no others. */
  lemma SimpleEscapeExact(c: char)
    ensures SimpleEscape('"') == Some(0x22 as char) && SimpleEscape('\\') == Some(0x5C as char)
    ensures SimpleEscape('/') == Some(0x2F as char) && SimpleEscape('b') == Some(0x08 as char)
    ensures SimpleEscape('f') == Some(0x0C as char) && SimpleEscape('n') == Some(0x0A as char)
    ensures SimpleEscape('r') == Some(0x0D as char) && SimpleEscape('t') == Some(0x09 as char)
    ensures c !in "\"\\/bfnrt" ==> SimpleEscape(c) == None
  {
    var s := "\"\\/bfnrt";
    assert s[0] == '"' && s[1] == '\\' && s[2] == '/' && s[3] == 'b' && s[4] == 'f' && s[5] == 'n' && s[6] == 'r' && s[7] == 't';
  }

  /** A string in quotes without quotes and backslashes is itself; an escape for a code point becomes its UTF-8. */
  lemma UnicodeDecoded(a: nat, b: nat, c: nat, d: nat, more: string)
    requires a < 16 && b < 16 && c < 16 && d < 16 && !(0xD800 <= a * 0x1000 + b * 0x100 + c * 0x10 + d <= 0xDBFF)
    ensures DecodeChars("\\u" + ([DIGITS[a], DIGITS[b], DIGITS[c], DIGITS[d]] + more)) ==
            match DecodeChars(more)
            case Some(t) => Some(CodePointToUTF8(a * 0x1000 + b * 0x100 + c * 0x10 + d) + t)
            case None => None
  {
    hide CodePointToUTF8, DecodeHex4;
    Hex4Exact(a, b, c, d, more);
    var s := [DIGITS[a], DIGITS[b], DIGITS[c], DIGITS[d]] + more;
    assert ("\\u" + s)[2..] == s;
  }

  /** Two escapes of which the first is a high surrogate. */
  lemma PairDecoded(u: nat, v: nat, first: string, second: string, more: string)
    requires DecodeHex4(first + ("\\u" + (second + more))) == Ok(u, "\\u" + (second + more)) && 0xD800 <= u <= 0xDBFF
    requires |second| == 4 && DecodeHex4(second + more) == Ok(v, more)
    ensures DecodeCodePoint(first + ("\\u" + (second + more))) == Ok(0x1_0000 + (u - 0xD800) * 0x400 + v % 0x400, more)
  {
    hide DecodeHex4;
    var rest := "\\u" + (second + more);
    assert rest[2..] == second + more;
    assert u % 0x400 == u - 0xD800;
  }

  /**
   * The reader does not look whether the second escape is a low surrogate: what it makes of the two is the code point of
   * section 2.2 of RFC 2781 exactly if it is one.
   */
  lemma SurrogatesExact(u: nat, v: nat, first: string, second: string, more: string)
    requires DecodeHex4(first + ("\\u" + (second + more))) == Ok(u, "\\u" + (second + more)) && 0xD800 <= u <= 0xDBFF
    requires |second| == 4 && DecodeHex4(second + more) == Ok(v, more)
    ensures var pair := 0x1_0000 + (u - 0xD800) * 0x400 + (v - 0xDC00);
            DecodeCodePoint(first + ("\\u" + (second + more))) == Ok(pair, more) <==> 0xDC00 <= v <= 0xDFFF
  {
    hide DecodeHex4, DecodeCodePoint;
    PairDecoded(u, v, first, second, more);
    if 0xDC00 <= v <= 0xDFFF {
      assert v % 0x400 == v - 0xDC00;
    }
  }

  /** "\\u00e9" and "\\u4f60" */
  lemma UnicodeSamples()
    ensures DecodeChars("\\u00e9") == Some([0xC3 as char, 0xA9 as char])
    ensures DecodeChars("\\u4f60") == Some([0xE4 as char, 0xBD as char, 0xA0 as char])
  {
    DigitSamples();
    Utf8Samples();
    OneEscape(0, 0, 14, 9);
    OneEscape(4, 15, 6, 0);
    hide DIGITS, CodePointToUTF8, DecodeChars;
    assert "\\u" + [DIGITS[0], DIGITS[0], DIGITS[14], DIGITS[9]] == "\\u00e9";
    assert "\\u" + [DIGITS[4], DIGITS[15], DIGITS[6], DIGITS[0]] == "\\u4f60";
  }

  lemma OneEscape(a: nat, b: nat, c: nat, d: nat)
    requires a < 16 && b < 16 && c < 16 && d < 16 && !(0xD800 <= a * 0x1000 + b * 0x100 + c * 0x10 + d <= 0xDBFF)
    ensures DecodeChars("\\u" + [DIGITS[a], DIGITS[b], DIGITS[c], DIGITS[d]]) ==
            Some(CodePointToUTF8(a * 0x1000 + b * 0x100 + c * 0x10 + d))
  {
    UnicodeDecoded(a, b, c, d, "");
    assert DecodeChars("") == Some("");
    hide DIGITS, CodePointToUTF8, DecodeChars;
    var digits := [DIGITS[a], DIGITS[b], DIGITS[c], DIGITS[d]];
    var u := CodePointToUTF8(a * 0x1000 + b * 0x100 + c * 0x10 + d);
    assert digits + "" == digits && u + "" == u;
  }

  lemma DigitSamples()
    ensures DIGITS[0] == '0' && DIGITS[4] == '4' && DIGITS[6] == '6' && DIGITS[9] == '9' && DIGITS[14] == 'e' && DIGITS[15] == 'f'
  {
  }

  lemma Utf8Samples()
    ensures CodePointToUTF8(0xE9) == [0xC3 as char, 0xA9 as char]
    ensures CodePointToUTF8(0x4F60) == [0xE4 as char, 0xBD as char, 0xA0 as char]
  {
  }

  /** What the writer escapes, and how: the others stand for themselves. */
  lemma EscapeExact(c: char)
    ensures Escape(0x22 as char) == "\\\"" && Escape(0x5C as char) == "\\\\" && Escape(0x08 as char) == "\\b"
    ensures Escape(0x0C as char) == "\\f" && Escape(0x0A as char) == "\\n" && Escape(0x0D as char) == "\\r"
    ensures Escape(0x09 as char) == "\\t" && Escape('/') == "/" && Escape('\0') == "\0"
    ensures c as int > 0x1F && c != '"' && c != '\\' ==> Escape(c) == [c]
    ensures 0 < c as int <= 0x1F && c as int !in {0x08, 0x09, 0x0A, 0x0C, 0x0D} ==>
              Escape(c) == "\\u00" + ["01"[c as int / 16], "0123456789ABCDEF"[c as int % 16]]
  {
    if 0 < c as int <= 0x1F {
      UpperDigit(c as int % 16);
    }
  }

  lemma UpperDigit(d: nat)
    requires d < 16
    ensures HexChar(d) == "0123456789ABCDEF"[d]
  {
    if d < 10 {
      LowUpper(d);
    } else {
      HighUpper(d);
    }
  }

  lemma LowUpper(d: nat)
    requires d < 10
    ensures "0123456789ABCDEF"[d] == ('0' as int + d) as char
  {
  }

  lemma HighUpper(d: nat)
    requires 10 <= d < 16
    ensures "0123456789ABCDEF"[d] == ('A' as int + (d - 10)) as char
  {
  }

  // ---------- Blanks and comments ----------

  /** The four characters that are skipped before a token. */
  lemma BlankExact(c: char, s: string)
    ensures SkipSpaces([c] + s) == if c as int in {0x20, 0x09, 0x0D, 0x0A} then SkipSpaces(s) else [c] + s
  {
    assert ([c] + s)[1..] == s;
  }

  /** No star is followed by a slash. */
  predicate NoEnd(s: string) {
    forall i :: 0 <= i < |s| - 1 ==> !(s[i] == '*' && s[i + 1] == '/')
  }

  lemma {:induction false} StarComment(body: string, rest: string)
    requires NoEnd(body + "*")
    ensures SkipCStyle(body + ("*/" + rest)) == (true, rest)
    decreases |body|
  {
    var s := body + ("*/" + rest);
    if body == "" {
      assert s == "*/" + rest && s[2..] == rest;
    } else {
      assert s[1..] == body[1..] + ("*/" + rest);
      assert (body + "*")[0] == body[0] && (body + "*")[1] == s[1];
      forall i | 0 <= i < |body[1..] + "*"| - 1 ensures !((body[1..] + "*")[i] == '*' && (body[1..] + "*")[i + 1] == '/') {
        assert (body[1..] + "*")[i] == (body + "*")[i + 1] && (body[1..] + "*")[i + 1] == (body + "*")[i + 2];
      }
      StarComment(body[1..], rest);
    }
  }

  lemma {:induction false} LineComment(body: string, end: char, rest: string)
    requires (forall i :: 0 <= i < |body| ==> body[i] as int !in {0x0A, 0x0D}) && end as int in {0x0A, 0x0D}
    ensures SkipLine(body + ([end] + rest)) == rest
    decreases |body|
  {
    var s := body + ([end] + rest);
    if body == "" {
      assert s == [end] + rest && s[1..] == rest;
    } else {
      assert s[1..] == body[1..] + ([end] + rest);
      LineComment(body[1..], end, rest);
    }
  }

  /** A comment ends at the first star with a slash behind it, or with its line, and is not a token. */
  lemma CommentExact(body: string, end: char, rest: string)
    ensures NoEnd(body + "*") ==>
              var s := "/*" + (body + ("*/" + rest));
              ReadToken(s).kind == Comment && ReadToken(s).rest == rest && NextToken(s) == NextToken(rest)
    ensures (forall i :: 0 <= i < |body| ==> body[i] as int !in {0x0A, 0x0D}) && end as int in {0x0A, 0x0D} ==>
              var s := "//" + (body + ([end] + rest));
              ReadToken(s).kind == Comment && ReadToken(s).rest == rest && NextToken(s) == NextToken(rest)
  {
    hide SkipCStyle, SkipLine;
    if NoEnd(body + "*") {
      StarComment(body, rest);
      CommentToken('*', body + ("*/" + rest), rest);
    }
    if (forall i :: 0 <= i < |body| ==> body[i] as int !in {0x0A, 0x0D}) && end as int in {0x0A, 0x0D} {
      LineComment(body, end, rest);
      CommentToken('/', body + ([end] + rest), rest);
    }
  }

  lemma CommentToken(c: char, s: string, rest: string)
    requires (c == '*' && SkipCStyle(s) == (true, rest)) || (c == '/' && SkipLine(s) == rest)
    ensures var t := ['/', c] + s;
            ReadToken(t).kind == Comment && ReadToken(t).rest == rest && NextToken(t) == NextToken(rest)
  {
    hide SkipCStyle, SkipLine;
    var t := ['/', c] + s;
    NotSpace(t);
    assert t[1..] == [c] + s && ([c] + s)[1..] == s;
    assert Scan('/', t[1..]) == (Comment, rest);
    hide Scan;
  }

  // ---------- Tokens ----------

  /** What a token can begin with; anything else is an error. */
  lemma ErrorExact(c: char, s: string)
    requires c as int !in {0x20, 0x09, 0x0D, 0x0A}
    ensures c !in "{}[],:\"/tfn-0123456789" && c != '\0' ==> ReadToken([c] + s) == Token(Error, [c], s)
    ensures c == '\0' ==> ReadToken([c] + s).kind == EndOfStream
  {
    var starts := "{}[],:\"/tfn-0123456789";
    if c !in starts && c != '\0' {
      assert forall i :: 12 <= i < 22 ==> c != starts[i];
      NoDigit(c);
      assert starts[0] == '{' && starts[1] == '}' && starts[2] == '[' && starts[3] == ']' && starts[4] == ',' && starts[5] == ':';
      assert starts[6] == '"' && starts[7] == '/' && starts[8] == 't' && starts[9] == 'f' && starts[10] == 'n' && starts[11] == '-';
    }
    NotSpace([c] + s);
    assert ([c] + s)[1..] == s;
  }

  lemma NoDigit(c: char)
    requires forall i :: 12 <= i < 22 ==> c != "{}[],:\"/tfn-0123456789"[i]
    ensures !IsDigit(c)
  {
    var starts := "{}[],:\"/tfn-0123456789";
    assert starts[12] == '0' && starts[13] == '1' && starts[14] == '2' && starts[15] == '3' && starts[16] == '4';
    assert starts[17] == '5' && starts[18] == '6' && starts[19] == '7' && starts[20] == '8' && starts[21] == '9';
  }

  /** The three words are values, whatever follows. */
  lemma WordsExact(s: string)
    ensures ReadValue("true" + s) == Ok(Bool(true), s) && ReadValue("false" + s) == Ok(Bool(false), s)
    ensures ReadValue("null" + s) == Ok(Null, s)
  {
    hide NextToken;
    WordToken("true", s);
    WordToken("false", s);
    WordToken("null", s);
  }

  // ---------- Strings ----------

  /** A backslash hides the character behind it from the search for the closing quote. */
  lemma BackslashHides(c: char, t: string)
    ensures SkipString("\\" + ([c] + t)) == SkipString(t)
  {
    var s := "\\" + ([c] + t);
    assert s[2..] == t;
  }

  predicate IsPlain(body: string) {
    forall i :: 0 <= i < |body| ==> body[i] != '"' && body[i] != '\\'
  }

  lemma {:induction false} PlainBody(body: string, rest: string)
    requires IsPlain(body)
    ensures SkipString(body + ("\"" + rest)) == (true, rest) && DecodeChars(body) == Some(body)
    decreases |body|
  {
    if body == "" {
      assert body + ("\"" + rest) == "\"" + rest && ("\"" + rest)[1..] == rest;
    } else {
      PlainBody(body[1..], rest);
      PlainIsSkipped(body[0], body[1..] + ("\"" + rest));
      PlainIsDecoded(body[0], body[1..]);
      assert body + ("\"" + rest) == [body[0]] + (body[1..] + ("\"" + rest));
      assert body == [body[0]] + body[1..];
    }
  }

  lemma PlainToken(body: string, rest: string)
    requires IsPlain(body)
    ensures var text := "\"" + body + "\"";
            NextToken(text + rest) == Token(StringToken, text, rest) && DecodeString(text) == Some(body)
  {
    PlainBody(body, rest);
    hide SkipString, DecodeChars, Scan, NextToken, ReadToken, IsSpace, IsPlain;
    var text := "\"" + body + "\"";
    assert text[1..] + rest == body + ("\"" + rest) && text[1..|text| - 1] == body;
    StringScan(text[1..] + rest, rest);
    OneToken(text, rest, StringToken);
  }

  /** A string without quotes and backslashes is read as it stands, up to its first NUL. */
  lemma PlainStringExact(body: string, rest: string)
    requires IsPlain(body)
    ensures ReadValue("\"" + (body + ("\"" + rest))) == Ok(Str(UpTo(body, '\0')), rest)
  {
    PlainToken(body, rest);
    hide NextToken, DecodeString, DecodeNumber, IsPlain, UpTo;
    assert "\"" + body + "\"" + rest == "\"" + (body + ("\"" + rest));
  }

  /** No other character may follow a backslash. */
  lemma BadEscape(c: char, t: string)
    requires c !in "\"\\/bfnrtu"
    ensures DecodeChars("\\" + ([c] + t)) == None
  {
    SimpleEscapeExact(c);
    var known, s := "\"\\/bfnrtu", "\"\\/bfnrt";
    assert known == s + "u";
    assert known[8] == 'u';
    hide SimpleEscape;
  }

  // ---------- Numbers ----------

  predicate InNumber(c: char) {
    c in "0123456789.eE+-"
  }

  lemma NumberCharIs(c: char)
    ensures IsNumberChar(c) <==> InNumber(c)
  {
    var s := "0123456789.eE+-";
    if '0' <= c <= '9' {
      assert c == s[c as int - '0' as int];
    }
    assert s[10] == '.' && s[11] == 'e' && s[12] == 'E' && s[13] == '+' && s[14] == '-';
  }

  lemma {:induction false} NumberEnds(text: string, suffix: string)
    requires forall i :: 0 <= i < |text| ==> InNumber(text[i])
    requires suffix == "" || !InNumber(suffix[0])
    ensures SkipNumber(text + suffix) == suffix
    decreases |text|
  {
    hide IsNumberChar, InNumber;
    if text == "" {
      assert text + suffix == suffix;
      if suffix != "" {
        NumberCharIs(suffix[0]);
      }
    } else {
      NumberCharIs(text[0]);
      assert (text + suffix)[0] == text[0] && (text + suffix)[1..] == text[1..] + suffix;
      NumberEnds(text[1..], suffix);
    }
  }

  /** A number is a digit or a minus and all that follows of the characters of a number. */
  lemma NumberExact(text: string, suffix: string)
    requires text != "" && ('0' <= text[0] <= '9' || text[0] == '-')
    requires forall i :: 0 <= i < |text| ==> InNumber(text[i])
    requires suffix == "" || !InNumber(suffix[0])
    ensures ReadToken(text + suffix) == NextToken(text + suffix) == Token(Kind.NumberToken, text, suffix)
  {
    hide IsSpace, Scan, SkipNumber, NextToken, ReadToken, InNumber;
    NumberEnds(text[1..], suffix);
    NumberScan(text[0], text[1..] + suffix);
    OneToken(text, suffix, Kind.NumberToken);
  }

  /** With a point, an exponent, or a sign that is not the minus at its beginning, it is read as a real. */
  lemma RealExact(text: string, i: nat)
    requires i < |text| && (text[i] in ".eE+" || (text[i] == '-' && i > 0))
    requires '0' <= text[0] <= '9' || (|text| > 1 && text[0] == '-' && '0' <= text[1] <= '9')
    ensures DecodeNumber(text) == Some(Real(text))
  {
    var s := ".eE+";
    assert s[0] == '.' && s[1] == 'e' && s[2] == 'E' && s[3] == '+';
    assert LooksDouble(text);
    if text[0] == '-' {
      assert text[1..][0] == text[1];
    }
    assert ScansDouble(text);
    hide LooksDouble, ScansDouble;
  }

  // ---------- The order of names ----------

  /** The order of strcmp: where the names differ first, or the shorter one. */
  ghost predicate FirstDifference(a: string, b: string, k: nat) {
    k <= |a| && k < |b| && a[..k] == b[..k] && (k == |a| || a[k] < b[k])
  }

  lemma {:induction false} LessExact(a: string, b: string)
    ensures Less(a, b) <==> exists k: nat :: FirstDifference(a, b, k)
    decreases |a|
  {
    if b != "" && a != "" && a[0] == b[0] {
      LessExact(a[1..], b[1..]);
      forall k: nat ensures FirstDifference(a, b, k + 1) <==> FirstDifference(a[1..], b[1..], k) {
        DifferenceStep(a, b, k);
      }
      assert !FirstDifference(a, b, 0);
      if k: nat :| FirstDifference(a, b, k) {
        assert FirstDifference(a[1..], b[1..], k - 1);
      }
      if k: nat :| FirstDifference(a[1..], b[1..], k) {
        assert FirstDifference(a, b, k + 1);
      }
    } else {
      assert Less(a, b) ==> FirstDifference(a, b, 0);
      if k: nat :| FirstDifference(a, b, k) {
        assert k > 0 ==> a[..k][0] == b[..k][0];
      }
    }
  }

  lemma DifferenceStep(a: string, b: string, k: nat)
    requires a != "" && b != "" && a[0] == b[0]
    ensures FirstDifference(a, b, k + 1) <==> FirstDifference(a[1..], b[1..], k)
  {
    if k + 1 <= |a| && k + 1 < |b| {
      assert a[..k + 1] == [a[0]] + a[1..][..k] && b[..k + 1] == [b[0]] + b[1..][..k];
      assert a[1..][..k] == b[1..][..k] <==> a[..k + 1] == b[..k + 1] by {
        if a[..k + 1] == b[..k + 1] {
          assert a[1..][..k] == a[..k + 1][1..] && b[1..][..k] == b[..k + 1][1..];
        }
      }
    }
  }

  // ---------- Documents ----------

  /** The words, the brackets and what stands between, for two elements and two members; a plain string in quotes. */
  lemma TextExact(v: Value, w: Value, name: string, s: string)
    ensures Text(Null) == "null" && Text(Bool(true)) == "true" && Text(Bool(false)) == "false"
    ensures Text(Int(-12)) == "-12" && Text(UInt(305)) == "305"
    ensures Text(Arr([v, w])) == "[" + (Text(v) + ("," + Text(w) + "")) + "]"
    ensures Text(Obj([Member(name, v)])) == "{" + (Quoted(name) + ":" + Text(v) + "") + "}"
    ensures NulFree(s) && (forall i :: 0 <= i < |s| ==> s[i] as int > 0x1F && s[i] != '"' && s[i] != '\\') ==>
              Text(Str(s)) == "\"" + s + "\""
  {
    NumberTexts();
    hide Quoted, IntText;
    var elems, members := [v, w], [Member(name, v)];
    assert ElemsText(elems, 2) == "" && ElemsText(elems, 1) == "," + Text(w) + "";
    assert ElemsText(elems, 0) == "" + Text(v) + ElemsText(elems, 1);
    assert "" + Text(v) == Text(v);
    assert MembersText(members, 1) == "";
    assert "" + (Quoted(name) + ":" + Text(v)) == Quoted(name) + ":" + Text(v);
    if NulFree(s) && forall i :: 0 <= i < |s| ==> s[i] as int > 0x1F && s[i] != '"' && s[i] != '\\' {
      QuotedPlain(s);
    }
  }

  lemma NumberTexts()
    ensures IntText(-12) == "-12" && IntText(305) == "305"
  {
    assert Digits(12) == "12" by {
      assert Digits(1) == "1";
    }
    assert Digits(305) == "305" by {
      assert Digits(3) == "3";
      assert Digits(30) == "30";
    }
  }

  lemma QuotedPlain(s: string)
    requires NulFree(s) && forall i :: 0 <= i < |s| ==> s[i] as int > 0x1F && s[i] != '"' && s[i] != '\\'
    ensures Quoted(s) == "\"" + s + "\""
  {
    CStringNulFree(s);
    forall i | 0 <= i < |s| ensures !IsSpecial(s[i]) {
      EscapeExact(s[i]);
    }
    hide Escape;
    PlainString(s);
  }
}

/** Reader of json_reader.cpp: the cursor, the tokens and the recursive methods, against the functions of JsonGrammar. */
module JsonReader {
  import opened Common
  import opened JsonValue
  import opened JsonGrammar

  class Reader {
    const document: string
    var current: nat    // current_
    var errors: nat     // the length of errors_

    constructor (document: string)
      ensures this.document == document && current == 0 && errors == 0
    {
      this.document, current, errors := document, 0, 0;
    }

    /** The cursor is in the document or at its end. */
    ghost predicate Valid()
      reads `current
    {
      current <= |document|
    }

    ghost function Rest(): string
      reads `current
      requires Valid()
    {
      document[current..]
    }

    // ---------- Characters ----------

    /** getNextChar; NUL at the end. */
    method GetNextChar() returns (c: char)
      requires Valid()
      modifies `current
      ensures Valid()
      ensures old(Rest()) == "" ==> c == '\0' && Rest() == ""
      ensures old(Rest()) != "" ==> c == old(Rest())[0] && Rest() == old(Rest())[1..]
    {
      c := '\0';
      if current != |document| {
        c := document[current];
        current := current + 1;
      }
    }

    method SkipBlanks()
      requires Valid()
      modifies `current
      ensures Valid() && old(current) <= current && Rest() == SkipSpaces(old(Rest()))
    {
      while current != |document| && IsSpace(document[current])
        invariant Valid() && old(current) <= current && SkipSpaces(Rest()) == SkipSpaces(old(Rest()))
        decreases |document| - current
      {
        assert Rest()[1..] == document[current + 1..];
        current := current + 1;
      }
    }

    /** match: compared from the last character on. */
    method MatchWord(pattern: string) returns (ok: bool)
      requires Valid()
      modifies `current
      ensures Valid() && ok == Match(old(Rest()), pattern)
      ensures Rest() == if ok then old(Rest())[|pattern|..] else old(Rest())
    {
      if |document| - current < |pattern| {
        return false;
      }
      var index := |pattern|;
      while index > 0
        invariant 0 <= index <= |pattern| && current == old(current)
        invariant forall i :: index <= i < |pattern| ==> document[current + i] == pattern[i]
      {
        index := index - 1;
        if document[current + index] != pattern[index] {
          assert Rest()[index] != pattern[index];
          return false;
        }
      }
      assert Rest()[..|pattern|] == pattern;
      assert Rest()[|pattern|..] == document[current + |pattern|..];
      current := current + |pattern|;
      ok := true;
    }

    method ReadNumber()
      requires Valid()
      modifies `current
      ensures Valid() && Rest() == SkipNumber(old(Rest()))
    {
      while current != |document| && IsNumberChar(document[current])
        invariant Valid() && SkipNumber(Rest()) == SkipNumber(old(Rest()))
        decreases |document| - current
      {
        assert Rest()[1..] == document[current + 1..];
        current := current + 1;
      }
    }

    method ReadString() returns (ok: bool)
      requires Valid()
      modifies `current
      ensures Valid() && (ok, Rest()) == SkipString(old(Rest()))
    {
      var c := '\0';
      while current != |document|
        invariant Valid() && SkipString(Rest()) == SkipString(old(Rest()))
        invariant current == |document| ==> c != '"'
        decreases |document| - current
      {
        ghost var rest := Rest();
        c := GetNextChar();
        if c == '\\' {
          var hidden := GetNextChar();
          assert |rest| > 1 ==> rest[1..][1..] == rest[2..];
        } else if c == '"' {
          return true;
        }
      }
      ok := false;
    }

    method ReadCStyleComment() returns (ok: bool)
      requires Valid()
      modifies `current
      ensures Valid() && (ok, Rest()) == SkipCStyle(old(Rest()))
    {
      while current != |document|
        invariant Valid() && SkipCStyle(Rest()) == SkipCStyle(old(Rest()))
        decreases |document| - current
      {
        ghost var rest := Rest();
        var c := GetNextChar();
        if c == '*' && current != |document| && document[current] == '/' {
          assert rest[1..][1..] == rest[2..];
          break;
        }
      }
      ghost var rest := Rest();
      var last := GetNextChar();
      ok := last == '/';
    }

    method ReadCppStyleComment()
      requires Valid()
      modifies `current
      ensures Valid() && Rest() == SkipLine(old(Rest()))
    {
      while current != |document|
        invariant Valid() && SkipLine(Rest()) == SkipLine(old(Rest()))
        decreases |document| - current
      {
        var c := GetNextChar();
        if c == '\r' || c == '\n' {
          return;
        }
      }
    }

    method ReadComment() returns (ok: bool)
      requires Valid()
      modifies `current
      ensures Valid() && (ok, Rest()) == SkipComment(old(Rest()))
    {
      ok := false;
      var c := GetNextChar();
      if c == '*' {
        ok := ReadCStyleComment();
      } else if c == '/' {
        ReadCppStyleComment();
        ok := true;
      }
    }

    // ---------- Tokens ----------

    /** The switch of readToken, after the first character. */
    method ReadTokenAfter(c: char) returns (kind: Kind)
      requires Valid()
      modifies `current
      ensures Valid() && (kind, Rest()) == Scan(c, old(Rest()))
    {
      hide SkipString, SkipComment, SkipNumber;
      var ok := true;
      match c {
        case '{' => kind := ObjectBegin;
        case '}' => kind := ObjectEnd;
        case '[' => kind := ArrayBegin;
        case ']' => kind := ArrayEnd;
        case '"' =>
          kind := StringToken;
          ok := ReadString();
        case '/' =>
          kind := Comment;
          ok := ReadComment();
        case 't' =>
          kind := TrueToken;
          ok := MatchWord("rue");
        case 'f' =>
          kind := FalseToken;
          ok := MatchWord("alse");
        case 'n' =>
          kind := NullToken;
          ok := MatchWord("ull");
        case ',' => kind := ArraySeparator;
        case ':' => kind := MemberSeparator;
        case '\0' => kind := EndOfStream;
        case _ =>
          kind := NumberToken;
          if IsDigit(c) || c == '-' {
            ReadNumber();
          } else {
            ok := false;
          }
      }
      if !ok {
        kind := Error;
      }
    }

    /** readToken; it always succeeds, with a token of kind Error if need be. */
    method ReadToken() returns (token: Token)
      requires Valid()
      modifies `current
      ensures Valid() && token == JsonGrammar.ReadToken(old(Rest())) && token.rest == Rest()
      ensures old(current) <= current && (token.kind != EndOfStream ==> old(current) < current)
    {
      hide Scan;
      SkipBlanks();
      var start := current;
      ghost var rest := Rest();
      var c := GetNextChar();
      var kind := ReadTokenAfter(c);
      EndScan();
      token := Token(kind, document[start..current], document[current..]);
      assert rest[..|rest| - |Rest()|] == document[start..current];
    }

    /** skipCommentTokens */
    method SkipCommentTokens() returns (token: Token)
      requires Valid()
      modifies `current
      ensures Valid() && token == NextToken(old(Rest())) && token.rest == Rest()
      ensures old(current) <= current && (token.kind != EndOfStream ==> old(current) < current)
    {
      hide JsonGrammar.ReadToken;
      token := ReadToken();
      while token.kind == Comment
        invariant Valid() && token.rest == Rest() && old(current) <= current
        invariant NextToken(old(Rest())) == if token.kind == Comment then NextToken(token.rest) else token
        invariant token.kind != EndOfStream ==> old(current) < current
        decreases |document| - current + (if token.kind == EndOfStream then 0 else 1), if token.kind == Comment then 1 else 0
      {
        token := ReadToken();
      }
    }

    /** addError */
    method AddError() returns (ok: bool)
      modifies `errors
      ensures !ok && errors == old(errors) + 1
    {
      errors := errors + 1;
      ok := false;
    }

    /** recoverFromError: tokens are dropped up to the one wanted, or to the end. */
    method RecoverFromError(skipUntil: Kind) returns (ok: bool)
      requires Valid()
      modifies `current, `errors
      ensures Valid() && !ok && errors == old(errors) && old(current) <= current
    {
      hide JsonGrammar.ReadToken;
      var errorCount := errors;
      var skip := ReadToken();
      while skip.kind != skipUntil && skip.kind != EndOfStream
        invariant Valid() && errors == old(errors) && old(current) <= current
        invariant skip.kind != EndOfStream ==> old(current) < current
        decreases |document| - current, if skip.kind == EndOfStream then 0 else 1
      {
        skip := ReadToken();
      }
      errors := errorCount;
      ok := false;
    }

    method AddErrorAndRecover(skipUntil: Kind) returns (ok: bool)
      requires Valid()
      modifies `current, `errors
      ensures Valid() && !ok && errors == old(errors) + 1 && old(current) <= current
    {
      ok := AddError();
      ok := RecoverFromError(skipUntil);
    }

    // ---------- Scalars ----------

    /** decodeDouble */
    method DecodeDouble(text: string) returns (ok: bool, value: Value)
      modifies `errors
      ensures ok == JsonGrammar.DecodeDouble(text).Some? && (ok ==> value == JsonGrammar.DecodeDouble(text).value)
      ensures errors == old(errors) + if ok then 0 else 1
    {
      ok, value := ScansDouble(text), Real(text);
      if !ok {
        ok := AddError();
      }
    }

    /** decodeNumber: the test for a double, and the loop over the digits. */
    method DecodeNumber(text: string) returns (ok: bool, value: Value)
      requires text != ""
      modifies `errors
      ensures ok == JsonGrammar.DecodeNumber(text).Some? && (ok ==> value == JsonGrammar.DecodeNumber(text).value)
      ensures errors == old(errors) + if ok then 0 else 1
    {
      hide ScansDouble;
      var isDouble := false;
      for inspect := 0 to |text|
        invariant (isDouble <==> LooksDouble(text[..inspect])) && errors == old(errors)
      {
        LooksDoubleStep(text, inspect);
        isDouble := isDouble || text[inspect] in {'.', 'e', 'E', '+'} || (text[inspect] == '-' && inspect != 0);
      }
      assert text[..|text|] == text;
      if isDouble {
        ok, value := DecodeDouble(text);
        return;
      }
      hide LooksDouble;
      var isNegative := text[0] == '-';
      var at := if isNegative then 1 else 0;
      var threshold := if isNegative then NEGATIVE_THRESHOLD else POSITIVE_THRESHOLD;
      var v: nat := 0;
      ghost var digits := if isNegative then text[1..] else text;
      assert digits == text[at..];
      while at < |text|
        invariant 0 <= at <= |text| && errors == old(errors)
        invariant Accumulate(digits, 0, threshold) == Accumulate(text[at..], v, threshold)
      {
        var c := text[at];
        assert text[at..][1..] == text[at + 1..];
        at := at + 1;
        if !IsDigit(c) {
          ok := AddError();
          return ok, Null;
        }
        if v >= threshold {
          ok, value := DecodeDouble(text);
          return;
        }
        v := v * 10 + (c as int - '0' as int);
      }
      ok := true;
      value := if isNegative then Int(0 - v) else if v <= MAX_INT then Int(v) else UInt(v);
    }

    /** decodeUnicodeEscapeSequence */
    method DecodeHex(chars: string, start: nat) returns (ok: bool, at: nat, unicode: nat)
      requires start <= |chars|
      modifies `errors
      ensures ok == DecodeHex4(chars[start..]).Ok? && at <= |chars|
      ensures ok ==> Ok(unicode, chars[at..]) == DecodeHex4(chars[start..])
      ensures errors == old(errors) + if ok then 0 else 1
    {
      at, unicode := start, 0;
      if |chars| - start < 4 {
        ok := AddError();
        return;
      }
      ghost var s := chars[start..];
      for index := 0 to 4
        invariant at == start + index && errors == old(errors)
        invariant index > 0 ==> HexValue(s[0]).Some?
        invariant index > 1 ==> HexValue(s[1]).Some?
        invariant index > 2 ==> HexValue(s[2]).Some?
        invariant index > 3 ==> HexValue(s[3]).Some?
        invariant index == 0 ==> unicode == 0
        invariant index == 1 ==> unicode == HexValue(s[0]).value
        invariant index == 2 ==> unicode == HexValue(s[0]).value * 16 + HexValue(s[1]).value
        invariant index == 3 ==> unicode == (HexValue(s[0]).value * 16 + HexValue(s[1]).value) * 16 + HexValue(s[2]).value
        invariant index == 4 ==>
          unicode == ((HexValue(s[0]).value * 16 + HexValue(s[1]).value) * 16 + HexValue(s[2]).value) * 16 + HexValue(s[3]).value
      {
        var c := chars[at];
        assert c == s[index];
        at := at + 1;
        var digit := HexValue(c);
        if digit.None? {
          ok := AddError();
          return;
        }
        unicode := unicode * 16 + digit.value;
      }
      ok := true;
      assert s[4..] == chars[at..];
    }

    /** decodeUnicodeCodePoint */
    method DecodeUnicode(chars: string, start: nat) returns (ok: bool, at: nat, unicode: nat)
      requires start <= |chars|
      modifies `errors
      ensures ok == DecodeCodePoint(chars[start..]).Ok? && at <= |chars|
      ensures ok ==> Ok(unicode, chars[at..]) == DecodeCodePoint(chars[start..])
      ensures errors == old(errors) + if ok then 0 else 1
    {
      hide DecodeHex4;
      ok, at, unicode := DecodeHex(chars, start);
      if !ok {
        return;
      }
      if 0xD800 <= unicode <= 0xDBFF {
        if |chars| - at < 6 {
          ok := AddError();
          return;
        }
        ghost var rest := chars[at..];
        if chars[at] == '\\' && chars[at + 1] == 'u' {
          assert rest[2..] == chars[at + 2..];
          var surrogatePair;
          ok, at, surrogatePair := DecodeHex(chars, at + 2);
          if !ok {
            return;
          }
          unicode := 0x1_0000 + unicode % 0x400 * 0x400 + surrogatePair % 0x400;
        } else {
          ok := AddError();
        }
      }
    }

    /** decodeString of a token with its quotes. */
    method DecodeString(text: string) returns (ok: bool, decoded: string)
      requires |text| >= 2
      modifies `errors
      ensures ok == JsonGrammar.DecodeString(text).Some? && (ok ==> decoded == JsonGrammar.DecodeString(text).value)
      ensures errors == old(errors) + if ok then 0 else 1
    {
      hide DecodeCodePoint, CodePointToUTF8, SimpleEscape;
      var chars := text[1..|text| - 1];
      decoded := "";
      var at := 0;
      assert chars[0..] == chars;
      NothingDecoded(DecodeChars(chars));
      while at != |chars|
        invariant 0 <= at <= |chars| && errors == old(errors)
        invariant DecodeChars(chars) == After(decoded, DecodeChars(chars[at..]))
        decreases |chars| - at
      {
        ghost var s := chars[at..];
        var c := chars[at];
        assert s[1..] == chars[at + 1..];
        at := at + 1;
        if c == '"' {
          EndDecoded(decoded);
          return true, decoded;
        } else if c == '\\' {
          if at == |chars| {
            ok := AddError();
            return;
          }
          var escape := chars[at];
          assert s[2..] == chars[at + 1..];
          at := at + 1;
          if escape == 'u' {
            var unicode;
            ok, at, unicode := DecodeUnicode(chars, at);
            if !ok {
              return;
            }
            MoreDecoded(decoded, CodePointToUTF8(unicode), DecodeChars(chars[at..]));
            decoded := decoded + CodePointToUTF8(unicode);
          } else {
            var simple := SimpleEscape(escape);
            if simple.None? {
              ok := AddError();
              return;
            }
            MoreDecoded(decoded, [simple.value], DecodeChars(chars[at..]));
            decoded := decoded + [simple.value];
          }
        } else {
          MoreDecoded(decoded, [c], DecodeChars(chars[at..]));
          decoded := decoded + [c];
        }
      }
      EndDecoded(decoded);
      ok := true;
    }

    // ---------- Values ----------

    /** readValue; the value is the one the source assigns to currentValue(). */
    method ReadValue() returns (ok: bool, value: Value)
      requires Valid()
      modifies `current, `errors
      ensures Valid() && old(current) <= current
      ensures ok == JsonGrammar.ReadValue(old(Rest())).Ok?
      ensures ok ==> Ok(value, Rest()) == JsonGrammar.ReadValue(old(Rest())) && errors == old(errors)
      ensures !ok ==> errors > old(errors)
      decreases |document| - current, 0
    {
      hide NextToken, JsonGrammar.DecodeNumber, JsonGrammar.DecodeString, JsonGrammar.ReadArray, ReadMembers;
      value := Null;
      var token := SkipCommentTokens();
      if token.kind == ObjectBegin {
        ok, value := ReadObject();
      } else if token.kind == ArrayBegin {
        ok, value := ReadArray();
      } else if token.kind == NumberToken {
        ok, value := DecodeNumber(token.text);
      } else if token.kind == StringToken {
        var decoded;
        StringTokenLength(old(Rest()));
        ok, decoded := DecodeString(token.text);
        value := Str(CString(decoded));
      } else if token.kind == TrueToken {
        ok, value := true, Bool(true);
      } else if token.kind == FalseToken {
        ok, value := true, Bool(false);
      } else if token.kind == NullToken {
        ok := true;
      } else {
        ok := AddError();
      }
    }

    /** readArray, after the bracket. */
    method ReadArray() returns (ok: bool, value: Value)
      requires Valid()
      modifies `current, `errors
      ensures Valid() && old(current) <= current
      ensures ok == JsonGrammar.ReadArray(old(Rest())).Ok?
      ensures ok ==> Ok(value, Rest()) == JsonGrammar.ReadArray(old(Rest())) && errors == old(errors)
      ensures !ok ==> errors > old(errors)
      decreases |document| - current, 2
    {
      hide JsonGrammar.ReadElems, JsonGrammar.ReadToken;
      SkipBlanks();
      if current < |document| && document[current] == ']' {
        EndArray(Rest());
        var endArray := ReadToken();
        return true, Arr([]);
      }
      ok, value := ReadElems();
    }

    /** The loop of readArray. */
    method ReadElems() returns (ok: bool, value: Value)
      requires Valid()
      modifies `current, `errors
      ensures Valid() && old(current) <= current
      ensures ok == JsonGrammar.ReadElems(old(Rest()), []).Ok?
      ensures ok ==> Ok(value, Rest()) == JsonGrammar.ReadElems(old(Rest()), []) && errors == old(errors)
      ensures !ok ==> errors > old(errors)
      decreases |document| - current, 1
    {
      hide JsonGrammar.ReadValue, NextToken;
      ghost var start := Rest();
      var elems := [];
      while true
        invariant Valid() && old(current) <= current && errors == old(errors)
        invariant JsonGrammar.ReadElems(start, []) == JsonGrammar.ReadElems(Rest(), elems)
        decreases |document| - current
      {
        ghost var before := Rest();
        ok, value := ReadValue();
        if !ok {
          ok := RecoverFromError(Kind.ArrayEnd);
          return;
        }
        elems := elems + [value];
        // readToken as long as it finds a comment; the test for another kind of token never holds
        var token := SkipCommentTokens();
        if token.kind == ArrayEnd {
          return true, Arr(elems);
        }
      }
    }

    /** readObject, after the brace. */
    method ReadObject() returns (ok: bool, value: Value)
      requires Valid()
      modifies `current, `errors
      ensures Valid() && old(current) <= current
      ensures ok == ReadMembers(old(Rest()), [], "").Ok?
      ensures ok ==> Ok(value, Rest()) == ReadMembers(old(Rest()), [], "") && errors == old(errors)
      ensures !ok ==> errors > old(errors)
      decreases |document| - current, 1
    {
      hide JsonGrammar.ReadValue, NextToken, JsonGrammar.ReadToken, JsonGrammar.DecodeString, Insert;
      ghost var start := Rest();
      var members: seq<Member> := [];
      var name := "";
      value := Null;
      while true
        invariant Valid() && old(current) <= current && errors == old(errors)
        invariant ReadMembers(start, [], "") == ReadMembers(Rest(), members, name)
        decreases |document| - current
      {
        StringTokenLength(Rest());
        var tokenName := SkipCommentTokens();
        if tokenName.kind == ObjectEnd && name == "" {
          return true, Obj(members);
        }
        if tokenName.kind != StringToken {
          ok := AddErrorAndRecover(Kind.ObjectEnd);
          return;
        }
        ok, name := DecodeString(tokenName.text);
        if !ok {
          ok := RecoverFromError(Kind.ObjectEnd);
          return;
        }
        var colon := ReadToken();
        if colon.kind != MemberSeparator {
          ok := AddErrorAndRecover(Kind.ObjectEnd);
          return;
        }
        ok, value := ReadValue();
        if !ok {
          ok := RecoverFromError(Kind.ObjectEnd);
          return;
        }
        members := Insert(members, Member(CString(name), value));
        var comma := ReadToken();
        if comma.kind != ObjectEnd && comma.kind != ArraySeparator && comma.kind != Comment {
          ok := AddErrorAndRecover(Kind.ObjectEnd);
          return;
        }
        if comma.kind == Comment {
          comma := SkipCommentTokens();
        }
        if comma.kind == ObjectEnd {
          return true, Obj(members);
        }
      }
    }

    /** parse: it fails if and only if an error was recorded; one more token is read after the value. */
    method Parse() returns (successful: bool, root: Value)
      requires Valid() && current == 0
      modifies `current, `errors
      ensures Valid() && successful == JsonGrammar.Parse(document).Some?
      ensures successful ==> root == JsonGrammar.Parse(document).value
      ensures successful <==> errors == 0
    {
      errors := 0;
      assert Rest() == document;
      successful, root := ReadValue();
      var token := SkipCommentTokens();
    }
  }

  function After(decoded: string, more: Option<string>): Option<string> {
    if more.Some? then Some(decoded + more.value) else None
  }

  lemma NothingDecoded(more: Option<string>)
    ensures After("", more) == more
  {
    if more.Some? {
      assert "" + more.value == more.value;
    }
  }

  lemma EndDecoded(decoded: string)
    ensures After(decoded, Some("")) == Some(decoded)
  {
    assert decoded + "" == decoded;
  }

  lemma MoreDecoded(decoded: string, next: string, more: Option<string>)
    ensures After(decoded, After(next, more)) == After(decoded + next, more)
  {
    if more.Some? {
      assert decoded + (next + more.value) == decoded + next + more.value;
    }
  }

  lemma LooksDoubleStep(text: string, i: nat)
    requires i < |text|
    ensures LooksDouble(text[..i + 1]) <==>
              LooksDouble(text[..i]) || text[i] in {'.', 'e', 'E', '+'} || (text[i] == '-' && i > 0)
  {
    assert forall j :: 0 <= j < i ==> text[..i + 1][j] == text[..i][j];
    assert text[..i + 1][i] == text[i];
  }

  lemma EndArray(s: string)
    requires s != "" && s[0] == ']'
    ensures JsonGrammar.ReadToken(s).rest == s[1..]
  {
  }

  /** A string token has both its quotes. */
  lemma {:induction false} StringTokenLength(s: string)
    ensures NextToken(s).kind == StringToken ==> |NextToken(s).text| >= 2
    decreases |s|
  {
    var t := JsonGrammar.ReadToken(s);
    if t.kind == Comment {
      StringTokenLength(t.rest);
    } else if t.kind == StringToken {
      var r := SkipSpaces(s);
      ClosedString(r[1..]);
    }
  }

  lemma {:induction false} ClosedString(s: string)
    ensures SkipString(s).0 ==> |SkipString(s).1| < |s|
    decreases |s|
  {
    if s != "" && s[0] != '"' {
      if s[0] != '\\' {
        ClosedString(s[1..]);
      } else if |s| > 1 {
        ClosedString(s[2..]);
      }
    }
  }

  lemma EndScan()
    ensures Scan('\0', "") == (EndOfStream, "")
  {
  }
}

/**
 * What Reader of json_reader.cpp accepts and what it makes of it, as functions on the characters still to be read.
 * Comments are skipped; their text is not kept.
 */
module JsonGrammar {
  import opened Common
  import opened JsonValue

  datatype Kind =
    | ObjectBegin | ObjectEnd | ArrayBegin | ArrayEnd | StringToken | NumberToken | TrueToken | FalseToken | NullToken
    | ArraySeparator | MemberSeparator | Comment | EndOfStream | Error

  /** A token, its characters, and the characters after it. */
  datatype Token = Token(kind: Kind, text: string, rest: string)

  datatype Result<T> = Ok(value: T, rest: string) | Fail

  // ---------- Tokens ----------

  predicate IsSpace(c: char) {
    c == ' ' || c == '\t' || c == '\r' || c == '\n'
  }

  function SkipSpaces(s: string): (r: string)
    ensures |r| <= |s| && (r != "" ==> !IsSpace(r[0]))
  {
    if s != "" && IsSpace(s[0]) then SkipSpaces(s[1..]) else s
  }

  /** match */
  function Match(s: string, pattern: string): (ok: bool)
  {
    pattern <= s
  }

  predicate IsDigit(c: char) {
    '0' <= c <= '9'
  }

  predicate IsNumberChar(c: char) {
    IsDigit(c) || c == '.' || c == 'e' || c == 'E' || c == '+' || c == '-'
  }

  function SkipNumber(s: string): (r: string)
    ensures |r| <= |s|
  {
    if s != "" && IsNumberChar(s[0]) then SkipNumber(s[1..]) else s
  }

  /** readString: up to the closing quote; a backslash hides the character after it. */
  function SkipString(s: string): (r: (bool, string))
    ensures |r.1| <= |s|
  {
    if s == "" then (false, "")
    else if s[0] == '\\' then if |s| == 1 then (false, "") else SkipString(s[2..])
    else if s[0] == '"' then (true, s[1..])
    else SkipString(s[1..])
  }

  function SkipCStyle(s: string): (r: (bool, string))
    ensures |r.1| <= |s|
  {
    if s == "" then (false, "")
    else if s[0] == '*' && |s| > 1 && s[1] == '/' then (true, s[2..])
    else SkipCStyle(s[1..])
  }

  function SkipLine(s: string): (r: string)
    ensures |r| <= |s|
  {
    if s == "" then "" else if s[0] == '\r' || s[0] == '\n' then s[1..] else SkipLine(s[1..])
  }

  /** readComment, after the first slash. */
  function SkipComment(s: string): (r: (bool, string))
    ensures |r.1| <= |s|
  {
    if s == "" then (false, "")
    else if s[0] == '*' then SkipCStyle(s[1..])
    else if s[0] == '/' then (true, SkipLine(s[1..]))
    else (false, s[1..])
  }

  /** The kind of the token that starts with c and goes on with r, and what is left. */
  function Scan(c: char, r: string): (k: (Kind, string))
    ensures |k.1| <= |r|
  {
    match c
    case '{' => (ObjectBegin, r)
    case '}' => (ObjectEnd, r)
    case '[' => (ArrayBegin, r)
    case ']' => (ArrayEnd, r)
    case '"' => var x := SkipString(r); (if x.0 then StringToken else Error, x.1)
    case '/' => var x := SkipComment(r); (if x.0 then Comment else Error, x.1)
    case 't' => if Match(r, "rue") then (TrueToken, r[3..]) else (Error, r)
    case 'f' => if Match(r, "alse") then (FalseToken, r[4..]) else (Error, r)
    case 'n' => if Match(r, "ull") then (NullToken, r[3..]) else (Error, r)
    case ',' => (ArraySeparator, r)
    case ':' => (MemberSeparator, r)
    case '\0' => (EndOfStream, r)
    case _ => if IsDigit(c) || c == '-' then (NumberToken, SkipNumber(r)) else (Error, r)
  }

  /** readToken: each token uses up characters, or there are none left. */
  function ReadToken(s: string): (t: Token)
    ensures |t.rest| <= |s| && (|t.rest| == |s| ==> t.kind == EndOfStream && s == "")
    ensures t.kind == NumberToken || t.kind == StringToken ==> t.text != ""
  {
    var s := SkipSpaces(s);
    if s == "" then Token(EndOfStream, "", "")
    else
      var k := Scan(s[0], s[1..]);
      Token(k.0, s[..|s| - |k.1|], k.1)
  }

  /** skipCommentTokens */
  function NextToken(s: string): (t: Token)
    ensures |t.rest| <= |s| && (|t.rest| == |s| ==> t.kind == EndOfStream && s == "") && t.kind != Comment
    ensures t.kind == NumberToken || t.kind == StringToken ==> t.text != ""
    decreases |s|
  {
    var t := ReadToken(s);
    if t.kind == Comment then NextToken(t.rest) else t
  }

  // ---------- Numbers ----------

  /** decodeNumber calls it a double. */
  predicate LooksDouble(text: string) {
    exists i :: 0 <= i < |text| &&
      (text[i] == '.' || text[i] == 'e' || text[i] == 'E' || text[i] == '+' || (text[i] == '-' && i > 0))
  }

  /** sscanf( "%lf" ) finds a number: a sign at most, and a digit before or after a point. */
  predicate ScansDouble(text: string) {
    var t := if text != "" && (text[0] == '-' || text[0] == '+') then text[1..] else text;
    t != "" && (IsDigit(t[0]) || (t[0] == '.' && |t| > 1 && IsDigit(t[1])))
  }

  function DecodeDouble(text: string): Option<Value> {
    if ScansDouble(text) then Some(Real(text)) else None
  }

  /** What the loop over the digits comes to. */
  datatype Accumulated = Number(n: nat) | TooBig | NotANumber

  function Accumulate(digits: string, value: nat, threshold: nat): Accumulated {
    if digits == "" then Number(value)
    else if !IsDigit(digits[0]) then NotANumber
    else if value >= threshold then TooBig
    else Accumulate(digits[1..], value * 10 + (digits[0] as int - '0' as int), threshold)
  }

  const NEGATIVE_THRESHOLD: nat := 214748364   // UInt(-minInt) / 10
  const POSITIVE_THRESHOLD: nat := 429496729   // maxUInt / 10

  /** decodeNumber */
  function DecodeNumber(text: string): Option<Value>
    requires text != ""
  {
    if LooksDouble(text) then DecodeDouble(text)
    else
      var negative := text[0] == '-';
      match Accumulate(if negative then text[1..] else text, 0, if negative then NEGATIVE_THRESHOLD else POSITIVE_THRESHOLD)
      case NotANumber => None
      case TooBig => DecodeDouble(text)
      case Number(n) => Some(if negative then Int(0 - n) else if n <= MAX_INT then Int(n) else UInt(n))
  }

  // ---------- Strings ----------

  function HexValue(c: char): Option<nat> {
    if IsDigit(c) then Some((c as int - '0' as int) as nat)
    else if 'a' <= c <= 'f' then Some((c as int - 'a' as int + 10) as nat)
    else if 'A' <= c <= 'F' then Some((c as int - 'A' as int + 10) as nat)
    else None
  }

  /** decodeUnicodeEscapeSequence: four hexadecimal digits. */
  function DecodeHex4(s: string): (r: Result<nat>)
    ensures r.Ok? ==> r.value < 0x1_0000 && |r.rest| == |s| - 4 && r.rest == s[4..]
  {
    if |s| < 4 then Fail
    else
      var a, b, c, d := HexValue(s[0]), HexValue(s[1]), HexValue(s[2]), HexValue(s[3]);
      if a.None? || b.None? || c.None? || d.None? then Fail
      else
        assert a.value < 16 && b.value < 16 && c.value < 16 && d.value < 16;
        Ok(((a.value * 16 + b.value) * 16 + c.value) * 16 + d.value, s[4..])
  }

  /** decodeUnicodeCodePoint: a high surrogate takes a second escape with it. */
  function DecodeCodePoint(s: string): (r: Result<nat>)
    ensures r.Ok? ==> r.value <= 0x10FFFF && |r.rest| < |s|
  {
    var u := DecodeHex4(s);
    if u.Fail? || !(0xD800 <= u.value <= 0xDBFF) then u
    else if |u.rest| < 6 || u.rest[0] != '\\' || u.rest[1] != 'u' then Fail
    else
      var v := DecodeHex4(u.rest[2..]);
      if v.Fail? then Fail else Ok(0x1_0000 + u.value % 0x400 * 0x400 + v.value % 0x400, v.rest)
  }

  /** codePointToUTF8; the bits do not overlap, so | adds them. */
  function CodePointToUTF8(cp: nat): string
    requires cp <= 0x10FFFF
  {
    if cp <= 0x7F then [cp as char]
    else if cp <= 0x7FF then [(0xC0 + cp / 0x40) as char, (0x80 + cp % 0x40) as char]
    else if cp <= 0xFFFF then
      [(0xE0 + cp / 0x1000) as char, (0x80 + cp / 0x40 % 0x40) as char, (0x80 + cp % 0x40) as char]
    else
      [(0xF0 + cp / 0x4_0000) as char, (0x80 + cp / 0x1000 % 0x40) as char, (0x80 + cp / 0x40 % 0x40) as char,
       (0x80 + cp % 0x40) as char]
  }

  function SimpleEscape(c: char): Option<char> {
    match c
    case '"' => Some('"')
    case '/' => Some('/')
    case '\\' => Some('\\')
    case 'b' => Some(0x08 as char)
    case 'f' => Some(0x0C as char)
    case 'n' => Some('\n')
    case 'r' => Some('\r')
    case 't' => Some('\t')
    case _ => None
  }

  /** The loop of decodeString over the characters between the quotes. */
  function DecodeChars(s: string): Option<string> {
    if s == "" || s[0] == '"' then Some("")
    else if s[0] != '\\' then
      var more := DecodeChars(s[1..]);
      if more.Some? then Some([s[0]] + more.value) else None
    else if |s| == 1 then None
    else if s[1] == 'u' then
      var u := DecodeCodePoint(s[2..]);
      if u.Fail? then None
      else
        var more := DecodeChars(u.rest);
        if more.Some? then Some(CodePointToUTF8(u.value) + more.value) else None
    else
      var e := SimpleEscape(s[1]);
      if e.None? then None
      else
        var more := DecodeChars(s[2..]);
        if more.Some? then Some([e.value] + more.value) else None
  }

  /** decodeString of a token with its quotes. */
  function DecodeString(text: string): Option<string> {
    if |text| < 2 then None else DecodeChars(text[1..|text| - 1])
  }

  // ---------- Values ----------

  /** readValue */
  function ReadValue(s: string): (r: Result<Value>)
    ensures r.Ok? ==> |r.rest| < |s|
    decreases |s|, 0
  {
    var t := NextToken(s);
    match t.kind
    case ObjectBegin => ReadMembers(t.rest, [], "")
    case ArrayBegin => ReadArray(t.rest)
    case NumberToken =>
      var n := DecodeNumber(t.text);
      if n.Some? then Ok(n.value, t.rest) else Fail
    case StringToken =>
      var d := DecodeString(t.text);
      if d.Some? then Ok(Str(CString(d.value)), t.rest) else Fail
    case TrueToken => Ok(Bool(true), t.rest)
    case FalseToken => Ok(Bool(false), t.rest)
    case NullToken => Ok(Null, t.rest)
    case _ => Fail
  }

  /** readArray, after the bracket. */
  function ReadArray(s: string): (r: Result<Value>)
    ensures r.Ok? ==> |r.rest| <= |s|
    decreases |s|, 2
  {
    var s := SkipSpaces(s);
    if s != "" && s[0] == ']' then Ok(Arr([]), s[1..]) else ReadElems(s, [])
  }

  /**
   * The loop of readArray. The test that was to reject other separators asks for a token of two kinds at once, so any
   * token may stand between two elements.
   */
  function ReadElems(s: string, elems: seq<Value>): (r: Result<Value>)
    ensures r.Ok? ==> |r.rest| <= |s|
    decreases |s|, 1
  {
    var v := ReadValue(s);
    if v.Fail? then Fail
    else
      var t := NextToken(v.rest);
      if t.kind == ArrayEnd then Ok(Arr(elems + [v.value]), t.rest) else ReadElems(t.rest, elems + [v.value])
  }

  /**
   * The loop of readObject, with the members so far and the name of the last one. A brace is accepted where a name is
   * expected as long as that name is empty, and any token is accepted after a comment that stands for a comma.
   */
  function ReadMembers(s: string, members: seq<Member>, name: string): (r: Result<Value>)
    ensures r.Ok? ==> |r.rest| <= |s|
    decreases |s|, 1
  {
    var t := NextToken(s);
    if t.kind == ObjectEnd && name == "" then Ok(Obj(members), t.rest)
    else if t.kind != StringToken then Fail
    else
      var d := DecodeString(t.text);
      var colon := ReadToken(t.rest);
      if d.None? || colon.kind != MemberSeparator then Fail
      else
        var v := ReadValue(colon.rest);
        if v.Fail? then Fail
        else
          var comma := ReadToken(v.rest);
          var more := Insert(members, Member(CString(d.value), v.value));
          if comma.kind != ObjectEnd && comma.kind != ArraySeparator && comma.kind != Comment then Fail
          else
            var last := if comma.kind == Comment then NextToken(comma.rest) else comma;
            if last.kind == ObjectEnd then Ok(Obj(more), last.rest) else ReadMembers(last.rest, more, d.value)
  }

  /** parse; what follows the value is not looked at. */
  function Parse(document: string): Option<Value> {
    var v := ReadValue(document);
    if v.Ok? then Some(v.value) else None
  }
}

/** FastWriter of json_writer.cpp. */
module JsonWriter {
  import opened JsonValue

  // ---------- Numbers ----------

  function DigitChar(d: nat): char
    requires d < 10
  {
    ('0' as int + d) as char
  }

  function Digits(n: nat): string {
    if n < 10 then [DigitChar(n)] else Digits(n / 10) + [DigitChar(n % 10)]
  }

  /** uintToString: digits are put down from the last one on. */
  method UintToString(value: nat) returns (s: string)
    ensures s == Digits(value)
  {
    var v := value;
    s := [DigitChar(v % 10)];
    v := v / 10;
    while v != 0
      invariant Digits(value) == (if v == 0 then [] else Digits(v)) + s
      decreases v
    {
      s := [DigitChar(v % 10)] + s;
      v := v / 10;
    }
  }

  /** valueToString of an Int: a minus and the magnitude. */
  function IntText(i: int): string {
    if i < 0 then "-" + Digits(-i) else Digits(i)
  }

  // ---------- Strings ----------

  predicate IsControl(c: char) {
    '\0' < c <= 0x1F as char
  }

  function HexChar(d: nat): char
    requires d < 16
  {
    if d < 10 then ('0' as int + d) as char else ('A' as int + (d - 10)) as char
  }

  /** One character of a quoted string. */
  function Escape(c: char): string {
    if c == '"' then "\\\""
    else if c == '\\' then "\\\\"
    else if c == 0x08 as char then "\\b"
    else if c == 0x0C as char then "\\f"
    else if c == '\n' then "\\n"
    else if c == '\r' then "\\r"
    else if c == '\t' then "\\t"
    else if IsControl(c) then "\\u00" + [HexChar(c as int / 16), HexChar(c as int % 16)]
    else [c]
  }

  function Escaped(s: string): string {
    if s == "" then "" else Escape(s[0]) + Escaped(s[1..])
  }

  function Quoted(s: string): string {
    "\"" + Escaped(CString(s)) + "\""
  }

  /** One of "\\\b\f\n\r\t and the quote, or a control character. */
  predicate IsSpecial(c: char) {
    Escape(c) != [c]
  }

  lemma {:induction false} PlainString(s: string)
    requires forall i :: 0 <= i < |s| ==> !IsSpecial(s[i])
    ensures Escaped(s) == s
  {
    if s != "" {
      PlainString(s[1..]);
      assert s == [s[0]] + s[1..];
    }
  }

  lemma {:induction false} EscapedStep(s: string, i: nat)
    requires i < |s|
    ensures Escaped(s[..i + 1]) == Escaped(s[..i]) + Escape(s[i])
    decreases i
  {
    hide Escape;
    if i == 0 {
      assert s[..1] == [s[0]] && s[..1][1..] == "" && s[..0] == "";
    } else {
      EscapedStep(s[1..], i - 1);
      assert s[..i + 1][1..] == s[1..][..i] && s[..i][1..] == s[1..][..i - 1];
    }
  }

  /** valueToQuotedString: if there is nothing to escape, the string is copied. */
  method ValueToQuotedString(value: string) returns (result: string)
    requires NulFree(value)
    ensures result == Quoted(value)
  {
    hide Escape;
    CStringNulFree(value);
    var special := false;
    for i := 0 to |value|
      invariant !special ==> forall j :: 0 <= j < i ==> !IsSpecial(value[j])
    {
      special := special || IsSpecial(value[i]);
    }
    if !special {
      PlainString(value);
      return "\"" + value + "\"";
    }
    result := "\"";
    for i := 0 to |value|
      invariant result == "\"" + Escaped(value[..i])
    {
      EscapedStep(value, i);
      result := result + Escape(value[i]);
    }
    assert value[..|value|] == value;
    result := result + "\"";
  }

  // ---------- Values ----------

  /** FastWriter::writeValue without YAML compatibility; how a real is printed is not modelled. */
  function Text(v: Value): string
    decreases v, 0
  {
    match v
    case Null => "null"
    case Bool(b) => if b then "true" else "false"
    case Int(i) => IntText(i)
    case UInt(u) => IntText(u)
    case Real(text) => text
    case Str(s) => Quoted(s)
    case Arr(elems) => "[" + ElemsText(elems, 0) + "]"
    case Obj(members) => "{" + MembersText(members, 0) + "}"
  }

  /** The elements from index i on, a comma before each but the first one. */
  function ElemsText(elems: seq<Value>, i: nat): string
    requires i <= |elems|
    decreases elems, |elems| - i
  {
    if i == |elems| then "" else (if i > 0 then "," else "") + Text(elems[i]) + ElemsText(elems, i + 1)
  }

  function MembersText(members: seq<Member>, i: nat): string
    requires i <= |members|
    decreases members, |members| - i
  {
    if i == |members| then "" else
      (if i > 0 then "," else "") + (Quoted(members[i].name) + ":" + Text(members[i].value)) + MembersText(members, i + 1)
  }

  class FastWriter {
    var document: string

    constructor () {
      document := "";
    }

    method Append(s: string)
      modifies this
      ensures document == old(document) + s
    {
      document := document + s;
    }

    /** writeValue */
    method WriteValue(value: Value)
      requires Writable(value)
      modifies this
      ensures document == old(document) + Text(value)
      decreases value, 0
    {
      hide Quoted, IntText, Digits;
      match value
      case Null => Append("null");
      case Bool(b) => Append(if b then "true" else "false");
      case Int(i) =>
        var magnitude := UintToString(if i < 0 then -i else i);
        Append(if i < 0 then "-" + magnitude else magnitude);
        IntTextOf(i);
      case UInt(u) =>
        var text := UintToString(u);
        Append(text);
        IntTextOf(u);
      case Str(s) =>
        var quoted := ValueToQuotedString(s);
        Append(quoted);
      case Arr(elems) => WriteArray(elems);
      case Obj(members) => WriteObject(members);
    }

    method WriteArray(elems: seq<Value>)
      requires forall i :: 0 <= i < |elems| ==> Writable(elems[i])
      modifies this
      ensures document == old(document) + ("[" + ElemsText(elems, 0) + "]")
      decreases elems, 1
    {
      hide Text, Writable;
      Append("[");
      for index := 0 to |elems|
        invariant document + ElemsText(elems, index) == old(document) + "[" + ElemsText(elems, 0)
      {
        if index > 0 {
          Append(",");
        }
        WriteValue(elems[index]);
      }
      assert document == old(document) + "[" + ElemsText(elems, 0);
      Append("]");
    }

    method WriteObject(members: seq<Member>)
      requires forall i :: 0 <= i < |members| ==> NulFree(members[i].name) && Writable(members[i].value)
      modifies this
      ensures document == old(document) + ("{" + MembersText(members, 0) + "}")
      decreases members, 1
    {
      hide Text, Writable, Quoted;
      Append("{");
      for index := 0 to |members|
        invariant document + MembersText(members, index) == old(document) + "{" + MembersText(members, 0)
      {
        if index > 0 {
          Append(",");
        }
        var name := ValueToQuotedString(members[index].name);
        Append(name);
        Append(":");
        WriteValue(members[index].value);
      }
      assert document == old(document) + "{" + MembersText(members, 0);
      Append("}");
    }

    /** write */
    method Write(root: Value) returns (text: string)
      requires Writable(root)
      modifies this
      ensures text == document == Text(root) + "\n"
    {
      document := "";
      WriteValue(root);
      document := document + "\n";
      text := document;
    }
  }

  lemma IntTextOf(i: int)
    ensures IntText(i) == if i < 0 then "-" + Digits(-i) else Digits(i)
  {
  }
}

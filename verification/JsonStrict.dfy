/**
 * A reader that does check for the commas, and what the loops of readArray and readObject accept beyond it.
 */
module JsonStrict {
  import opened Common
  import opened JsonValue
  import opened JsonWriter
  import opened JsonGrammar
  import opened JsonRoundTrip
  import opened JsonSeparators

  /** What was let pass: a token between two elements, one after a comment behind a member, a brace behind a comma. */
  datatype Leniency = Separator(kind: Kind) | AfterComment(kind: Kind) | TrailingComma

  // ---------- With the commas checked ----------

  function StrictValue(s: string): (r: Result<Value>)
    ensures r.Ok? ==> |r.rest| < |s|
    decreases |s|, 0
  {
    var t := NextToken(s);
    match t.kind
    case ObjectBegin => StrictMembers(t.rest, [], true)
    case ArrayBegin => StrictArray(t.rest)
    case _ => ReadValue(s)
  }

  function StrictArray(s: string): (r: Result<Value>)
    ensures r.Ok? ==> |r.rest| <= |s|
    decreases |s|, 2
  {
    var s := SkipSpaces(s);
    if s != "" && s[0] == ']' then Ok(Arr([]), s[1..]) else StrictElems(s, [])
  }

  /** An element is followed by a comma and an element, or by the bracket. */
  function StrictElems(s: string, elems: seq<Value>): (r: Result<Value>)
    ensures r.Ok? ==> |r.rest| <= |s|
    decreases |s|, 1
  {
    var v := StrictValue(s);
    if v.Fail? then Fail
    else
      var t := NextToken(v.rest);
      if t.kind == ArrayEnd then Ok(Arr(elems + [v.value]), t.rest)
      else if t.kind == ArraySeparator then StrictElems(t.rest, elems + [v.value])
      else Fail
  }

  /** A member is followed by a comma and a member, or by the brace; the first one may be missing. */
  function StrictMembers(s: string, members: seq<Member>, first: bool): (r: Result<Value>)
    ensures r.Ok? ==> |r.rest| <= |s|
    decreases |s|, 1
  {
    var t := NextToken(s);
    if t.kind == ObjectEnd && first then Ok(Obj(members), t.rest)
    else if t.kind != StringToken then Fail
    else
      var d := DecodeString(t.text);
      var colon := ReadToken(t.rest);
      if d.None? || colon.kind != MemberSeparator then Fail
      else
        var v := StrictValue(colon.rest);
        if v.Fail? then Fail
        else
          var more := Insert(members, Member(CString(d.value), v.value));
          var last := NextToken(v.rest);
          if last.kind == ObjectEnd then Ok(Obj(more), last.rest)
          else if last.kind == ArraySeparator then StrictMembers(last.rest, more, false)
          else Fail
  }

  // ---------- What the reader lets pass ----------

  /** Reading a value at s. */
  function Leniencies(s: string): seq<Leniency>
    decreases |s|, 0
  {
    var t := NextToken(s);
    match t.kind
    case ObjectBegin => MemberLeniencies(t.rest, "", true)
    case ArrayBegin =>
      var first := SkipSpaces(t.rest);
      if first != "" && first[0] == ']' then [] else ElemLeniencies(first)
    case _ => []
  }

  function ElemLeniencies(s: string): seq<Leniency>
    decreases |s|, 1
  {
    var v := ReadValue(s);
    Leniencies(s) +
    if v.Fail? then []
    else
      var t := NextToken(v.rest);
      if t.kind == ArrayEnd then []
      else (if t.kind == ArraySeparator then [] else [Separator(t.kind)]) + ElemLeniencies(t.rest)
  }

  function MemberLeniencies(s: string, name: string, first: bool): seq<Leniency>
    decreases |s|, 1
  {
    var t := NextToken(s);
    if t.kind == ObjectEnd then if name == "" && !first then [TrailingComma] else []
    else if t.kind != StringToken then []
    else
      var d := DecodeString(t.text);
      var colon := ReadToken(t.rest);
      if d.None? || colon.kind != MemberSeparator then []
      else
        var v := ReadValue(colon.rest);
        Leniencies(colon.rest) +
        if v.Fail? then []
        else
          var comma := ReadToken(v.rest);
          var last := NextToken(v.rest);
          if last.kind == ObjectEnd || (comma.kind != Comment && comma.kind != ArraySeparator) then []
          else (if last.kind == ArraySeparator then [] else [AfterComment(last.kind)]) +
               MemberLeniencies(last.rest, d.value, false)
  }

  /** Reading a text strictly is reading it and finding nothing that had to be let pass. */
  lemma {:induction false} StrictExact(s: string)
    ensures StrictValue(s) == if Leniencies(s) == [] then ReadValue(s) else Fail
    decreases |s|, 0
  {
    hide NextToken, ReadElems, StrictElems, ElemLeniencies, ReadMembers, StrictMembers, MemberLeniencies, DecodeString,
      DecodeNumber;
    var t := NextToken(s);
    if t.kind == ArrayBegin {
      ElemsExact(SkipSpaces(t.rest), []);
    } else if t.kind == ObjectBegin {
      MembersExact(t.rest, [], "", true);
    }
  }

  lemma {:induction false} ElemsExact(s: string, elems: seq<Value>)
    ensures StrictElems(s, elems) == if ElemLeniencies(s) == [] then ReadElems(s, elems) else Fail
    decreases |s|, 1
  {
    hide NextToken, ReadValue, StrictValue, Leniencies;
    StrictExact(s);
    var v := ReadValue(s);
    if v.Ok? {
      var t := NextToken(v.rest);
      if t.kind != ArrayEnd {
        ElemsExact(t.rest, elems + [v.value]);
      }
    }
  }

  lemma {:induction false} MembersExact(s: string, members: seq<Member>, name: string, first: bool)
    requires first ==> name == ""
    ensures StrictMembers(s, members, first) ==
            if MemberLeniencies(s, name, first) == [] then ReadMembers(s, members, name) else Fail
    decreases |s|, 1
  {
    hide NextToken, ReadToken, DecodeString, ReadValue, StrictValue, Leniencies, Insert, CString;
    var t := NextToken(s);
    var d := DecodeString(t.text);
    var colon := ReadToken(t.rest);
    if t.kind == StringToken && d.Some? && colon.kind == MemberSeparator {
      StrictExact(colon.rest);
      var v := ReadValue(colon.rest);
      if v.Ok? {
        SkipsComments(v.rest);
        MembersExact(NextToken(v.rest).rest, Insert(members, Member(CString(d.value), v.value)), d.value, false);
      }
    }
  }

  lemma SkipsComments(s: string)
    ensures var t := ReadToken(s);
            NextToken(s) == (if t.kind == Comment then NextToken(t.rest) else t)
  {
  }

  // ---------- What write writes is strict ----------

  lemma WrittenIsStrict(v: Value, suffix: string)
    requires Writable(v) && Delimited(suffix)
    ensures StrictValue(Text(v) + suffix) == Ok(Read(v), suffix)
  {
    hide *;
    RoundTrip(v, suffix);
    NothingLetPass(v, suffix);
    StrictExact(Text(v) + suffix);
  }

  lemma {:induction false} NothingLetPass(v: Value, suffix: string)
    requires Writable(v) && Delimited(suffix)
    ensures Leniencies(Text(v) + suffix) == []
    decreases v, 0
  {
    hide NextToken, ReadToken, ElemLeniencies, MemberLeniencies, ElemsText, MembersText, Text, Delimited;
    FirstToken(v, suffix);
    if v.Arr? && v.elems != [] {
      FirstElem(v.elems, suffix);
      TextStarts(v.elems[0]);
      NotSpace(AfterFirst(v, suffix));
      ElemsLetPass(v.elems, 0, suffix);
    } else if v.Obj? && v.members != [] {
      FirstMember(v.members, suffix);
      MembersLetPass(v.members, 0, "", true, suffix);
    } else if v.Arr? || v.Obj? {
      NothingInside(v, suffix);
    }
  }

  lemma NothingInside(v: Value, suffix: string)
    requires v == Arr([]) || v == Obj([])
    ensures v.Arr? ==> SkipSpaces(AfterFirst(v, suffix)) == "]" + suffix
    ensures v.Obj? ==> MemberLeniencies(AfterFirst(v, suffix), "", true) == []
  {
    hide MemberLeniencies, SkipSpaces;
    if v.Arr? {
      assert AfterFirst(v, suffix) == [']'] + suffix;
      NotSpace([']'] + suffix);
    } else {
      assert AfterFirst(v, suffix) == ['}'] + suffix;
      NoMember(suffix);
    }
  }

  lemma NoMember(suffix: string)
    ensures MemberLeniencies(['}'] + suffix, "", true) == []
  {
    hide NextToken, ReadToken, ReadValue, Leniencies;
    MarkToken('}', suffix);
  }

  lemma {:induction false} ElemsLetPass(elems: seq<Value>, i: nat, suffix: string)
    requires i < |elems| && forall i :: 0 <= i < |elems| ==> Writable(elems[i])
    ensures ElemLeniencies(Text(elems[i]) + AfterElem(elems, i, suffix)) == []
    decreases elems, |elems| - i
  {
    hide ReadValue, Leniencies, NextToken, ReadToken, Text, Read, ElemsText, AfterElem;
    var after := AfterElem(elems, i, suffix);
    AfterElemIs(elems, i, suffix);
    RoundTrip(elems[i], after);
    NothingLetPass(elems[i], after);
    if i + 1 == |elems| {
      MarkToken(']', suffix);
    } else {
      MarkToken(',', Text(elems[i + 1]) + AfterElem(elems, i + 1, suffix));
      ElemsLetPass(elems, i + 1, suffix);
    }
  }

  lemma {:induction false} MembersLetPass(members: seq<Member>, i: nat, name: string, first: bool, suffix: string)
    requires i < |members| && Writable(Obj(members))
    ensures MemberLeniencies(FromMember(members, i, suffix), name, first) == []
    decreases members, |members| - i
  {
    hide ReadValue, Leniencies, Text, Read, Quoted, MembersText, AfterMember, MemberLeniencies;
    var m := members[i];
    var after := AfterMember(members, i, suffix);
    AfterMemberIs(members, i, suffix);
    RoundTrip(m.value, after);
    NothingLetPass(m.value, after);
    if i + 1 == |members| {
      MemberLetPass(m, Text(m.value) + after, name, first, after, '}', suffix);
    } else {
      MemberLetPass(m, Text(m.value) + after, name, first, after, ',', FromMember(members, i + 1, suffix));
      MembersLetPass(members, i + 1, m.name, false, suffix);
    }
  }

  lemma MemberLetPass(m: Member, body: string, name: string, first: bool, after: string, mark: char, rest: string)
    requires NulFree(m.name) && ReadValue(body) == Ok(Read(m.value), after) && Leniencies(body) == []
    requires after == [mark] + rest && (mark == '}' || mark == ',')
    ensures MemberLeniencies(Quoted(m.name) + (":" + body), name, first) ==
            if mark == '}' then [] else MemberLeniencies(rest, m.name, false)
  {
    hide ReadValue, NextToken, ReadToken, Quoted, DecodeString, Read, Leniencies;
    QuotedToken(m.name, ":" + body);
    MarkToken(':', body);
    MarkToken(mark, rest);
  }

  // ---------- Between two elements, strictly ----------

  /** With the commas checked, nothing but a comma separates two elements, with comments around it. */
  lemma CommaExact(v: Value, w: Value, sep: string)
    requires Writable(v) && Writable(w) && Delimited(sep) && Aligned(sep + LastElem(w), LastElem(w))
    ensures StrictElems(Text(v) + (sep + LastElem(w)), []) == Ok(Arr([Read(v), Read(w)]), "") <==>
            OneSeparator(sep + LastElem(w), LastElem(w)) && NextToken(sep + LastElem(w)).kind == ArraySeparator
  {
    hide StrictElems, ElemLeniencies, ReadElems, ReadValue, NextToken, Text, Read, LastElem, Aligned, Blank, Overlay,
      NamesIn;
    var n := LastElem(w);
    var s := Text(v) + (sep + n);
    SeparatorExact(v, w, sep);
    ElemsExact(s, []);
    FirstLetPass(v, sep + n);
    var t := NextToken(sep + n);
    if Separates(sep, w) {
      if OneSeparator(sep + n, n) {
        LastLetPass(w, t.rest);
      } else {
        OverlayIsLenient(w, t.rest);
      }
    }
  }

  lemma FirstLetPass(v: Value, s: string)
    requires Writable(v) && Delimited(s)
    ensures var t := NextToken(s);
            ElemLeniencies(Text(v) + s) ==
            if t.kind == ArrayEnd then []
            else (if t.kind == ArraySeparator then [] else [Separator(t.kind)]) + ElemLeniencies(t.rest)
  {
    hide NextToken, ReadValue, Leniencies, Text, Read, Delimited;
    RoundTrip(v, s);
    NothingLetPass(v, s);
  }

  lemma LastLetPass(w: Value, s: string)
    requires Writable(w) && Blank(s, LastElem(w))
    ensures ElemLeniencies(s) == []
  {
    hide NextToken, ReadToken, ReadValue, Text, Read, Blank;
    LastElemFacts(w);
    BlankNext(s, LastElem(w));
    BlankIsRead(w, s);
    NothingLetPass(w, "]");
    SameStart(s, LastElem(w));
    AtBracket([], [], "");
  }

  lemma SameStart(s: string, n: string)
    requires NextToken(s) == NextToken(n)
    ensures Leniencies(s) == Leniencies(n)
  {
  }

  lemma OverlayIsLenient(w: Value, s: string)
    requires Writable(w) && Overlay(s, LastElem(w)).Some?
    ensures ElemLeniencies(s) != []
  {
    hide NextToken, ReadValue, LastElem, OpenMembers, MemberLeniencies;
    OpenIsLenient(w, NextToken(s).rest, [], "", true);
  }

  lemma {:induction false} OpenIsLenient(w: Value, s: string, members: seq<Member>, name: string, first: bool)
    requires Writable(w) && OpenMembers(s, LastElem(w), members).Some?
    ensures MemberLeniencies(s, name, first) != []
    decreases |s|
  {
    hide NextToken, ReadToken, ReadValue, DecodeString, LastElem, Blank, Insert, CString, Leniencies;
    var n := LastElem(w);
    LastElemFacts(w);
    var t := NextToken(s);
    var d := DecodeString(t.text).value;
    var v := ReadValue(ReadToken(t.rest).rest);
    var more := Insert(members, Member(CString(d), v.value));
    var comma := ReadToken(v.rest);
    SkipsComments(v.rest);
    if comma.kind == ArraySeparator {
      OpenIsLenient(w, comma.rest, more, d, false);
    } else if Blank(comma.rest, n) {
      BlankNext(comma.rest, n);
    } else {
      OpenIsLenient(w, NextToken(comma.rest).rest, more, d, false);
    }
  }
}

/**
 * What may stand between two elements of an array and between two members of an object: the loops of readArray and
 * readObject check less than a comma.
 */
module JsonSeparators {
  import opened Common
  import opened JsonValue
  import opened JsonWriter
  import opened JsonGrammar
  import opened JsonRoundTrip

  // ---------- Tokens before a text ----------

  /** The tokens of s come to the start of n, which ends s. */
  predicate Aligned(s: string, n: string)
    decreases |s|
  {
    var q := SkipSpaces(s);
    if |q| <= |n| then q == n else Aligned(ReadToken(s).rest, n)
  }

  /** Nothing but spaces and comments stands before n. */
  predicate Blank(s: string, n: string)
    decreases |s|
  {
    var q := SkipSpaces(s);
    q == n || (|q| > |n| && ReadToken(s).kind == Comment && Blank(ReadToken(s).rest, n))
  }

  predicate Starts(n: string) {
    n != "" && !IsSpace(n[0])
  }

  lemma AlignedToken(s: string, n: string)
    requires Aligned(s, n) && Starts(n)
    ensures |s| >= |n|
    ensures SkipSpaces(s) == n ==> ReadToken(s) == ReadToken(n)
    ensures SkipSpaces(s) != n ==> Aligned(ReadToken(s).rest, n) && |ReadToken(s).rest| < |s|
  {
    hide Scan, IsSpace;
    NotSpace(n);
  }

  lemma AlignedSkip(s: string, n: string)
    requires Aligned(s, n) && Starts(n)
    ensures Aligned(SkipSpaces(s), n) && ReadToken(SkipSpaces(s)) == ReadToken(s)
  {
    hide Scan, IsSpace;
    if SkipSpaces(s) != "" {
      NotSpace(SkipSpaces(s));
    }
  }

  /** The next token is either the first one of n or one before n. */
  lemma {:induction false} AlignedNext(s: string, n: string)
    requires Aligned(s, n) && Starts(n)
    ensures Blank(s, n) ==> NextToken(s) == NextToken(n)
    ensures !Blank(s, n) ==> Aligned(NextToken(s).rest, n) && |NextToken(s).rest| < |s|
    decreases |s|
  {
    hide ReadToken, SkipSpaces;
    AlignedToken(s, n);
    if SkipSpaces(s) != n && ReadToken(s).kind == Comment {
      AlignedNext(ReadToken(s).rest, n);
    }
  }

  // ---------- A value and a bracket ----------

  /** The last element of an array. */
  function LastElem(w: Value): string {
    Text(w) + "]"
  }

  function FirstKind(w: Value): Kind {
    match w
    case Null => NullToken
    case Bool(b) => if b then TrueToken else FalseToken
    case Str(_) => StringToken
    case Arr(_) => ArrayBegin
    case Obj(_) => ObjectBegin
    case _ => Kind.NumberToken
  }

  /** What is left of the value after its first token. */
  function AfterFirst(w: Value, suffix: string): string {
    match w
    case Arr(elems) => ElemsText(elems, 0) + ("]" + suffix)
    case Obj(members) => MembersText(members, 0) + ("}" + suffix)
    case _ => suffix
  }

  /** The first token of a written value. */
  lemma FirstToken(w: Value, suffix: string)
    requires Writable(w) && Delimited(suffix)
    ensures var t := NextToken(Text(w) + suffix);
            ReadToken(Text(w) + suffix) == t && t.kind == FirstKind(w) && t.rest == AfterFirst(w, suffix)
  {
    if w.Arr? || w.Obj? {
      FirstMark(w, suffix);
    } else {
      FirstScalar(w, suffix);
    }
  }

  lemma FirstMark(w: Value, suffix: string)
    requires w.Arr? || w.Obj?
    ensures var t := NextToken(Text(w) + suffix);
            ReadToken(Text(w) + suffix) == t && t.kind == FirstKind(w) && t.rest == AfterFirst(w, suffix)
  {
    hide NextToken, ReadToken, ElemsText, MembersText;
    var c := if w.Arr? then '[' else '{';
    MarkToken(c, AfterFirst(w, suffix));
    assert Text(w) + suffix == [c] + AfterFirst(w, suffix);
  }

  lemma FirstScalar(w: Value, suffix: string)
    requires Writable(w) && Delimited(suffix) && !w.Arr? && !w.Obj?
    ensures var t := NextToken(Text(w) + suffix);
            ReadToken(Text(w) + suffix) == t && t.kind == FirstKind(w) && t.rest == AfterFirst(w, suffix)
  {
    hide NextToken, ReadToken, Delimited, Quoted, IntText;
    if w.Int? || w.UInt? {
      IntegerToken(if w.Int? then w.i else w.u, suffix);
    } else if w.Str? {
      QuotedToken(w.s, suffix);
    } else {
      WordToken(if w.Null? then "null" else if w.b then "true" else "false", suffix);
    }
  }

  lemma IntegerToken(i: int, suffix: string)
    requires MIN_INT <= i <= MAX_UINT && Delimited(suffix)
    ensures var t := NextToken(IntText(i) + suffix);
            ReadToken(IntText(i) + suffix) == t && t.kind == Kind.NumberToken && t.rest == suffix
  {
    hide NextToken, ReadToken, Delimited;
    var n := if i < 0 then -i else i;
    DigitsAreDigits(n);
    JsonRoundTrip.NumberToken(Digits(n), IntText(i), suffix);
  }

  lemma LastElemFacts(w: Value)
    requires Writable(w)
    ensures var n := LastElem(w);
            && Starts(n) && |n| >= 2 && ReadToken(n) == NextToken(n)
            && NextToken(n).kind == FirstKind(w) && NextToken(n).rest == AfterFirst(w, "]")
            && ReadValue(n) == Ok(Read(w), "]")
  {
    hide NextToken, ReadToken, ReadValue, Text, Read;
    TextStarts(w);
    FirstToken(w, "]");
    RoundTrip(w, "]");
  }

  /** The loops stop at a bracket, and at the end. */
  lemma AtBracket(elems: seq<Value>, members: seq<Member>, name: string)
    ensures NextToken("]") == ReadToken("]") == Token(ArrayEnd, "]", "")
    ensures NextToken("") == ReadToken("") == Token(EndOfStream, "", "")
    ensures ReadElems("]", elems) == ReadElems("", elems) == Fail
    ensures ReadMembers("]", members, name) == Fail
  {
    hide NextToken, ReadToken;
    MarkToken(']', "");
    assert [']'] + "" == "]";
    AtEnd();
  }

  lemma AtEnd()
    ensures NextToken("") == ReadToken("") == Token(EndOfStream, "", "")
  {
  }

  // ---------- The elements so far ----------

  /** They are in front of those that follow. */
  lemma {:induction false} ElemsPrefix(s: string, before: seq<Value>, elems: seq<Value>)
    ensures var r := ReadElems(s, elems);
            && (r.Ok? ==> r.value.Arr? && |r.value.elems| > |elems|)
            && ReadElems(s, before + elems) == (if r.Ok? then Ok(Arr(before + r.value.elems), r.rest) else Fail)
    decreases |s|
  {
    hide NextToken, ReadValue;
    var v := ReadValue(s);
    if v.Ok? {
      var t := NextToken(v.rest);
      assert (before + elems) + [v.value] == before + (elems + [v.value]);
      if t.kind != ArrayEnd {
        ElemsPrefix(t.rest, before, elems + [v.value]);
      }
    }
  }

  // ---------- A value whose first token was taken for something else ----------

  /** For a separator of elements: only the elements of an array can be read then. */
  lemma ElemsAfterFirst(w: Value, elems: seq<Value>)
    requires Writable(w)
    ensures ReadElems(AfterFirst(w, "]"), elems) ==
            if w.Arr? && w.elems != [] then Ok(Arr(elems + ReadAll(w.elems)), "]") else Fail
  {
    AtBracket(elems, [], "");
    if w.Arr? {
      InnerElems(w.elems, elems);
    } else if w.Obj? {
      InnerMembers(w.members, elems);
    }
  }

  lemma InnerElems(inner: seq<Value>, elems: seq<Value>)
    requires Writable(Arr(inner))
    ensures ReadElems(ElemsText(inner, 0) + ("]" + "]"), elems) ==
            if inner != [] then Ok(Arr(elems + ReadAll(inner)), "]") else Fail
  {
    hide ReadElems, Text, AfterElem;
    var s := ElemsText(inner, 0) + ("]" + "]");
    if inner == [] {
      assert s == [']'] + "]";
      BracketFails(elems);
    } else {
      hide ElemsText;
      FirstElem(inner, "]");
      ElemsRoundTrip(inner, 0, "]");
      assert ReadAll(inner)[..0] == [] && elems + [] == elems;
      ElemsPrefix(s, elems, []);
    }
  }

  lemma BracketFails(elems: seq<Value>)
    ensures ReadElems([']'] + "]", elems) == ReadElems(['}'] + "]", elems) == Fail
  {
    hide NextToken;
    MarkToken(']', "]");
    MarkToken('}', "]");
  }

  lemma InnerMembers(members: seq<Member>, elems: seq<Value>)
    requires Writable(Obj(members))
    ensures ReadElems(MembersText(members, 0) + ("}" + "]"), elems) == Fail
  {
    hide ReadElems;
    if members == [] {
      assert MembersText(members, 0) + ("}" + "]") == ['}'] + "]";
      BracketFails(elems);
    } else {
      FirstMember(members, "]");
      MembersAsElems(members, 0, elems);
    }
  }

  /** Names and values are read as elements, colons and commas are skipped, but nothing follows the last of them. */
  lemma {:induction false} MembersAsElems(members: seq<Member>, i: nat, elems: seq<Value>)
    requires Writable(Obj(members)) && i < |members|
    ensures ReadElems(FromMember(members, i, "]"), elems) == Fail
    decreases |members| - i
  {
    hide ReadElems, Text, AfterMember, Quoted;
    var m := members[i];
    var after := AfterMember(members, i, "]");
    AfterMemberIs(members, i, "]");
    NameAsElem(m.name, Text(m.value) + after, elems);
    var more := elems + [Str(m.name)];
    RoundTrip(m.value, after);
    if i + 1 == |members| {
      ElemStep(Text(m.value) + after, more, Read(m.value), after, '}', "]");
      AtBracket(more + [Read(m.value)], [], "");
    } else {
      ElemStep(Text(m.value) + after, more, Read(m.value), after, ',', FromMember(members, i + 1, "]"));
      MembersAsElems(members, i + 1, more + [Read(m.value)]);
    }
  }

  lemma NameAsElem(name: string, body: string, elems: seq<Value>)
    requires NulFree(name)
    ensures ReadElems(Quoted(name) + (":" + body), elems) == ReadElems(body, elems + [Str(name)])
  {
    hide ReadElems, Quoted, ReadValue, CString;
    CStringNulFree(name);
    StringRoundTrip(name, ":" + body);
    ElemStep(Quoted(name) + (":" + body), elems, Str(name), ":" + body, ':', body);
  }

  /** The members of an object, on top of those read before. */
  function InsertAll(members: seq<Member>, more: seq<Member>): seq<Member> {
    if more == [] then members else Insert(InsertAll(members, more[..|more| - 1]), more[|more| - 1])
  }

  /** For a comma between members: only the members of an object can be read then. */
  lemma MembersAfterFirst(w: Value, members: seq<Member>, name: string)
    requires Writable(w)
    ensures var r := ReadMembers(AfterFirst(w, "]"), members, name);
            && (r.Ok? ==> w.Obj? && r == Ok(Obj(InsertAll(members, ReadMembersOf(w.members))), "]"))
            && (w.Obj? && w.members != [] ==> r.Ok?)
  {
    AtBracket([], members, name);
    if w.Arr? {
      ElemsAsMembers(w.elems, members, name);
    } else if w.Obj? {
      if w.members == [] {
        BraceEnds(members, name);
        assert MembersText(w.members, 0) + ("}" + "]") == ['}'] + "]";
      } else {
        FirstMember(w.members, "]");
        MembersOnTop(w.members, 0, members, name, "]");
        assert ReadMembersOf(w.members)[..0] == [];
      }
    }
  }

  lemma BraceEnds(members: seq<Member>, name: string)
    ensures ReadMembers(['}'] + "]", members, name) == if name == "" then Ok(Obj(members), "]") else Fail
    ensures ReadMembers([']'] + "]", members, name) == Fail
  {
    hide NextToken;
    MarkToken('}', "]");
    MarkToken(']', "]");
  }

  lemma ElemsAsMembers(elems: seq<Value>, members: seq<Member>, name: string)
    requires Writable(Arr(elems))
    ensures ReadMembers(ElemsText(elems, 0) + ("]" + "]"), members, name) == Fail
  {
    if elems == [] {
      assert ElemsText(elems, 0) + ("]" + "]") == [']'] + "]";
      BraceEnds(members, name);
    } else {
      FirstElem(elems, "]");
      AfterElemIs(elems, 0, "]");
      hide *;
      ElemAsMember(elems[0], AfterElem(elems, 0, "]"), members, name);
    }
  }

  lemma ElemAsMember(v: Value, after: string, members: seq<Member>, name: string)
    requires Writable(v) && after != "" && (after[0] == ']' || after[0] == ',')
    ensures ReadMembers(Text(v) + after, members, name) == Fail
  {
    hide Text, NextToken, ReadToken, ReadMembers, Writable, FirstKind, AfterFirst;
    FirstToken(v, after);
    FirstIsNoName(v, after);
    MarkToken(after[0], after[1..]);
    assert after == [after[0]] + after[1..];
    NoMember(Text(v) + after, members, name);
  }

  lemma FirstIsNoName(v: Value, after: string)
    ensures FirstKind(v) != ObjectEnd && (FirstKind(v) == StringToken ==> AfterFirst(v, after) == after)
  {
  }

  lemma NoMember(s: string, members: seq<Member>, name: string)
    requires var t := NextToken(s);
             t.kind != ObjectEnd && (t.kind == StringToken ==> ReadToken(t.rest).kind != MemberSeparator)
    ensures ReadMembers(s, members, name) == Fail
  {
    hide NextToken, ReadToken, DecodeString;
  }

  lemma {:induction false} MembersOnTop(members: seq<Member>, i: nat, before: seq<Member>, name: string, suffix: string)
    requires i < |members| && Writable(Obj(members))
    ensures ReadMembers(FromMember(members, i, suffix), InsertAll(before, ReadMembersOf(members)[..i]), name) ==
            Ok(Obj(InsertAll(before, ReadMembersOf(members))), suffix)
    decreases |members| - i
  {
    hide ReadMembers, ReadValue, Text, Read, Quoted, Insert, ReadMembersOf, MembersText, AfterMember;
    var m := members[i];
    var after := AfterMember(members, i, suffix);
    AfterMemberIs(members, i, suffix);
    var all := ReadMembersOf(members);
    var now := InsertAll(before, all[..i]);
    assert all[..i + 1][..i] == all[..i];
    RoundTrip(m.value, after);
    if i + 1 == |members| {
      MemberStep(now, name, all[i], Text(m.value) + after, after, '}', suffix);
      assert all[..i + 1] == all;
    } else {
      MemberStep(now, name, all[i], Text(m.value) + after, after, ',', FromMember(members, i + 1, suffix));
      MembersOnTop(members, i + 1, before, m.name, suffix);
    }
  }

  // ---------- What is read across the start of the last element ----------

  /**
   * The members that the loop of readObject has read when, after a comment in the place of a comma, it comes to n, the
   * first token of which it then skips.
   */
  function OpenMembers(s: string, n: string, members: seq<Member>): Option<seq<Member>>
    decreases |s|
  {
    var t := NextToken(s);
    if t.kind != StringToken then None
    else
      var d := DecodeString(t.text);
      var colon := ReadToken(t.rest);
      if d.None? || colon.kind != MemberSeparator then None
      else
        var v := ReadValue(colon.rest);
        if v.Fail? then None
        else
          var more := Insert(members, Member(CString(d.value), v.value));
          var comma := ReadToken(v.rest);
          if comma.kind == ArraySeparator then OpenMembers(comma.rest, n, more)
          else if comma.kind != Comment then None
          else if Blank(comma.rest, n) then Some(more)
          else
            var last := NextToken(comma.rest);
            if last.kind == ObjectEnd then None else OpenMembers(last.rest, n, more)
  }

  /** The members read that way by an object that begins at s. */
  function Overlay(s: string, n: string): Option<seq<Member>> {
    var t := NextToken(s);
    if t.kind == ObjectBegin then OpenMembers(t.rest, n, []) else None
  }

  /** What can be left after a value that began before the last element w. */
  ghost predicate ValueCrosses(w: Value, s: string, r: Result<Value>) {
    var n := LastElem(w);
    r.Ok? ==>
      if Blank(s, n) then r.rest == "]" && r.value == Read(w)
      else
        || Aligned(r.rest, n) || r.rest == ""
        || (r.rest == "]" && w.Arr? && r.value.Arr? && |r.value.elems| > |w.elems|)
        || (r.rest == "]" && w.Obj? && Overlay(s, n).Some? &&
            r.value == Obj(InsertAll(Overlay(s, n).value, ReadMembersOf(w.members))))
  }

  ghost predicate ElemsCross(w: Value, elems: seq<Value>, r: Result<Value>) {
    r.Ok? ==>
      || Aligned(r.rest, LastElem(w)) || r.rest == ""
      || (r.rest == "]" && w.Arr? && r.value.Arr? && |r.value.elems| > |elems| + |w.elems|)
  }

  ghost predicate MembersCross(w: Value, s: string, members: seq<Member>, r: Result<Value>) {
    CommaCrosses(w, r, OpenMembers(s, LastElem(w), members))
  }

  lemma {:induction false} CrossValue(w: Value, s: string)
    requires Writable(w) && Aligned(s, LastElem(w))
    ensures ValueCrosses(w, s, ReadValue(s))
    decreases |s|, 0
  {
    hide NextToken, ReadToken, DecodeNumber, DecodeString, ReadArray, ReadMembers, Read, LastElem, OpenMembers, Aligned, Blank;
    var n := LastElem(w);
    LastElemFacts(w);
    AlignedNext(s, n);
    if !Blank(s, n) {
      var t := NextToken(s);
      if t.kind == ArrayBegin {
        CrossArray(w, t.rest);
      } else if t.kind == ObjectBegin {
        CrossMembers(w, t.rest, [], "");
      }
    }
  }

  lemma CrossArray(w: Value, s: string)
    requires Writable(w) && Aligned(s, LastElem(w))
    ensures ElemsCross(w, [], ReadArray(s))
    decreases |s|, 2
  {
    hide ReadElems, Read, LastElem;
    var n := LastElem(w);
    LastElemFacts(w);
    AlignedSkip(s, n);
    CrossElems(w, SkipSpaces(s), []);
  }

  lemma {:induction false} CrossElems(w: Value, s: string, elems: seq<Value>)
    requires Writable(w) && Aligned(s, LastElem(w))
    ensures ElemsCross(w, elems, ReadElems(s, elems))
    decreases |s|, 1
  {
    hide NextToken, ReadToken, ReadValue, Read, LastElem, Aligned, Blank, Overlay;
    var n := LastElem(w);
    LastElemFacts(w);
    CrossValue(w, s);
    var v := ReadValue(s);
    if v.Ok? {
      var more := elems + [v.value];
      AtBracket(more, [], "");
      if Aligned(v.rest, n) {
        AlignedNext(v.rest, n);
        if Blank(v.rest, n) {
          ElemsAfterFirst(w, more);
        } else if NextToken(v.rest).kind != ArrayEnd {
          CrossElems(w, NextToken(v.rest).rest, more);
        }
      }
    }
  }

  lemma {:induction false} CrossMembers(w: Value, s: string, members: seq<Member>, name: string)
    requires Writable(w) && Aligned(s, LastElem(w))
    ensures MembersCross(w, s, members, ReadMembers(s, members, name))
    decreases |s|, 1
  {
    hide NextToken, ReadToken, ReadValue, DecodeString, Read, LastElem, Aligned, Blank, Overlay, Insert, CString,
      InsertAll, ReadMembersOf;
    var n := LastElem(w);
    LastElemFacts(w);
    AlignedNext(s, n);
    var t := NextToken(s);
    if Blank(s, n) {
      AtBracket([], members, name);
      NoMember(s, members, name);
    } else if t.kind == StringToken {
      AlignedToken(t.rest, n);
      var colon := ReadToken(t.rest);
      if SkipSpaces(t.rest) != n && colon.kind == MemberSeparator && DecodeString(t.text).Some? {
        CrossAfterName(w, colon.rest, members, DecodeString(t.text).value);
      }
    }
  }

  /** The loop of readObject after a name and a colon. */
  function AfterName(s: string, members: seq<Member>, name: string): Result<Value> {
    var v := ReadValue(s);
    if v.Fail? then Fail else AfterValue(v.rest, Insert(members, Member(CString(name), v.value)), name)
  }

  function OpenAfterName(s: string, n: string, members: seq<Member>, name: string): Option<seq<Member>> {
    var v := ReadValue(s);
    if v.Fail? then None else OpenAfterValue(v.rest, n, Insert(members, Member(CString(name), v.value)))
  }

  lemma CrossAfterName(w: Value, s: string, members: seq<Member>, name: string)
    requires Writable(w) && Aligned(s, LastElem(w))
    ensures CommaCrosses(w, AfterName(s, members, name), OpenAfterName(s, LastElem(w), members, name))
    decreases |s|, 1
  {
    hide NextToken, ReadToken, ReadValue, Read, LastElem, Aligned, Blank, Overlay, Insert, CString, OpenAfterValue;
    CrossValue(w, s);
    AtBracket([], members, name);
    var v := ReadValue(s);
    if v.Ok? && Aligned(v.rest, LastElem(w)) {
      CrossComma(w, v.rest, Insert(members, Member(CString(name), v.value)), name);
    }
  }

  ghost predicate CommaCrosses(w: Value, r: Result<Value>, open: Option<seq<Member>>) {
    r.Ok? ==>
      || Aligned(r.rest, LastElem(w))
      || (r.rest == "]" && w.Obj? && open.Some? && r.value == Obj(InsertAll(open.value, ReadMembersOf(w.members))))
  }

  /** The loop of readObject after a value. */
  function AfterValue(s: string, members: seq<Member>, name: string): Result<Value> {
    var comma := ReadToken(s);
    if comma.kind != ObjectEnd && comma.kind != ArraySeparator && comma.kind != Comment then Fail
    else
      var last := if comma.kind == Comment then NextToken(comma.rest) else comma;
      if last.kind == ObjectEnd then Ok(Obj(members), last.rest) else ReadMembers(last.rest, members, name)
  }

  function OpenAfterValue(s: string, n: string, members: seq<Member>): Option<seq<Member>> {
    var comma := ReadToken(s);
    if comma.kind == ArraySeparator then OpenMembers(comma.rest, n, members)
    else if comma.kind != Comment then None
    else if Blank(comma.rest, n) then Some(members)
    else
      var last := NextToken(comma.rest);
      if last.kind == ObjectEnd then None else OpenMembers(last.rest, n, members)
  }

  lemma CrossComma(w: Value, s: string, members: seq<Member>, name: string)
    requires Writable(w) && Aligned(s, LastElem(w))
    ensures CommaCrosses(w, AfterValue(s, members, name), OpenAfterValue(s, LastElem(w), members))
    decreases |s|, 0
  {
    hide NextToken, ReadToken, ReadMembers, Read, LastElem, Aligned, Blank, OpenMembers;
    var n := LastElem(w);
    LastElemFacts(w);
    AlignedToken(s, n);
    if SkipSpaces(s) != n {
      var comma := ReadToken(s);
      if comma.kind == ArraySeparator {
        CrossMembers(w, comma.rest, members, name);
      } else if comma.kind == Comment {
        AlignedNext(comma.rest, n);
        if Blank(comma.rest, n) {
          MembersAfterFirst(w, members, name);
        } else if NextToken(comma.rest).kind != ObjectEnd {
          CrossMembers(w, NextToken(comma.rest).rest, members, name);
        }
      }
    }
  }

  // ---------- Members that are overwritten ----------

  lemma {:induction false} LessTransitive(a: string, b: string, c: string)
    requires Less(a, b) && Less(b, c)
    ensures Less(a, c)
  {
    if a != "" && a[0] == b[0] == c[0] {
      LessTransitive(a[1..], b[1..], c[1..]);
    }
  }

  /** The map holds the new member, and the old ones with other names. */
  lemma {:induction false} InsertIs(members: seq<Member>, m: Member)
    requires Sorted(members)
    ensures Sorted(Insert(members, m))
    ensures forall x :: x in Insert(members, m) <==> x == m || (x in members && x.name != m.name)
    decreases |members|
  {
    if members != [] {
      var first, rest := members[0], members[1..];
      assert members == [first] + rest;
      LessIsStrict(first.name, m.name);
      if first.name == m.name {
        assert forall x :: x in rest ==> x.name != m.name;
      } else if Less(m.name, first.name) {
        forall x | x in rest ensures Less(m.name, x.name) {
          LessTransitive(m.name, first.name, x.name);
        }
        forall x | x in members ensures x.name != m.name {
          LessIsStrict(m.name, x.name);
        }
      } else {
        InsertIs(rest, m);
        assert forall x :: x in Insert(rest, m) ==> Less(first.name, x.name);
      }
    }
  }

  lemma TailHas(a: seq<Member>)
    requires Sorted(a) && a != []
    ensures forall x :: x in a[1..] <==> x in a && x != a[0]
  {
    LessIsStrict(a[0].name, a[0].name);
    assert a == [a[0]] + a[1..];
  }

  /** Two maps with the same members are the same. */
  lemma {:induction false} SameMembers(a: seq<Member>, b: seq<Member>)
    requires Sorted(a) && Sorted(b) && forall x :: x in a <==> x in b
    ensures a == b
  {
    assert b == [] || b[0] in b;
    if a != [] {
      assert a[0] in b;
      assert b[0] in a;
      LessIsStrict(a[0].name, b[0].name);
      assert a == [a[0]] + a[1..] && b == [b[0]] + b[1..];
      TailHas(a);
      TailHas(b);
      SameMembers(a[1..], b[1..]);
    }
  }

  predicate Named(members: seq<Member>, name: string) {
    exists j :: 0 <= j < |members| && members[j].name == name
  }

  predicate NamesIn(a: seq<Member>, b: seq<Member>) {
    forall i :: 0 <= i < |a| ==> Named(b, a[i].name)
  }

  lemma {:induction false} InsertAllIs(members: seq<Member>, more: seq<Member>)
    requires Sorted(members) && Sorted(more)
    ensures Sorted(InsertAll(members, more))
    ensures forall x :: x in InsertAll(members, more) <==> x in more || (x in members && !Named(more, x.name))
    decreases |more|
  {
    if more != [] {
      var k := |more| - 1;
      var front, m := more[..k], more[k];
      assert more == front + [m];
      InsertAllIs(members, front);
      InsertIs(InsertAll(members, front), m);
      forall x ensures Named(more, x) <==> Named(front, x) || x == m.name {
        if Named(front, x) {
          var j :| 0 <= j < |front| && front[j].name == x;
          assert more[j].name == x;
        }
        if Named(more, x) && x != m.name {
          var j :| 0 <= j < |more| && more[j].name == x;
          assert front[j].name == x;
        }
        if x == m.name {
          assert more[k].name == x;
        }
      }
      forall x | x in front ensures x.name != m.name {
        LessIsStrict(m.name, m.name);
      }
    }
  }

  /** Members leave no trace under those that are read later if and only if these have all their names. */
  lemma OverwrittenExact(members: seq<Member>, more: seq<Member>)
    requires Sorted(members) && Sorted(more)
    ensures InsertAll(members, more) == more <==> NamesIn(members, more)
  {
    InsertAllIs(members, more);
    if NamesIn(members, more) {
      SameMembers(InsertAll(members, more), more);
    } else {
      var i :| 0 <= i < |members| && !Named(more, members[i].name);
      assert members[i] in InsertAll(members, more);
      assert forall j :: 0 <= j < |more| ==> more[j] != members[i];
    }
  }

  lemma {:induction false} BlankNext(s: string, n: string)
    requires Blank(s, n) && Starts(n)
    ensures NextToken(s) == NextToken(n)
    decreases |s|
  {
    hide Scan, IsSpace;
    NotSpace(n);
    if SkipSpaces(s) != n {
      BlankNext(ReadToken(s).rest, n);
    }
  }

  /** The loop of readObject does come that way, and goes on with the members of w. */
  lemma {:induction false} OpenReads(w: Value, s: string, members: seq<Member>, name: string)
    requires Writable(w) && w.Obj? && Sorted(members) && OpenMembers(s, LastElem(w), members).Some?
    ensures var o := OpenMembers(s, LastElem(w), members).value;
            && Sorted(o) && o != []
            && (w.members != [] ==>
                  ReadMembers(s, members, name) == Ok(Obj(InsertAll(o, ReadMembersOf(w.members))), "]"))
    decreases |s|
  {
    hide NextToken, ReadToken, ReadValue, DecodeString, Read, LastElem, Blank, Insert, CString;
    var n := LastElem(w);
    LastElemFacts(w);
    var t := NextToken(s);
    var d := DecodeString(t.text).value;
    var v := ReadValue(ReadToken(t.rest).rest);
    var more := Insert(members, Member(CString(d), v.value));
    InsertIs(members, Member(CString(d), v.value));
    assert Member(CString(d), v.value) in more;
    var comma := ReadToken(v.rest);
    if comma.kind == ArraySeparator {
      OpenReads(w, comma.rest, more, d);
    } else if Blank(comma.rest, n) {
      BlankNext(comma.rest, n);
      MembersAfterFirst(w, more, d);
    } else {
      OpenReads(w, NextToken(comma.rest).rest, more, d);
    }
  }

  lemma OverlayExact(w: Value, s: string)
    requires Writable(w) && w.Obj? && Overlay(s, LastElem(w)).Some?
    ensures var o := Overlay(s, LastElem(w)).value;
            && (InsertAll(o, ReadMembersOf(w.members)) == ReadMembersOf(w.members) <==> NamesIn(o, w.members))
            && (NamesIn(o, w.members) ==> ReadValue(s) == Ok(Read(w), "]"))
  {
    hide NextToken, LastElem, OpenMembers, ReadMembers;
    var o := Overlay(s, LastElem(w)).value;
    OpenReads(w, NextToken(s).rest, [], "");
    var all := ReadMembersOf(w.members);
    assert Sorted(all);
    OverwrittenExact(o, all);
    forall x ensures Named(all, x) <==> Named(w.members, x) {
      if Named(all, x) {
        var j :| 0 <= j < |all| && all[j].name == x;
        assert w.members[j].name == x;
      }
      if Named(w.members, x) {
        var j :| 0 <= j < |w.members| && w.members[j].name == x;
        assert all[j].name == x;
      }
    }
    if NamesIn(o, w.members) {
      assert Named(w.members, o[0].name);
    }
  }

  // ---------- Between two elements ----------

  /**
   * What may stand between two elements, the second of which is w: any one token but a closing bracket, with spaces and
   * comments around it; and, before an object, also a token and the beginning of another object, the members of which
   * are all overwritten, up to a comment in the place of a comma.
   */
  predicate Separates(sep: string, w: Value) {
    OneSeparator(sep + LastElem(w), LastElem(w)) || Overwritten(sep, w)
  }

  /** One token but a closing bracket stands before n, with comments around it. */
  predicate OneSeparator(s: string, n: string) {
    !Blank(s, n) && NextToken(s).kind != ArrayEnd && Blank(NextToken(s).rest, n)
  }

  predicate Overwritten(sep: string, w: Value) {
    var n := LastElem(w);
    var t := NextToken(sep + n);
    var o := Overlay(t.rest, n);
    w.Obj? && !Blank(sep + n, n) && t.kind != ArrayEnd && o.Some? && NamesIn(o.value, w.members)
  }

  /** Which text readArray takes for a separator of two elements, if the text ends where a token ends. */
  lemma SeparatorExact(v: Value, w: Value, sep: string)
    requires Writable(v) && Writable(w) && Delimited(sep) && Aligned(sep + LastElem(w), LastElem(w))
    ensures ReadElems(Text(v) + (sep + LastElem(w)), []) == Ok(Arr([Read(v), Read(w)]), "") <==> Separates(sep, w)
  {
    hide ReadElems, ReadValue, NextToken, ReadToken, Text, Read, LastElem, Aligned, Blank, Overlay, NamesIn;
    var n := LastElem(w);
    var s := sep + n;
    LastElemFacts(w);
    RoundTrip(v, s);
    AlignedNext(s, n);
    AfterFirstValue(Text(v) + s, Read(v), s);
    var t := NextToken(s);
    if Blank(s, n) {
      ElemsAfterFirst(w, [Read(v)]);
    } else if t.kind != ArrayEnd {
      SecondExact(v, w, t.rest);
    } else {
      assert [Read(v)] != [Read(v), Read(w)];
    }
  }

  lemma AfterFirstValue(s: string, v: Value, rest: string)
    requires ReadValue(s) == Ok(v, rest)
    ensures var t := NextToken(rest);
            ReadElems(s, []) == if t.kind == ArrayEnd then Ok(Arr([v]), t.rest) else ReadElems(t.rest, [v])
  {
    hide ReadValue, NextToken;
    assert [] + [v] == [v];
  }

  /** After the separator: what is read is the second element and the end of the array. */
  lemma SecondExact(v: Value, w: Value, s: string)
    requires Writable(w) && Aligned(s, LastElem(w))
    ensures var n := LastElem(w);
            ReadElems(s, [Read(v)]) == Ok(Arr([Read(v), Read(w)]), "") <==>
            Blank(s, n) || (w.Obj? && Overlay(s, n).Some? && NamesIn(Overlay(s, n).value, w.members))
  {
    hide *;
    SecondIs(Read(v), w, s);
    ValueExact(w, s);
  }

  lemma ValueExact(w: Value, s: string)
    requires Writable(w) && Aligned(s, LastElem(w))
    ensures var n := LastElem(w);
            ReadValue(s) == Ok(Read(w), "]") <==>
            Blank(s, n) || (w.Obj? && Overlay(s, n).Some? && NamesIn(Overlay(s, n).value, w.members))
  {
    hide ReadValue, Text, LastElem, Aligned, Blank, Overlay, NamesIn;
    LastElemFacts(w);
    CrossValue(w, s);
    BlankIsRead(w, s);
    NotBeforeBracket(LastElem(w));
    if w.Obj? && Overlay(s, LastElem(w)).Some? {
      OverlayExact(w, s);
    }
  }

  lemma BlankIsRead(w: Value, s: string)
    requires Writable(w)
    ensures Blank(s, LastElem(w)) ==> ReadValue(s) == Ok(Read(w), "]")
  {
    hide NextToken, LastElem, Blank;
    LastElemFacts(w);
    if Blank(s, LastElem(w)) {
      BlankNext(s, LastElem(w));
    }
  }

  lemma SecondIs(v: Value, w: Value, s: string)
    requires Writable(w) && Aligned(s, LastElem(w))
    ensures ReadElems(s, [v]) == Ok(Arr([v, Read(w)]), "") <==> ReadValue(s) == Ok(Read(w), "]")
  {
    hide ReadValue, ReadElems, LastElem, Aligned, Blank, Overlay, Read;
    CrossValue(w, s);
    var y := ReadValue(s);
    if y.Fail? {
      NoSecond(s, v);
    } else if y.rest == "]" {
      EndsAtBracket(s, v, y.value);
      assert [v, y.value][1] == y.value;
    } else {
      GoesOn(w, s, v, y.value, y.rest);
    }
  }

  lemma NotBeforeBracket(n: string)
    requires Starts(n) && |n| >= 2
    ensures !Aligned("]", n)
  {
    if Aligned("]", n) {
      AlignedToken("]", n);
    }
  }

  lemma NoSecond(s: string, v: Value)
    requires ReadValue(s).Fail?
    ensures ReadElems(s, [v]) == Fail
  {
    hide ReadValue;
  }

  lemma EndsAtBracket(s: string, v: Value, y: Value)
    requires ReadValue(s) == Ok(y, "]")
    ensures ReadElems(s, [v]) == Ok(Arr([v, y]), "")
  {
    hide ReadValue, NextToken;
    AtBracket([], [], "");
    assert [v] + [y] == [v, y];
  }

  /** A second element that does not end where w does is followed by more than the end of the array. */
  lemma GoesOn(w: Value, s: string, v: Value, y: Value, rest: string)
    requires Writable(w) && ReadValue(s) == Ok(y, rest) && (rest == "" || Aligned(rest, LastElem(w)))
    ensures var r := ReadElems(s, [v]);
            r.Ok? && r.rest == "" ==> r.value.Arr? && |r.value.elems| > 2
  {
    hide ReadValue, NextToken, LastElem, Aligned, Blank;
    var n := LastElem(w);
    var two := [v] + [y];
    LastElemFacts(w);
    AtBracket(two, [], "");
    if rest != "" {
      AlignedNext(rest, n);
      ElemsPrefix(NextToken(rest).rest, [], two);
      assert [] + two == two;
      if !Blank(rest, n) && NextToken(rest).kind == ArrayEnd {
        AlignedToken(NextToken(rest).rest, n);
      }
    }
  }

  /** Before anything but an object it is one token that is no closing bracket. */
  lemma OneSeparatorExact(v: Value, w: Value, sep: string)
    requires Writable(v) && Writable(w) && !w.Obj? && Delimited(sep) && Aligned(sep + LastElem(w), LastElem(w))
    ensures var r := ReadElems(Text(v) + (sep + LastElem(w)), []);
            r == Ok(Arr([Read(v), Read(w)]), "") <==> OneSeparator(sep + LastElem(w), LastElem(w))
  {
    hide *;
    SeparatorExact(v, w, sep);
    NotOverwritten(sep, w);
  }

  lemma NotOverwritten(sep: string, w: Value)
    requires !w.Obj?
    ensures Separates(sep, w) <==> OneSeparator(sep + LastElem(w), LastElem(w))
  {
    hide LastElem, OneSeparator, Overlay, Blank;
  }

  /** A comma after the last element of an array is always refused. */
  lemma NoTrailingComma(v: Value, suffix: string, elems: seq<Value>)
    requires Writable(v)
    ensures ReadElems(Text(v) + ("," + ("]" + suffix)), elems) == Fail
  {
    hide NextToken, Text, Read;
    RoundTrip(v, "," + ("]" + suffix));
    ElemStep(Text(v) + ("," + ("]" + suffix)), elems, Read(v), "," + ("]" + suffix), ',', "]" + suffix);
    MarkToken(']', suffix);
  }

  // ---------- Why the separator has to end with a token, and why objects are different ----------

  /** The digits of the second element may begin in the separator. */
  lemma ZeroIsJoined()
    ensures ReadElems("null" + (",0" + LastElem(Int(5))), []) == Ok(Arr([Null, Int(5)]), "")
    ensures !Separates(",0", Int(5))
  {
    hide NextToken, ReadValue, ReadElems, Separates;
    var s := [','] + "05]";
    assert ",0" + LastElem(Int(5)) == s;
    RoundTrip(Null, s);
    ElemStep("null" + s, [], Null, s, ',', "05]");
    FiveIsRead();
    EndsAtBracket("05]", Null, Int(5));
    assert [] + [Null] == [Null];
    NotSeparated();
  }

  lemma FiveIsRead()
    ensures ReadValue("05]") == Ok(Int(5), "]")
  {
    hide NextToken, ReadToken;
    JsonRoundTrip.NumberToken("05", "05", "]");
    assert "05" + "]" == "05]";
  }

  lemma NotSeparated()
    ensures !Separates(",0", Int(5))
  {
    hide NextToken;
    assert ",0" + LastElem(Int(5)) == [','] + "05]";
    MarkToken(',', "05]");
    assert ReadToken("05]").kind == Kind.NumberToken;
  }

  /** The beginning of an object, cut off by a comment, may stand before an object that has a member of that name. */
  lemma CutOffObject(v: Value, w: Value, i: nat, x: Value)
    requires Writable(v) && Writable(w) && w.Obj? && i < |w.members| && Writable(x)
    ensures var open := "{" + (Quoted(w.members[i].name) + (":" + (Text(x) + ("/**/" + LastElem(w)))));
            && ReadElems(Text(v) + ("," + open), []) == Ok(Arr([Read(v), Read(w)]), "")
            && !OneSeparator("," + open, LastElem(w))
  {
    hide *;
    var name := w.members[i].name;
    var inside := Quoted(name) + (":" + (Text(x) + ("/**/" + LastElem(w))));
    CommaStep(v, "{" + inside);
    CutOffReads(w, i, x);
    EndsAtBracket("{" + inside, Read(v), Read(w));
    NotOne(inside, LastElem(w));
  }

  lemma CommaStep(v: Value, s: string)
    requires Writable(v)
    ensures ReadElems(Text(v) + ("," + s), []) == ReadElems(s, [Read(v)])
  {
    hide ReadElems, ReadValue, Text, Read;
    RoundTrip(v, "," + s);
    ElemStep(Text(v) + ("," + s), [], Read(v), "," + s, ',', s);
    assert [] + [Read(v)] == [Read(v)];
  }

  lemma NotOne(inside: string, n: string)
    requires |inside| >= |n|
    ensures !OneSeparator("," + ("{" + inside), n)
  {
    hide NextToken, ReadToken;
    MarkToken(',', "{" + inside);
    MarkToken('{', inside);
    NotSpace("{" + inside);
  }

  lemma CutOffReads(w: Value, i: nat, x: Value)
    requires Writable(w) && w.Obj? && i < |w.members| && Writable(x)
    ensures ReadValue("{" + (Quoted(w.members[i].name) + (":" + (Text(x) + ("/**/" + LastElem(w)))))) == Ok(Read(w), "]")
  {
    hide ReadValue, NextToken, ReadToken, OpenMembers, Quoted, Text, Read, LastElem;
    var m := Member(w.members[i].name, x);
    var inside := Quoted(m.name) + (":" + (Text(x) + ("/**/" + LastElem(w))));
    MarkToken('{', inside);
    CutOff(m, w);
    OverlayExact(w, "{" + inside);
  }

  lemma CutOff(m: Member, w: Value)
    requires NulFree(m.name) && Writable(m.value) && Writable(w)
    ensures OpenMembers(Quoted(m.name) + (":" + (Text(m.value) + ("/**/" + LastElem(w)))), LastElem(w), []) ==
            Some([Member(m.name, Read(m.value))])
  {
    hide ReadValue, NextToken, ReadToken, DecodeString, CString, Quoted, Text, Read, LastElem;
    var n := LastElem(w);
    var body := Text(m.value) + ("/**/" + n);
    QuotedToken(m.name, ":" + body);
    CStringNulFree(m.name);
    MarkToken(':', body);
    RoundTrip(m.value, "/**/" + n);
    EmptyComment(n);
    LastElemFacts(w);
    NotSpace(n);
  }

  lemma EmptyComment(n: string)
    ensures ReadToken("/**/" + n) == Token(Comment, "/**/", n)
  {
    var s := "/**/" + n;
    assert s[1..] == "**/" + n && s[2..] == "*/" + n && s[4..] == n && s[..4] == "/**/";
    assert SkipCStyle("*/" + n) == (true, n);
  }
}

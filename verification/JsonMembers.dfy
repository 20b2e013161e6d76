/** What may stand between two members of an object, and behind the last one. */
module JsonMembers {
  import opened Common
  import opened JsonValue
  import opened JsonWriter
  import opened JsonGrammar
  import opened JsonRoundTrip
  import opened JsonSeparators

  /** The last member of an object. */
  function LastMember(m: Member): string {
    Quoted(m.name) + Colon(m)
  }

  /** What follows its name. */
  function Colon(m: Member): string {
    ":" + (Text(m.value) + "}")
  }

  function AsRead(m: Member): Member {
    Member(m.name, Read(m.value))
  }

  predicate WritableMember(m: Member) {
    NulFree(m.name) && Writable(m.value)
  }

  // ---------- Where the loop of readObject comes to a text ----------

  /** The members read when the loop, looking for a name, comes to n. */
  function Reaches(s: string, n: string, members: seq<Member>): Option<seq<Member>>
    decreases |s|, 1
  {
    if Blank(s, n) then Some(members)
    else
      var t := NextToken(s);
      if t.kind != StringToken then None
      else
        var d := DecodeString(t.text);
        var colon := ReadToken(t.rest);
        if d.None? || colon.kind != MemberSeparator then None
        else
          var v := ReadValue(colon.rest);
          if v.Fail? then None
          else ReachesAfter(v.rest, n, Insert(members, Member(CString(d.value), v.value)))
  }

  /** The same from behind a value: past a comma, or past a comment and the token after it. */
  function ReachesAfter(s: string, n: string, members: seq<Member>): Option<seq<Member>>
    decreases |s|, 0
  {
    var comma := ReadToken(s);
    if comma.kind == ArraySeparator then Reaches(comma.rest, n, members)
    else if comma.kind != Comment || Blank(comma.rest, n) || NextToken(comma.rest).kind == ObjectEnd then None
    else Reaches(NextToken(comma.rest).rest, n, members)
  }

  // ---------- What is read across the start of the last member ----------

  lemma LastMemberFacts(m: Member)
    requires WritableMember(m)
    ensures var n := LastMember(m);
            && Starts(n) && ReadToken(n) == NextToken(n) == Token(StringToken, Quoted(m.name), Colon(m))
            && DecodeString(Quoted(m.name)) == Some(m.name) && CString(m.name) == m.name
  {
    hide NextToken, ReadToken, DecodeString, Text, CString;
    QuotedToken(m.name, Colon(m));
    CStringNulFree(m.name);
  }

  lemma ColonFacts(m: Member)
    requires WritableMember(m)
    ensures var r := Colon(m);
            && ReadToken(r) == NextToken(r) == Token(MemberSeparator, ":", Text(m.value) + "}")
            && ReadValue(r) == Fail && ReadValue(Text(m.value) + "}") == Ok(Read(m.value), "}")
  {
    hide NextToken, ReadToken, Text, Read;
    MarkToken(':', Text(m.value) + "}");
    RoundTrip(m.value, "}");
  }

  lemma ColonFails(m: Member, members: seq<Member>, name: string)
    requires WritableMember(m)
    ensures ReadMembers(Colon(m), members, name) == Fail
  {
    hide NextToken, ReadToken, Colon, ReadValue, Text, Read, ReadMembers;
    ColonFacts(m);
    NoMember(Colon(m), members, name);
  }

  lemma AtBrace(members: seq<Member>)
    ensures ReadToken("}") == NextToken("}") == Token(ObjectEnd, "}", "")
    ensures ReadValue("") == Fail
  {
    hide NextToken, ReadToken;
    MarkToken('}', "");
    assert ['}'] + "" == "}";
    AtEnd();
  }

  /** Its name, as an element: what follows is not the rest of an array. */
  lemma NotAnElement(m: Member, s: string, elems: seq<Value>)
    requires WritableMember(m) && Blank(s, LastMember(m))
    ensures ReadElems(s, elems) == Fail
    ensures ReadValue(s) == Ok(Str(m.name), Colon(m))
  {
    hide NextToken, ReadToken, DecodeString, ReadMembers, ReadArray, LastMember, Colon, Text, Read, Blank, CString;
    LastMemberFacts(m);
    BlankNext(s, LastMember(m));
    ColonFacts(m);
    AtBrace([]);
    var more := elems + [Str(m.name)];
    assert ReadElems(s, elems) == ReadElems(Text(m.value) + "}", more);
    assert ReadElems(Text(m.value) + "}", more) == ReadElems("", more + [Read(m.value)]);
  }

  ghost predicate ValuePasses(m: Member, s: string, r: Result<Value>) {
    r.Ok? ==>
      if Blank(s, LastMember(m)) then r.rest == Colon(m) else Aligned(r.rest, LastMember(m)) || r.rest == ""
  }

  ghost predicate MembersPass(m: Member, r: Result<Value>, reached: Option<seq<Member>>) {
    r.Ok? ==>
      || Aligned(r.rest, LastMember(m))
      || (r.rest == "" && reached.Some? && r.value == Obj(Insert(reached.value, AsRead(m))))
  }

  lemma {:induction false} PassValue(m: Member, s: string)
    requires WritableMember(m) && Aligned(s, LastMember(m))
    ensures ValuePasses(m, s, ReadValue(s))
    decreases |s|, 0
  {
    hide NextToken, ReadToken, DecodeNumber, DecodeString, ReadElems, ReadMembers, Read, LastMember, Colon, Reaches, Aligned,
      Blank;
    var n := LastMember(m);
    LastMemberFacts(m);
    AlignedNext(s, n);
    if Blank(s, n) {
      NotAnElement(m, s, []);
    } else {
      var t := NextToken(s);
      if t.kind == ArrayBegin {
        PassArray(m, t.rest);
      } else if t.kind == ObjectBegin {
        PassMembers(m, t.rest, [], "");
      }
    }
  }

  lemma PassArray(m: Member, s: string)
    requires WritableMember(m) && Aligned(s, LastMember(m))
    ensures ReadArray(s).Ok? ==> Aligned(ReadArray(s).rest, LastMember(m))
    decreases |s|, 2
  {
    hide ReadElems, LastMember;
    var n := LastMember(m);
    LastMemberFacts(m);
    AlignedSkip(s, n);
    PassElems(m, SkipSpaces(s), []);
    NotSpace(n);
  }

  lemma {:induction false} PassElems(m: Member, s: string, elems: seq<Value>)
    requires WritableMember(m) && Aligned(s, LastMember(m))
    ensures ReadElems(s, elems).Ok? ==> Aligned(ReadElems(s, elems).rest, LastMember(m))
    decreases |s|, 1
  {
    hide NextToken, ReadToken, ReadValue, LastMember, Colon, Aligned, Blank;
    var n := LastMember(m);
    LastMemberFacts(m);
    ColonFacts(m);
    PassValue(m, s);
    var v := ReadValue(s);
    if Blank(s, n) {
      NotAnElement(m, s, elems);
    } else if v.Ok? {
      var more := elems + [v.value];
      AtBracket(more, [], "");
      if v.rest != "" {
        AlignedNext(v.rest, n);
        if Blank(v.rest, n) {
          assert ReadElems(Colon(m), more) == Fail;
        } else if NextToken(v.rest).kind != ArrayEnd {
          PassElems(m, NextToken(v.rest).rest, more);
        }
      }
    }
  }

  lemma {:induction false} PassMembers(m: Member, s: string, members: seq<Member>, name: string)
    requires WritableMember(m) && Aligned(s, LastMember(m))
    ensures MembersPass(m, ReadMembers(s, members, name), Reaches(s, LastMember(m), members))
    decreases |s|, 1
  {
    hide NextToken, ReadToken, ReadValue, DecodeString, Read, LastMember, Colon, Aligned, Blank, Insert, CString,
      ReachesAfter;
    var n := LastMember(m);
    LastMemberFacts(m);
    AlignedNext(s, n);
    var t := NextToken(s);
    if Blank(s, n) {
      LastIsRead(m, s, members, name);
    } else if t.kind == StringToken {
      AlignedToken(t.rest, n);
      var d := DecodeString(t.text);
      var colon := ReadToken(t.rest);
      if colon.kind == MemberSeparator && d.Some? {
        PassValue(m, colon.rest);
        var v := ReadValue(colon.rest);
        if v.Ok? {
          PassAfterValue(m, v.rest, Insert(members, Member(CString(d.value), v.value)), d.value);
        }
      }
    }
  }

  lemma LastIsRead(m: Member, s: string, members: seq<Member>, name: string)
    requires WritableMember(m) && Blank(s, LastMember(m))
    ensures ReadMembers(s, members, name) == Ok(Obj(Insert(members, AsRead(m))), "")
  {
    hide NextToken, ReadToken, ReadValue, DecodeString, Read, LastMember, Colon, Blank, Insert, CString, Text;
    LastMemberFacts(m);
    BlankNext(s, LastMember(m));
    ColonFacts(m);
    AtBrace([]);
  }

  lemma PassAfterValue(m: Member, s: string, members: seq<Member>, name: string)
    requires WritableMember(m) && (s == Colon(m) || Aligned(s, LastMember(m)) || s == "")
    ensures MembersPass(m, AfterValue(s, members, name), ReachesAfter(s, LastMember(m), members))
    decreases |s|, 2
  {
    hide NextToken, ReadToken, ReadMembers, Read, LastMember, Colon, Aligned, Blank, Insert, Reaches;
    var n := LastMember(m);
    LastMemberFacts(m);
    ColonFacts(m);
    AtEnd();
    if s != "" && s != Colon(m) {
      AlignedToken(s, n);
      var comma := ReadToken(s);
      if comma.kind == ArraySeparator {
        PassMembers(m, comma.rest, members, name);
      } else if comma.kind == Comment {
        AlignedNext(comma.rest, n);
        if Blank(comma.rest, n) {
          ColonFails(m, members, name);
        } else if NextToken(comma.rest).kind != ObjectEnd {
          PassMembers(m, NextToken(comma.rest).rest, members, name);
        }
      }
    }
  }

  /** Where the loop comes to the last member, it reads it and ends. */
  lemma {:induction false} ReachesReads(m: Member, s: string, members: seq<Member>, name: string)
    requires WritableMember(m) && Sorted(members) && Reaches(s, LastMember(m), members).Some?
    ensures var o := Reaches(s, LastMember(m), members).value;
            Sorted(o) && ReadMembers(s, members, name) == Ok(Obj(Insert(o, AsRead(m))), "")
    decreases |s|, 1
  {
    hide NextToken, ReadToken, ReadValue, DecodeString, Read, LastMember, Colon, Blank, Insert, CString, ReachesAfter;
    if Blank(s, LastMember(m)) {
      LastIsRead(m, s, members, name);
    } else {
      var t := NextToken(s);
      var d := DecodeString(t.text).value;
      var v := ReadValue(ReadToken(t.rest).rest);
      InsertIs(members, Member(CString(d), v.value));
      ReachesAfterReads(m, v.rest, Insert(members, Member(CString(d), v.value)), d);
    }
  }

  lemma ReachesAfterReads(m: Member, s: string, members: seq<Member>, name: string)
    requires WritableMember(m) && Sorted(members) && ReachesAfter(s, LastMember(m), members).Some?
    ensures var o := ReachesAfter(s, LastMember(m), members).value;
            Sorted(o) && AfterValue(s, members, name) == Ok(Obj(Insert(o, AsRead(m))), "")
    decreases |s|, 0
  {
    hide NextToken, ReadToken, ReadMembers, Read, LastMember, Blank, Insert, Reaches;
    var comma := ReadToken(s);
    var rest := if comma.kind == ArraySeparator then comma.rest else NextToken(comma.rest).rest;
    ReachesReads(m, rest, members, name);
  }

  // ---------- Between two members ----------

  /**
   * What may stand between the member a and the last member b: what brings the loop to b, having read no name but
   * these two and left the value of a as it was.
   */
  predicate SeparatesMembers(sep: string, a: Member, b: Member) {
    var o := ReachesAfter(sep + LastMember(b), LastMember(b), [AsRead(a)]);
    o.Some? && AsRead(a) in o.value && forall x :: x in o.value ==> x.name == a.name || x.name == b.name
  }

  /** Which text readObject takes for a separator of two members, if the text ends where a token ends. */
  lemma MemberSeparatorExact(a: Member, b: Member, sep: string)
    requires Writable(Obj([a, b])) && Delimited(sep) && Aligned(sep + LastMember(b), LastMember(b))
    ensures var r := ReadMembers(Quoted(a.name) + (":" + (Text(a.value) + (sep + LastMember(b)))), [], "");
            r == Ok(Obj([AsRead(a), AsRead(b)]), "") <==> SeparatesMembers(sep, a, b)
  {
    hide ReadMembers, ReadToken, NextToken, AfterValue, Reaches, ReachesAfter, Quoted, Text, Read, LastMember, Aligned,
      Insert;
    var n := LastMember(b);
    var s := sep + n;
    BothWritable(a, b);
    LastMemberFacts(b);
    MemberRead(a, s);
    PassAfterValue(b, s, [AsRead(a)], a.name);
    NotBeforeEnd(n);
    var o := ReachesAfter(s, n, [AsRead(a)]);
    if o.Some? {
      ReachesAfterReads(b, s, [AsRead(a)], a.name);
      InsertsExact(o.value, a, b);
    }
  }

  lemma BothWritable(a: Member, b: Member)
    requires Writable(Obj([a, b]))
    ensures WritableMember(a) && WritableMember(b) && Less(a.name, b.name)
  {
    assert [a, b][0] == a && [a, b][1] == b;
  }

  /** The loop of readObject, through the first member. */
  lemma MemberRead(a: Member, s: string)
    requires WritableMember(a) && Delimited(s)
    ensures ReadMembers(Quoted(a.name) + (":" + (Text(a.value) + s)), [], "") == AfterValue(s, [AsRead(a)], a.name)
  {
    hide ReadToken, NextToken, ReadValue, DecodeString, Quoted, Text, Read, CString, Delimited;
    QuotedToken(a.name, ":" + (Text(a.value) + s));
    CStringNulFree(a.name);
    MarkToken(':', Text(a.value) + s);
    RoundTrip(a.value, s);
  }

  lemma NotBeforeEnd(n: string)
    requires n != ""
    ensures !Aligned("", n)
  {
  }

  lemma InsertsExact(o: seq<Member>, a: Member, b: Member)
    requires Sorted(o) && Less(a.name, b.name)
    ensures Insert(o, AsRead(b)) == [AsRead(a), AsRead(b)] <==>
            AsRead(a) in o && forall x :: x in o ==> x.name == a.name || x.name == b.name
  {
    hide Read, Insert;
    var x, y := AsRead(a), AsRead(b);
    LessIsStrict(a.name, b.name);
    InsertIs(o, y);
    assert x in [x, y];
    if x in o && forall z :: z in o ==> z.name == a.name || z.name == b.name {
      forall z | z in o && z.name == a.name ensures z == x {
        SameName(o, z, x);
      }
      SameMembers(Insert(o, y), [x, y]);
    }
  }

  lemma SameName(o: seq<Member>, x: Member, y: Member)
    requires Sorted(o) && x in o && y in o && x.name == y.name
    ensures x == y
  {
    LessIsStrict(x.name, y.name);
  }

  /** Without a colon in it there is no member in it either. */
  predicate NoColon(s: string, n: string)
    decreases |s|
  {
    |SkipSpaces(s)| <= |n| || (ReadToken(s).kind != MemberSeparator && NoColon(ReadToken(s).rest, n))
  }

  /** A comma, or a comment and any one token but a closing brace; with comments after it. */
  predicate OneMemberSeparator(s: string, n: string) {
    var t := ReadToken(s);
    || (t.kind == ArraySeparator && Blank(t.rest, n))
    || (t.kind == Comment && OneToken(t.rest, n))
  }

  predicate OneToken(s: string, n: string) {
    !Blank(s, n) && NextToken(s).kind != ObjectEnd && Blank(NextToken(s).rest, n)
  }

  lemma {:induction false} NoColonNext(s: string, n: string)
    requires NoColon(s, n) && Aligned(s, n) && Starts(n) && !Blank(s, n)
    ensures NoColon(NextToken(s).rest, n)
    decreases |s|
  {
    hide ReadToken, SkipSpaces;
    AlignedToken(s, n);
    if ReadToken(s).kind == Comment {
      NoColonNext(ReadToken(s).rest, n);
    }
  }

  lemma NoNameReached(m: Member, s: string, members: seq<Member>)
    requires WritableMember(m)
    requires var n := LastMember(m); NoColon(s, n) && Aligned(s, n)
    ensures Reaches(s, LastMember(m), members) == if Blank(s, LastMember(m)) then Some(members) else None
  {
    hide NextToken, ReadToken, ReadValue, DecodeString, LastMember, Colon, Blank, Insert, CString, ReachesAfter;
    var n := LastMember(m);
    LastMemberFacts(m);
    AlignedNext(s, n);
    if !Blank(s, n) {
      NoColonNext(s, n);
      AlignedToken(NextToken(s).rest, n);
    }
  }

  /** Where no member is hidden in the separator, it is a comma, or a comment and a token, with comments after it. */
  lemma PlainSeparatorExact(a: Member, b: Member, sep: string)
    requires Writable(Obj([a, b])) && Delimited(sep)
    requires var n := LastMember(b); Aligned(sep + n, n) && NoColon(sep + n, n)
    ensures SeparatesMembers(sep, a, b) <==> OneMemberSeparator(sep + LastMember(b), LastMember(b))
  {
    hide ReadToken, NextToken, Reaches, LastMember, Colon, Aligned, Blank, NoColon, Read;
    var n := LastMember(b);
    var s := sep + n;
    BothWritable(a, b);
    LastMemberFacts(b);
    AlignedToken(s, n);
    var o := [AsRead(a)];
    var t := ReadToken(s);
    if SkipSpaces(s) != n {
      NoColonAfter(s, n);
      if t.kind == ArraySeparator {
        NoNameReached(b, t.rest, o);
      } else if t.kind == Comment && !Blank(t.rest, n) {
        AlignedNext(t.rest, n);
        NoColonNext(t.rest, n);
        NoNameReached(b, NextToken(t.rest).rest, o);
      }
    }
  }

  lemma NoColonAfter(s: string, n: string)
    requires NoColon(s, n) && Aligned(s, n) && Starts(n) && SkipSpaces(s) != n
    ensures NoColon(ReadToken(s).rest, n)
  {
  }

  // ---------- The separator as a list of members ----------

  /**
   * The members a separator holds, if it is one: a comma, or a comment and a token, then any number of members, each with
   * another of these behind it, up to n.
   */
  function Hidden(s: string, n: string): Option<seq<Member>>
    decreases |s|, 0
  {
    var comma := ReadToken(s);
    if comma.kind == ArraySeparator then HiddenNext(comma.rest, n)
    else if comma.kind == Comment && !Blank(comma.rest, n) && NextToken(comma.rest).kind != ObjectEnd then
      HiddenNext(NextToken(comma.rest).rest, n)
    else None
  }

  function HiddenNext(s: string, n: string): Option<seq<Member>>
    decreases |s|, 1
  {
    if Blank(s, n) then Some([])
    else
      var t := NextToken(s);
      var d := DecodeString(t.text);
      var colon := ReadToken(t.rest);
      if t.kind != StringToken || d.None? || colon.kind != MemberSeparator then None
      else
        var v := ReadValue(colon.rest);
        if v.Fail? then None
        else
          var more := Hidden(v.rest, n);
          if more.None? then None else Some([Member(CString(d.value), v.value)] + more.value)
  }

  lemma {:induction false} InsertFirst(o: seq<Member>, m: Member, ms: seq<Member>)
    ensures InsertAll(o, [m] + ms) == InsertAll(Insert(o, m), ms)
    decreases |ms|
  {
    hide Insert;
    var all := [m] + ms;
    if ms == [] {
      assert all[..0] == [];
    } else {
      assert all[..|all| - 1] == [m] + ms[..|ms| - 1];
      InsertFirst(o, m, ms[..|ms| - 1]);
    }
  }

  /** What brings the loop to n is what holds a list of members, and the loop has put these into the map. */
  lemma {:induction false} ReachesHidden(s: string, n: string, o: seq<Member>)
    ensures var h := HiddenNext(s, n); Reaches(s, n, o) == if h.Some? then Some(InsertAll(o, h.value)) else None
    decreases |s|, 1
  {
    hide NextToken, ReadToken, ReadValue, DecodeString, Blank, Insert, CString, InsertAll, ReachesAfter, Hidden;
    NothingInserted(o);
    if !Blank(s, n) {
      var t := NextToken(s);
      var d := DecodeString(t.text);
      var colon := ReadToken(t.rest);
      if t.kind == StringToken && d.Some? && colon.kind == MemberSeparator && ReadValue(colon.rest).Ok? {
        var v := ReadValue(colon.rest);
        var m := Member(CString(d.value), v.value);
        ReachesAfterHidden(v.rest, n, Insert(o, m));
        var more := Hidden(v.rest, n);
        if more.Some? {
          InsertFirst(o, m, more.value);
        }
      }
    }
  }

  lemma ReachesAfterHidden(s: string, n: string, o: seq<Member>)
    ensures var h := Hidden(s, n); ReachesAfter(s, n, o) == if h.Some? then Some(InsertAll(o, h.value)) else None
    decreases |s|, 0
  {
    hide NextToken, ReadToken, Blank, InsertAll, Reaches, HiddenNext;
    var comma := ReadToken(s);
    if comma.kind == ArraySeparator {
      ReachesHidden(comma.rest, n, o);
    } else if comma.kind == Comment && !Blank(comma.rest, n) {
      ReachesHidden(NextToken(comma.rest).rest, n, o);
    }
  }

  lemma NothingInserted(o: seq<Member>)
    ensures InsertAll(o, []) == o
  {
  }

  /** The value of the last member of that name. */
  function LastNamed(ms: seq<Member>, name: string): Option<Value> {
    if ms == [] then None
    else if ms[|ms| - 1].name == name then Some(ms[|ms| - 1].value)
    else LastNamed(ms[..|ms| - 1], name)
  }

  lemma {:induction false} InsertedIs(o: seq<Member>, ms: seq<Member>)
    requires Sorted(o)
    ensures Sorted(InsertAll(o, ms))
    ensures forall x :: x in InsertAll(o, ms) <==>
              LastNamed(ms, x.name) == Some(x.value) || (LastNamed(ms, x.name) == None && x in o)
    decreases |ms|
  {
    hide Insert, Less;
    if ms != [] {
      var k := |ms| - 1;
      InsertedIs(o, ms[..k]);
      InsertIs(InsertAll(o, ms[..k]), ms[k]);
    }
  }

  /** The members do no harm: they have the names of a and b, and the last one named as a has the value of a. */
  predicate Harmless(ms: seq<Member>, a: Member, b: Member) {
    && (forall i :: 0 <= i < |ms| ==> ms[i].name == a.name || ms[i].name == b.name)
    && (LastNamed(ms, a.name) == None || LastNamed(ms, a.name) == Some(Read(a.value)))
  }

  lemma {:induction false} NamedMeansLast(ms: seq<Member>, name: string)
    ensures LastNamed(ms, name).Some? <==> exists i :: 0 <= i < |ms| && ms[i].name == name
    decreases |ms|
  {
    if ms != [] {
      var k := |ms| - 1;
      NamedMeansLast(ms[..k], name);
      if LastNamed(ms[..k], name).Some? {
        var i :| 0 <= i < k && ms[..k][i].name == name;
        assert ms[i].name == name;
      }
      if exists i :: 0 <= i < |ms| && ms[i].name == name {
        var i :| 0 <= i < |ms| && ms[i].name == name;
        assert i < k ==> ms[..k][i].name == name;
      }
    }
  }

  /**
   * What may stand between the members a and b, in tokens: a separator that holds no members but such as are
   * overwritten or repeat the value of a.
   */
  lemma HiddenExact(a: Member, b: Member, sep: string)
    ensures var h := Hidden(sep + LastMember(b), LastMember(b));
            SeparatesMembers(sep, a, b) <==> h.Some? && Harmless(h.value, a, b)
  {
    hide Hidden, ReachesAfter, LastMember, Read, InsertAll, LastNamed;
    var n := LastMember(b);
    var o := [AsRead(a)];
    ReachesAfterHidden(sep + n, n, o);
    var h := Hidden(sep + n, n);
    if h.Some? {
      InsertedIs(o, h.value);
      var all := InsertAll(o, h.value);
      assert AsRead(a) in o;
      if exists i :: 0 <= i < |h.value| && h.value[i].name != a.name && h.value[i].name != b.name {
        var i :| 0 <= i < |h.value| && h.value[i].name != a.name && h.value[i].name != b.name;
        NamedMeansLast(h.value, h.value[i].name);
        assert Member(h.value[i].name, LastNamed(h.value, h.value[i].name).value) in all;
      } else {
        forall x | x in all ensures x.name == a.name || x.name == b.name {
          NamedMeansLast(h.value, x.name);
        }
      }
    }
  }

  /** Without members in it, it is the comma, or the comment and the token. */
  lemma HidesNothing(s: string, n: string)
    ensures Hidden(s, n) == Some([]) <==> OneMemberSeparator(s, n)
  {
    hide ReadToken, NextToken, Blank, ReadValue, DecodeString, CString;
  }

  /** A member in the separator is accepted when the last member overwrites it. */
  lemma OverwrittenMember(a: Member, b: Member, x: Value)
    requires Writable(Obj([a, b])) && Writable(x)
    ensures var more := Quoted(b.name) + (":" + (Text(x) + ("," + LastMember(b))));
            var r := ReadMembers(Quoted(a.name) + (":" + (Text(a.value) + ("," + more))), [], "");
            r == Ok(Obj([AsRead(a), AsRead(b)]), "")
  {
    hide ReadMembers, Quoted, Text, Read, Insert, LastMember;
    BothWritable(a, b);
    var twice := "," + LastMember(b);
    var rest := Quoted(b.name) + (":" + (Text(x) + twice));
    RoundTrip(a.value, "," + rest);
    RoundTrip(x, twice);
    MemberStep([], "", AsRead(a), Text(a.value) + ("," + rest), "," + rest, ',', rest);
    MemberStep([AsRead(a)], a.name, Member(b.name, Read(x)), Text(x) + twice, twice, ',', LastMember(b));
    var o := Insert([AsRead(a)], Member(b.name, Read(x)));
    AtLast(b, o, b.name);
    InsertLast([], AsRead(a));
    LessIsStrict(a.name, b.name);
    assert AsRead(a) in [AsRead(a)];
    InsertIs([AsRead(a)], Member(b.name, Read(x)));
    InsertsExact(o, a, b);
    assert [] + [AsRead(a)] == [AsRead(a)];
    assert ReadMembers(rest, [AsRead(a)], a.name) == ReadMembers(LastMember(b), o, b.name);
  }

  lemma AtLast(b: Member, members: seq<Member>, name: string)
    requires WritableMember(b)
    ensures ReadMembers(LastMember(b), members, name) == Ok(Obj(Insert(members, AsRead(b))), "")
  {
    hide ReadMembers, Quoted, Text, Read, Insert;
    RoundTrip(b.value, "}");
    MemberStep(members, name, AsRead(b), Text(b.value) + "}", "}", '}', "");
  }

  /** A comma behind the last member is accepted if and only if the name of that member is empty. */
  lemma TrailingCommaExact(m: Member, members: seq<Member>, name: string, suffix: string)
    requires WritableMember(m)
    ensures ReadMembers(Quoted(m.name) + (":" + (Text(m.value) + ("," + ("}" + suffix)))), members, name) ==
            if m.name == "" then Ok(Obj(Insert(members, AsRead(m))), suffix) else Fail
  {
    hide NextToken, ReadToken, ReadValue, DecodeString, Quoted, Text, Read, Insert, CString;
    var after := "," + ("}" + suffix);
    RoundTrip(m.value, after);
    MemberStep(members, name, AsRead(m), Text(m.value) + after, after, ',', "}" + suffix);
    MarkToken('}', suffix);
  }
}

/** Which trees of AMF3.cpp come back: the other direction of the round trip of Amf3. */
module Amf3Exact {
  import opened Amf3

  /** No negative number can be read here. */
  predicate Tame(t: Bytes) {
    DecInt(t).Ok? ==> DecInt(t).value >= 0
  }

  /** One or more bytes 01 before t, which the decoder did not use up. */
  predicate LeftOver(r: Bytes, t: Bytes) {
    |r| > |t| && r[|r| - |t|..] == t && forall i :: 0 <= i < |r| - |t| ==> r[i] == 1
  }

  /** What followed was read as a number that was not written. */
  predicate Swallowed(r: Bytes, t: Bytes) {
    !Tame(t) && |r| < |t|
  }

  /** Where the decoder can be after it has read v. */
  predicate After(v: Value, r: Result<Value>, t: Bytes) {
    r.Ok? && r.value == v ==> (Encodable(v) && r.rest == t) || LeftOver(r.rest, t) || Swallowed(r.rest, t)
  }

  // ---------- What is tame ----------

  lemma SmallIsTame(t: Bytes)
    requires t == [] || t[0] < 0x80
    ensures Tame(t)
  {
    if t != [] {
      assert t == [t[0]] + t[1..];
      OneByte(t[0], t[1..]);
    }
  }

  lemma NameIsTame(s: Bytes, t: Bytes)
    requires GoodString(s)
    ensures Tame(EncString(s) + t)
  {
    hide DecInt, EncU29, CString;
    CStringNulFree(s);
    if s == [] {
      OneByte(1, t);
    } else {
      IntRoundTrip(2 * |s| + 1, s + t);
      assert EncString(s) + t == EncU29(2 * |s| + 1) + (s + t);
    }
  }

  /** An element begins with its marker. */
  lemma MarkerFirst(v: Value)
    ensures EncElem(v) == [] <==> v == NoObject
    ensures v != NoObject ==>
              && EncElem(v)[0] <= 0x0A && EncElem(v)[0] != 7 && EncElem(v)[0] != 8
              && (EncElem(v)[0] == 0 <==> v == Undefined) && (EncElem(v)[0] == 1 <==> v == Null)
  {
    hide EncArray, EncObject, EncString, EncU29;
  }

  // ---------- What the decoder can give ----------

  lemma DecodedString(s: Bytes)
    ensures DecString(s).Ok? ==> GoodString(DecString(s).value)
  {
    hide DecInt, CString;
    var h := DecInt(s);
    if h.Ok? && 0 < h.value / 2 <= |h.rest| {
      CStringNulFree(h.rest[..h.value / 2]);
    }
  }

  predicate Plain(f: Field) {
    GoodString(f.name) && f.name != [] && f.value != Undefined && f.value != NoObject
  }

  lemma NeverUndefined(s: Bytes)
    ensures DecElem(s).Ok? ==> DecElem(s).value != Undefined
  {
    hide DecInt, DecString, DecArray, DecObject;
    if s != [] {
      ArrayOrObject(s[1..]);
    }
  }

  lemma {:induction false} DecodedFields(s: Bytes, n: nat)
    ensures var r := DecFields(s, n); r.Ok? ==> forall i :: 0 <= i < |r.value| ==> Plain(r.value[i])
    decreases n
  {
    hide DecString, DecElem, GoodString;
    var name := DecString(s);
    DecodedString(s);
    if n > 0 && name.Ok? && name.value != [] && DecElem(name.rest).Ok? {
      var e := DecElem(name.rest);
      NeverUndefined(name.rest);
      DecodedFields(e.rest, n - 1);
      var c, r := Child(name.value, e.value), DecFields(e.rest, n - 1);
      if r.Ok? {
        forall i | 0 <= i < |c + r.value| ensures Plain((c + r.value)[i]) {
          assert (c + r.value)[i] == if i < |c| then c[i] else r.value[i - |c|];
        }
      }
    }
  }

  lemma {:induction false} DecodedElems(s: Bytes, n: int)
    ensures var r := DecElems(s, n); r.Ok? ==> |r.value| == (if n > 0 then n else 0) && NoObject !in r.value
    decreases n
  {
    hide DecElem;
    if n > 0 && DecElem(s).Ok? {
      DecodedElems(DecElem(s).rest, n - 1);
    }
  }

  // ---------- Elements ----------

  lemma LeafBack(v: Value, t: Bytes)
    requires IsLeaf(v) && v != NoObject
    ensures After(v, DecElem(EncElem(v) + t), t)
  {
    if Encodable(v) {
      RoundTrip(v, t);
    } else {
      hide EncElem, DecElem, Tame, LeftOver;
      if v.String? {
        DecodedString(EncString(v.s) + t);
        LeafIs(v, EncString(v.s), t);
      } else if v.Integer? {
        LeafIs(v, if v.i < 0 then [] else EncU29(v.i), t);
        assert [] + t == t;
      } else if v == Undefined {
        UndefinedIsRead(t);
      } else {
        LeafIs(v, v.bits, t);
      }
    }
  }

  /** What the decoder makes of the marker of a number or a string and what comes after it. */
  lemma LeafIs(v: Value, body: Bytes, t: Bytes)
    requires v.String? || v.Integer? || v.Double?
    requires body == if v.String? then EncString(v.s) else if v.Double? then v.bits else if v.i < 0 then [] else EncU29(v.i)
    ensures var s := body + t;
            DecElem(EncElem(v) + t) ==
            if v.String? then var x := DecString(s); (if x.Ok? then Ok(String(x.value), x.rest) else Unmodelled)
            else if v.Integer? then var i := DecInt(s); (if i.Ok? then Ok(Integer(i.value), i.rest) else Unmodelled)
            else if |s| < 8 then Unmodelled else Ok(Double(s[..8]), s[8..])
  {
    hide DecInt, EncU29, EncString, DecString, DecArray, DecObject;
    Tagged(EncElem(v)[0], body, t);
  }

  lemma UndefinedIsRead(t: Bytes)
    ensures DecElem(EncElem(Undefined) + t) == Ok(NoObject, t)
  {
    hide DecInt, DecString, DecArray, DecObject;
    assert EncElem(Undefined) + t == [0x00] + t;
  }

  lemma {:induction false} Back(v: Value, t: Bytes)
    requires v != NoObject
    ensures After(v, DecElem(EncElem(v) + t), t)
    decreases v, 1
  {
    hide DecArray, DecObject, EncArray, EncObject, Swallowed, LeftOver;
    if v.Array? {
      ArrayBack(v, t);
      Tagged(0x09, EncArray(v.elems), t);
    } else if v.Object? {
      ObjectBack(v, t);
      Tagged(0x0A, EncObject(v.fields), t);
    } else {
      LeafBack(v, t);
    }
  }

  lemma ArrayBack(v: Value, t: Bytes)
    requires v.Array?
    ensures After(v, DecArray(EncArray(v.elems) + t), t)
    decreases v, 0
  {
    hide DecInt, EncU29, DecString, DecElems, EncElems, Swallowed, LeftOver;
    var elems := v.elems;
    if |elems| <= U29_MAX / 2 {
      var after := [1] + (EncElems(elems) + t);
      assert EncArray(elems) + t == EncU29(2 * |elems| + 1) + after;
      IntRoundTrip(2 * |elems| + 1, after);
      EmptyName(EncElems(elems) + t);
      ElemsBack(elems, t);
    } else {
      TooLong(EncArray(elems) + t);
    }
  }

  lemma TooLong(s: Bytes)
    ensures var r := DecArray(s); r.Ok? ==> r.value.Array? && |r.value.elems| <= U29_MAX / 2
  {
    hide DecInt, DecString, DecElems;
    var h := DecInt(s);
    if h.Ok? && DecString(h.rest).Ok? {
      DecodedElems(DecString(h.rest).rest, h.value / 2);
    }
  }

  predicate AfterElems(elems: seq<Value>, r: Result<seq<Value>>, t: Bytes) {
    r.Ok? && r.value == elems ==>
      || ((forall i :: 0 <= i < |elems| ==> GoodElem(elems[i])) && r.rest == t)
      || LeftOver(r.rest, t) || Swallowed(r.rest, t)
  }

  lemma {:induction false} ElemsBack(elems: seq<Value>, t: Bytes)
    ensures AfterElems(elems, DecElems(EncElems(elems) + t, |elems|), t)
    decreases elems, 0
  {
    hide DecElem, EncElem, Encodable, Tame, LeftOver;
    if elems == [] {
      assert EncElems(elems) + t == t;
    } else if NoObject in elems {
      DecodedElems(EncElems(elems) + t, |elems|);
    } else {
      var e, es := elems[0], elems[1..];
      var more := EncElems(es) + t;
      MoreIsTame(es, t);
      assert EncElems(elems) + t == EncElem(e) + more;
      ElemBack(e, more);
      ElemsBack(es, t);
      var r := DecElem(EncElem(e) + more);
      if r.Ok? {
        var d := DecElems(r.rest, |es|);
        assert d.Ok? ==> ([Elem(r.value)] + d.value)[1..] == d.value;
        if LeftOver(r.rest, more) {
          NullsBack(es, r.rest, t);
        }
      }
    }
  }

  /** In an array, where no object becomes an undefined one. */
  lemma ElemBack(e: Value, t: Bytes)
    requires e != NoObject
    ensures var r := DecElem(EncElem(e) + t);
            r.Ok? && Elem(r.value) == e ==> (GoodElem(e) && r.rest == t) || LeftOver(r.rest, t) || Swallowed(r.rest, t)
    decreases e, 2
  {
    hide DecElem, EncElem, Encodable, LeftOver, Swallowed;
    if e == Undefined {
      UndefinedIsRead(t);
    } else {
      Back(e, t);
    }
  }

  lemma MoreIsTame(es: seq<Value>, t: Bytes)
    requires NoObject !in es
    ensures es == [] ==> EncElems(es) + t == t
    ensures es != [] ==> Tame(EncElems(es) + t)
  {
    hide Tame, EncElem;
    if es != [] {
      MarkerFirst(es[0]);
      SmallIsTame(EncElems(es) + t);
    }
  }

  /** With bytes 01 left over the decoder can only read nulls, and as many bytes stay left over. */
  lemma {:induction false} NullsBack(es: seq<Value>, r: Bytes, t: Bytes)
    requires LeftOver(r, EncElems(es) + t)
    ensures AfterElems(es, DecElems(r, |es|), t)
    ensures DecElems(r, |es|).Ok? && DecElems(r, |es|).value == es ==> LeftOver(DecElems(r, |es|).rest, t)
    decreases es
  {
    hide EncElem, DecElem, Encodable, LeftOver;
    if es == [] {
      assert EncElems(es) + t == t;
    } else {
      NullFirst(r, EncElems(es) + t);
      MarkerFirst(es[0]);
      if es[0] == Null {
        NullIsOne();
        assert EncElems(es) + t == [1] + (EncElems(es[1..]) + t);
        OneLess(r, EncElems(es[1..]) + t);
        NullsBack(es[1..], r[1..], t);
      }
    }
  }

  lemma NullFirst(r: Bytes, t: Bytes)
    requires LeftOver(r, t)
    ensures r != [] && r[0] == 1 && DecElem(r) == Ok(Null, r[1..])
  {
    hide DecInt, DecString, DecArray, DecObject;
  }

  lemma OneLess(r: Bytes, t: Bytes)
    requires LeftOver(r, [1] + t)
    ensures r[0] == 1 && LeftOver(r[1..], t)
  {
    var k := |r| - |t|;
    assert r[k - 1] == r[k - 1..][0] == 1 && r[k..] == r[k - 1..][1..] == t;
  }

  lemma OneLeft(t: Bytes)
    ensures LeftOver([1] + t, t)
  {
  }

  lemma NullIsOne()
    ensures EncElem(Null) == [1]
  {
  }

  // ---------- Objects ----------

  lemma ObjectBack(v: Value, t: Bytes)
    requires v.Object?
    ensures After(v, DecObject(EncObject(v.fields) + t), t)
    decreases v, 0
  {
    hide DecInt, EncU29, DecString, DecFields, EncFields, Swallowed, LeftOver;
    var fields := v.fields;
    var after := [1] + (EncFields(fields) + ([1] + t));
    assert EncObject(fields) + t == EncU29(0x0B) + after;
    IntRoundTrip(0x0B, after);
    EmptyName(EncFields(fields) + ([1] + t));
    var r := DecFields(EncFields(fields) + ([1] + t), DYNAMIC_OBJ_MAX_PROPERTY);
    assert r.Ok? ==> [] + r.value == r.value;
    if r.Ok? && r.value == fields {
      DecodedFields(EncFields(fields) + ([1] + t), DYNAMIC_OBJ_MAX_PROPERTY);
      FieldsBack(fields, DYNAMIC_OBJ_MAX_PROPERTY, t);
      assert forall i :: 0 <= i < |fields| && Plain(fields[i]) && Encodable(fields[i].value) ==> GoodField(fields[i]);
    }
  }

  predicate AfterFields(fields: seq<Field>, n: nat, r: Result<seq<Field>>, t: Bytes) {
    r.Ok? && r.value == fields ==>
      (|fields| < n && (forall i :: 0 <= i < |fields| ==> Encodable(fields[i].value)) && r.rest == t) || LeftOver(r.rest, t)
  }

  lemma {:induction false} FieldsBack(fields: seq<Field>, n: nat, t: Bytes)
    requires forall i :: 0 <= i < |fields| ==> Plain(fields[i])
    ensures AfterFields(fields, n, DecFields(EncFields(fields) + ([1] + t), n), t)
    decreases fields, 0
  {
    hide DecElem, EncElem, Encodable, EncString, DecString, Tame, LeftOver;
    if fields == [] {
      assert EncFields(fields) + ([1] + t) == [1] + t;
      EmptyName(t);
      OneLeft(t);
    } else if n > 0 {
      var f, fs := fields[0], fields[1..];
      var more := EncFields(fs) + ([1] + t);
      FieldFirst(f, n, more);
      FieldsSplit(fields, [1] + t);
      FieldsAreTame(fs, t);
      Back(f.value, more);
      var e := DecElem(EncElem(f.value) + more);
      if e.Ok? {
        FieldsBack(fs, n - 1, t);
        if LeftOver(e.rest, more) {
          EndBack(fs, n - 1, e.rest, t);
        }
        var r := DecFields(e.rest, n - 1);
        assert r.Ok? ==> ([Field(f.name, e.value)] + r.value)[1..] == r.value;
      }
    }
  }

  lemma FieldFirst(f: Field, n: nat, more: Bytes)
    requires n > 0 && Plain(f)
    ensures var e := DecElem(EncElem(f.value) + more);
            DecFields(EncString(f.name) + (EncElem(f.value) + more), n) ==
            if e.Unmodelled? then Unmodelled
            else
              var r := DecFields(e.rest, n - 1);
              if r.Ok? then Ok([Field(f.name, e.value)] + r.value, r.rest) else Unmodelled
  {
    hide DecElem, EncElem, EncString, DecString;
    CStringNulFree(f.name);
    StringRoundTrip(f.name, EncElem(f.value) + more);
    IsRead(f.value, more);
  }

  lemma IsRead(v: Value, more: Bytes)
    requires v != Undefined && v != NoObject
    ensures var e := DecElem(EncElem(v) + more); e.Ok? ==> e.value != NoObject
  {
    hide EncElem, DecInt, DecString, DecArray, DecObject;
    MarkerFirst(v);
    assert (EncElem(v) + more)[0] == EncElem(v)[0];
    ArrayOrObject((EncElem(v) + more)[1..]);
  }

  lemma ArrayOrObject(s: Bytes)
    ensures DecArray(s).Ok? ==> DecArray(s).value.Array?
    ensures DecObject(s).Ok? ==> DecObject(s).value.Object?
  {
  }

  lemma FieldsAreTame(fs: seq<Field>, t: Bytes)
    requires forall i :: 0 <= i < |fs| ==> Plain(fs[i])
    ensures Tame(EncFields(fs) + ([1] + t))
  {
    hide Tame, EncElem, EncString;
    if fs == [] {
      SmallIsTame(EncFields(fs) + ([1] + t));
    } else {
      FieldsSplit(fs, [1] + t);
      NameIsTame(fs[0].name, EncElem(fs[0].value) + (EncFields(fs[1..]) + ([1] + t)));
    }
  }

  lemma OneMore(r: Bytes, t: Bytes)
    requires LeftOver(r, t)
    ensures LeftOver([1] + r, t)
  {
    assert ([1] + r)[|r| + 1 - |t|..] == r[|r| - |t|..];
  }

  /** A byte 01 left over is the end of the fields. */
  lemma EndBack(fs: seq<Field>, n: nat, r: Bytes, t: Bytes)
    requires LeftOver(r, EncFields(fs) + ([1] + t))
    ensures var d := DecFields(r, n); d.Ok? && d.value == fs ==> LeftOver(d.rest, t)
  {
    hide DecString, EncString, LeftOver;
    NullFirst(r, EncFields(fs) + ([1] + t));
    if fs == [] {
      assert EncFields(fs) + ([1] + t) == [1] + t;
      OneLess(r, t);
      OneMore(r[1..], t);
    }
    assert r == [1] + r[1..];
    EmptyName(r[1..]);
  }

  // ---------- Exactly when ----------

  /** A tree comes back and exactly its bytes are used up, whatever follows, if and only if it is Encodable. */
  lemma TreeExact(v: Value, t: Bytes)
    ensures DecElem(EncElem(v) + t) == Ok(v, t) <==> Encodable(v)
  {
    hide *;
    if v == NoObject {
      NothingBack(t);
    } else {
      if Encodable(v) {
        RoundTrip(v, t);
      }
      Back(v, t);
      ExactRest(v, t);
    }
  }

  lemma NothingBack(t: Bytes)
    ensures DecElem(EncElem(NoObject) + t) != Ok(NoObject, t) && !Encodable(NoObject)
  {
    assert EncElem(NoObject) + t == t;
  }

  lemma ExactRest(v: Value, t: Bytes)
    ensures After(v, Ok(v, t), t) <==> Encodable(v)
  {
    hide Encodable;
  }

  /** At the end of the stream there is nothing else that could be read. */
  lemma WholeExact(v: Value)
    ensures DecElem(EncElem(v)) == Ok(v, []) <==> Encodable(v)
  {
    hide *;
    TreeExact(v, []);
    assert EncElem(v) + [] == EncElem(v);
  }

  /** An integer comes back if and only if write_u29 accepts it. */
  lemma IntegerExact(i: int, t: Bytes)
    ensures DecElem(EncElem(Integer(i)) + t) == Ok(Integer(i), t) <==> 0 <= i <= U29_MAX
  {
    hide DecElem, EncElem;
    TreeExact(Integer(i), t);
  }

  /** A string comes back if and only if it holds no NUL and its length fits into the head. */
  lemma StringExact(s: Bytes, t: Bytes)
    ensures DecElem(EncElem(String(s)) + t) == Ok(String(s), t) <==> NulFree(s) && |s| <= U29_MAX / 2
  {
    hide DecElem, EncElem;
    TreeExact(String(s), t);
  }

  /** An object of good fields comes back if and only if there are at most 511: with 512 its end is left unread. */
  lemma ObjectExact(fields: seq<Field>, t: Bytes)
    requires forall i :: 0 <= i < |fields| ==> GoodField(fields[i])
    ensures DecElem(EncElem(Object(fields)) + t) == Ok(Object(fields), t) <==> |fields| < DYNAMIC_OBJ_MAX_PROPERTY
  {
    hide DecElem, EncElem;
    TreeExact(Object(fields), t);
  }
}

/** The bytes of AMF 3 as the AMF 3 Specification has them, on both sides, and what only a reader of others' data meets. */
module Amf3Layout {
  import opened Common
  import opened Amf3

  // ---------- Integers ----------

  /** The result is the 29 bits modulo 2^29, read as a number with a sign. */
  lemma SignExtendExact(value: nat)
    requires value < 0x2000_0000
    ensures (SignExtend(value) - value) % 0x2000_0000 == 0
    ensures -0x1000_0000 <= SignExtend(value) < 0x1000_0000
  {
  }

  /** Three bytes with their high bits set and any fourth one: seven bits of each, and eight of the last. */
  lemma FourBytesRead(a: Byte, b: Byte, c: Byte, d: Byte, suffix: Bytes)
    requires a >= 0x80 && b >= 0x80 && c >= 0x80
    ensures var r := DecInt([a, b, c, d] + suffix);
            && r.Ok? && r.rest == suffix && -0x1000_0000 <= r.value < 0x1000_0000
            && (r.value - ((a % 0x80) * 0x40_0000 + (b % 0x80) * 0x8000 + (c % 0x80) * 0x100 + d)) % 0x2000_0000 == 0
  {
    hide DecInt, SignExtend;
    FourBytes(a - 0x80, b - 0x80, c - 0x80, d, suffix);
    SignExtendExact((((a - 0x80) * 0x80 + (b - 0x80)) * 0x80 + (c - 0x80)) * 0x100 + d);
    assert [a - 0x80 + 0x80, b - 0x80 + 0x80, c - 0x80 + 0x80, d] == [a, b, c, d];
  }

  lemma MinusOne(suffix: Bytes)
    ensures DecElem([0x04, 0xFF, 0xFF, 0xFF, 0xFF] + suffix) == Ok(Integer(-1), suffix)
  {
    hide DecInt, SignExtend;
    FourBytesRead(0xFF, 0xFF, 0xFF, 0xFF, suffix);
    assert ([0x04, 0xFF, 0xFF, 0xFF, 0xFF] + suffix)[1..] == [0xFF, 0xFF, 0xFF, 0xFF] + suffix;
  }

  // ---------- Samples ----------

  /** Short strings and names: twice the length and one, and the bytes. */
  lemma ShortString(s: Bytes)
    requires 0 < |s| < 0x40 && NulFree(s)
    ensures EncString(s) == [2 * |s| + 1] + s
  {
    CStringNulFree(s);
  }

  lemma NextElem(v: Value, elems: seq<Value>)
    ensures EncElems([v] + elems) == EncElem(v) + EncElems(elems) && EncElems([]) == []
  {
    hide EncElem;
    assert ([v] + elems)[1..] == elems;
  }

  lemma NextField(name: Bytes, v: Value, fields: seq<Field>)
    ensures EncFields([Field(name, v)] + fields) == EncString(name) + EncElem(v) + EncFields(fields) && EncFields([]) == []
  {
    hide EncElem, EncString;
    assert ([Field(name, v)] + fields)[1..] == fields;
  }

  /** ["hi", true, null] */
  lemma SampleElems()
    ensures EncElem(Array([String([0x68, 0x69]), Bool(true), Null])) == [0x09, 0x07, 0x01, 0x06, 0x05, 0x68, 0x69, 0x03, 0x01]
  {
    ShortString([0x68, 0x69]);
    NextElem(Null, []);
    NextElem(Bool(true), [Null]);
    NextElem(String([0x68, 0x69]), [Bool(true), Null]);
    hide EncString, EncElems;
    assert [Null] + [] == [Null] && [Bool(true)] + [Null] == [Bool(true), Null];
    assert [String([0x68, 0x69])] + [Bool(true), Null] == [String([0x68, 0x69]), Bool(true), Null];
  }

  lemma SampleFields(v: Value)
    ensures EncFields([Field([0x61], Integer(300)), Field([0x62], v)]) ==
            [0x03, 0x61] + [0x04, 0x82, 0x2C] + ([0x03, 0x62] + EncElem(v))
  {
    var a, b := Field([0x61], Integer(300)), Field([0x62], v);
    ShortName(0x61);
    ShortName(0x62);
    NextField([0x62], v, []);
    NextField([0x61], Integer(300), [b]);
    SampleNumber();
    hide *;
    assert [b] + [] == [b] && [a] + [b] == [a, b];
    assert [0x03, 0x62] + EncElem(v) + [] == [0x03, 0x62] + EncElem(v);
  }

  lemma ShortName(c: Byte)
    requires c != 0
    ensures EncString([c]) == [0x03, c]
  {
    ShortString([c]);
    hide EncString;
  }

  /** { "a": 300, "b": v } */
  lemma SampleObject(v: Value)
    ensures EncElem(Object([Field([0x61], Integer(300)), Field([0x62], v)])) ==
            [0x0A, 0x0B, 0x01] + ([0x03, 0x61] + [0x04, 0x82, 0x2C] + ([0x03, 0x62] + EncElem(v))) + [0x01]
  {
    hide *;
    SampleFields(v);
    ObjectIs([Field([0x61], Integer(300)), Field([0x62], v)]);
  }

  lemma SampleNumber()
    ensures EncElem(Integer(300)) == [0x04, 0x82, 0x2C]
  {
  }

  lemma ObjectIs(fields: seq<Field>)
    ensures EncElem(Object(fields)) == [0x0A, 0x0B, 0x01] + EncFields(fields) + [0x01]
  {
    hide EncFields;
  }

  /** [undefined, false, a double] */
  lemma SampleArray(bits: Bytes)
    ensures EncElem(Array([Undefined, Bool(false), Double(bits)])) ==
            [0x09, 0x07, 0x01] + ([0x00] + ([0x02] + ([0x05] + bits)))
  {
    var d := Double(bits);
    NextElem(d, []);
    NextElem(Bool(false), [d]);
    NextElem(Undefined, [Bool(false), d]);
    ArrayIs([Undefined, Bool(false), d]);
    hide EncElems;
    assert [d] + [] == [d] && [Bool(false)] + [d] == [Bool(false), d];
    assert [Undefined] + [Bool(false), d] == [Undefined, Bool(false), d];
    assert [0x05] + bits + [] == [0x05] + bits;
  }

  lemma ArrayIs(elems: seq<Value>)
    requires |elems| < 0x40
    ensures EncElem(Array(elems)) == [0x09, 2 * |elems| + 1, 0x01] + EncElems(elems)
  {
    hide EncElems;
  }

  /** A marker that read_elem does not know is read as a null handle. */
  lemma OtherMarkers(t: Byte, s: Bytes)
    requires t !in {0x01, 0x02, 0x03, 0x04, 0x05, 0x06, 0x08, 0x09, 0x0A, 0x0C}
    ensures DecElem([t] + s) == Ok(NoObject, s)
  {
    assert ([t] + s)[1..] == s;
  }

  // ---------- Objects with traits ----------

  function EncNames(fields: seq<Field>): Bytes {
    if fields == [] then [] else EncString(fields[0].name) + EncNames(fields[1..])
  }

  function EncValues(fields: seq<Field>): Bytes {
    if fields == [] then [] else EncElem(fields[0].value) + EncValues(fields[1..])
  }

  function Names(fields: seq<Field>): seq<Bytes> {
    if fields == [] then [] else [fields[0].name] + Names(fields[1..])
  }

  lemma {:induction false} NamesRoundTrip(fields: seq<Field>, suffix: Bytes)
    requires forall i :: 0 <= i < |fields| ==> GoodString(fields[i].name)
    ensures DecNames(EncNames(fields) + suffix, |fields|) == Ok(Names(fields), suffix)
  {
    hide EncString, DecString;
    if fields == [] {
      assert EncNames(fields) + suffix == suffix;
    } else {
      var more := EncNames(fields[1..]) + suffix;
      CStringNulFree(fields[0].name);
      StringRoundTrip(fields[0].name, more);
      NamesRoundTrip(fields[1..], suffix);
      assert EncNames(fields) + suffix == EncString(fields[0].name) + more;
    }
  }

  lemma {:induction false} ValuesRoundTrip(fields: seq<Field>, suffix: Bytes)
    requires forall i :: 0 <= i < |fields| ==> Encodable(fields[i].value)
    ensures DecMembers(EncValues(fields) + suffix, Names(fields)) == Ok(fields, suffix)
  {
    hide EncElem, DecElem;
    if fields == [] {
      assert EncValues(fields) + suffix == suffix;
    } else {
      var more := EncValues(fields[1..]) + suffix;
      RoundTrip(fields[0].value, more);
      IsObject(fields[0].value);
      ValuesRoundTrip(fields[1..], suffix);
      hide Encodable;
      assert EncValues(fields) + suffix == EncElem(fields[0].value) + more;
      assert Names(fields)[1..] == Names(fields[1..]);
      assert [fields[0]] + fields[1..] == fields;
    }
  }

  /** An object with a class name and sealed members, which read_obj accepts and write_obj never produces. */
  lemma SealedObject(name: Bytes, sealed: seq<Field>, suffix: Bytes)
    requires GoodString(name) && 16 * |sealed| + 3 <= U29_MAX
    requires forall i :: 0 <= i < |sealed| ==> GoodString(sealed[i].name) && Encodable(sealed[i].value)
    ensures DecObject(EncU29(16 * |sealed| + 3) + (EncString(name) + (EncNames(sealed) + (EncValues(sealed) + suffix)))) ==
            Ok(Object(sealed), suffix)
  {
    hide DecInt, EncU29, DecString, EncString, DecNames, EncNames, DecMembers, EncValues;
    var values := EncValues(sealed) + suffix;
    var names := EncNames(sealed) + values;
    IntRoundTrip(16 * |sealed| + 3, EncString(name) + names);
    CStringNulFree(name);
    StringRoundTrip(name, names);
    NamesRoundTrip(sealed, values);
    ValuesRoundTrip(sealed, suffix);
    hide Encodable;
    Head(|sealed|, 3);
  }

  /** The same with dynamic members after the sealed ones. */
  lemma SealedAndDynamic(name: Bytes, sealed: seq<Field>, fields: seq<Field>, suffix: Bytes)
    requires GoodString(name) && 16 * |sealed| + 11 <= U29_MAX && |fields| < DYNAMIC_OBJ_MAX_PROPERTY
    requires forall i :: 0 <= i < |sealed| ==> GoodString(sealed[i].name) && Encodable(sealed[i].value)
    requires forall i :: 0 <= i < |fields| ==> GoodField(fields[i])
    ensures DecObject(EncU29(16 * |sealed| + 11) +
                      (EncString(name) + (EncNames(sealed) + (EncValues(sealed) + (EncFields(fields) + ([1] + suffix)))))) ==
            Ok(Object(sealed + fields), suffix)
  {
    hide DecInt, EncU29, DecString, EncString, DecNames, EncNames, DecMembers, EncValues, DecFields, EncFields;
    var more := EncFields(fields) + ([1] + suffix);
    var values := EncValues(sealed) + more;
    var names := EncNames(sealed) + values;
    IntRoundTrip(16 * |sealed| + 11, EncString(name) + names);
    CStringNulFree(name);
    StringRoundTrip(name, names);
    NamesRoundTrip(sealed, values);
    ValuesRoundTrip(sealed, more);
    FieldsRoundTrip(fields, DYNAMIC_OBJ_MAX_PROPERTY, suffix);
    hide Encodable, GoodField;
    Head(|sealed|, 11);
  }

  /** The bits of the head: inline traits, not external, dynamic or not, and the number of sealed members. */
  lemma Head(n: nat, low: nat)
    requires low == 3 || low == 11
    ensures var h := 16 * n + low;
            h % 2 == 1 && h / 2 % 2 == 1 && h / 4 % 2 == 0 && h / 8 % 2 == (if low == 11 then 1 else 0) && h / 16 == n
  {
    var h := 16 * n + low;
    assert h / 2 == 8 * n + low / 2;
    assert h / 4 == 4 * n + low / 4;
    assert h / 8 == 2 * n + low / 8;
  }
}

/**
 * The encoder and decoder of AMF3.cpp: what they write and read as functions on bytes, the round trip, and the methods
 * that work on a context's stream. Bytes are numbers below 256; | of parts that do not overlap is their sum.
 */
module Amf3 {
  import opened Common

  type Byte = b: int | 0 <= b < 256
  type Bytes = seq<Byte>

  /** The tree of an amf_object_handle; NoObject is the null handle. Names belong to the fields of objects. */
  datatype Value =
    | NoObject | Undefined | Null | Bool(b: bool) | Integer(i: int)
    | Double(bits: Bytes)   // most significant byte first
    | String(s: Bytes)
    | Array(elems: seq<Value>)
    | Object(fields: seq<Field>)

  datatype Field = Field(name: Bytes, value: Value)

  /** Unmodelled: the stream ends too early, or it holds a date, a byte array or a reference to an object. */
  datatype Result<T> = Ok(value: T, rest: Bytes) | Unmodelled

  const U29_MAX: nat := 0x0FFF_FFFF
  const DYNAMIC_OBJ_MAX_PROPERTY: nat := 512

  // ---------- Integers (section 1.3.1 of the AMF 3 Specification) ----------

  /** write_u29: nothing is written for a number above 0x0FFFFFFF. */
  function EncU29(n: nat): Bytes {
    if n <= 0x7F then [n]
    else if n <= 0x3FFF then [n / 0x80 + 0x80, n % 0x80]
    else if n <= 0x1F_FFFF then [n / 0x4000 + 0x80, n / 0x80 % 0x80 + 0x80, n % 0x80]
    else if n <= U29_MAX then [n / 0x40_0000 + 0x80, n / 0x8000 % 0x80 + 0x80, n / 0x100 % 0x80 + 0x80, n % 0x100]
    else []
  }

  /** The highest of the 29 bits is the sign; it fills the bits above. */
  function SignExtend(value: nat): int
    requires value < 0x2000_0000
  {
    if value >= 0x1000_0000 then value - 0x2000_0000 else value
  }

  /** How many values fit in the groups of seven bits read before. */
  function Bound(readnum: nat): nat {
    if readnum == 0 then 1 else if readnum == 1 then 0x80 else if readnum == 2 then 0x4000 else 0x20_0000
  }

  /** The loop of read_int after readnum bytes. */
  function DecIntFrom(s: Bytes, readnum: nat, value: nat): (r: Result<int>)
    requires readnum <= 3 && value < Bound(readnum)
    ensures r.Ok? ==> |r.rest| < |s| && -0x1000_0000 <= r.value < 0x1000_0000
    decreases 3 - readnum
  {
    if s == [] then Unmodelled
    else if s[0] >= 0x80 && readnum < 3 then DecIntFrom(s[1..], readnum + 1, value * 0x80 + s[0] % 0x80)
    else if readnum < 3 then Ok(SignExtend(value * 0x80 + s[0] % 0x80), s[1..])
    else Ok(SignExtend(value * 0x100 + s[0]), s[1..])
  }

  function DecInt(s: Bytes): (r: Result<int>)
    ensures r.Ok? ==> |r.rest| < |s| && -0x1000_0000 <= r.value < 0x1000_0000
  {
    DecIntFrom(s, 0, 0)
  }

  lemma StopsOnEnd(readnum: nat, value: nat)
    ensures 0 < Bound(0)
    ensures readnum <= 3 && value < Bound(readnum) ==> DecIntFrom([], readnum, value) == Unmodelled
  {
  }

  lemma ReadStep(s: Bytes, readnum: nat, value: nat)
    requires s != [] && readnum <= 3 && value < Bound(readnum)
    ensures var more, last := value * 0x80 + s[0] % 0x80, value * 0x100 + s[0];
            if readnum == 3 then last < 0x2000_0000 && DecIntFrom(s, readnum, value) == Ok(SignExtend(last), s[1..])
            else
              && more < 0x2000_0000 && more < Bound(readnum + 1)
              && DecIntFrom(s, readnum, value) ==
                   if s[0] >= 0x80 then DecIntFrom(s[1..], readnum + 1, more) else Ok(SignExtend(more), s[1..])
  {
  }

  /** A byte with its high bit set goes on. */
  lemma MoreBytes(b: Byte, rest: Bytes, readnum: nat, value: nat)
    requires b < 0x80 && readnum < 3 && value < Bound(readnum)
    ensures DecIntFrom([b + 0x80] + rest, readnum, value) == DecIntFrom(rest, readnum + 1, value * 0x80 + b)
  {
    assert ([b + 0x80] + rest)[1..] == rest;
    assert (b + 0x80) % 0x80 == b;
  }

  /** One without ends the number. */
  lemma LastByte(b: Byte, suffix: Bytes, readnum: nat, value: nat)
    requires b < 0x80 && readnum < 3 && value < Bound(readnum)
    ensures DecIntFrom([b] + suffix, readnum, value) == Ok(value * 0x80 + b, suffix)
  {
    assert ([b] + suffix)[1..] == suffix;
  }

  /** The fourth byte ends it and has eight bits. */
  lemma FourthByte(b: Byte, suffix: Bytes, value: nat)
    requires value < 0x20_0000
    ensures DecIntFrom([b] + suffix, 3, value) == Ok(SignExtend(value * 0x100 + b), suffix)
  {
    assert ([b] + suffix)[1..] == suffix;
  }

  lemma OneByte(a: Byte, suffix: Bytes)
    requires a < 0x80
    ensures DecInt([a] + suffix) == Ok(a, suffix)
  {
    hide DecIntFrom;
    LastByte(a, suffix, 0, 0);
  }

  lemma TwoBytes(a: Byte, b: Byte, suffix: Bytes)
    requires a < 0x80 && b < 0x80
    ensures DecInt([a + 0x80, b] + suffix) == Ok(a * 0x80 + b, suffix)
  {
    hide DecIntFrom;
    assert [a + 0x80, b] + suffix == [a + 0x80] + ([b] + suffix);
    MoreBytes(a, [b] + suffix, 0, 0);
    LastByte(b, suffix, 1, a);
  }

  lemma ThreeBytes(a: Byte, b: Byte, c: Byte, suffix: Bytes)
    requires a < 0x80 && b < 0x80 && c < 0x80
    ensures DecInt([a + 0x80, b + 0x80, c] + suffix) == Ok((a * 0x80 + b) * 0x80 + c, suffix)
  {
    hide DecIntFrom;
    var s1, s2 := [b + 0x80, c] + suffix, [c] + suffix;
    assert [a + 0x80, b + 0x80, c] + suffix == [a + 0x80] + s1 && s1 == [b + 0x80] + s2;
    MoreBytes(a, s1, 0, 0);
    MoreBytes(b, s2, 1, a);
    LastByte(c, suffix, 2, a * 0x80 + b);
  }

  lemma FourBytes(a: Byte, b: Byte, c: Byte, d: Byte, suffix: Bytes)
    requires a < 0x80 && b < 0x80 && c < 0x80
    ensures DecInt([a + 0x80, b + 0x80, c + 0x80, d] + suffix) ==
            Ok(SignExtend(((a * 0x80 + b) * 0x80 + c) * 0x100 + d), suffix)
  {
    hide DecIntFrom, SignExtend;
    var s1, s2, s3 := [b + 0x80, c + 0x80, d] + suffix, [c + 0x80, d] + suffix, [d] + suffix;
    assert [a + 0x80, b + 0x80, c + 0x80, d] + suffix == [a + 0x80] + s1;
    assert s1 == [b + 0x80] + s2 && s2 == [c + 0x80] + s3;
    MoreBytes(a, s1, 0, 0);
    MoreBytes(b, s2, 1, a);
    MoreBytes(c, s3, 2, a * 0x80 + b);
    FourthByte(d, suffix, (a * 0x80 + b) * 0x80 + c);
  }

  /** read_int inverts write_u29 up to 0x0FFFFFFF. */
  lemma IntRoundTrip(n: nat, suffix: Bytes)
    requires n <= U29_MAX
    ensures DecInt(EncU29(n) + suffix) == Ok(n, suffix)
    ensures 1 <= |EncU29(n)| <= 4
  {
    hide DecInt;
    if n <= 0x7F {
      OneByte(n, suffix);
    } else if n <= 0x3FFF {
      TwoBytes(n / 0x80, n % 0x80, suffix);
    } else if n <= 0x1F_FFFF {
      ThreeDigits(n);
      ThreeBytes(n / 0x4000, n / 0x80 % 0x80, n % 0x80, suffix);
    } else {
      FourDigits(n);
      FourBytes(n / 0x40_0000, n / 0x8000 % 0x80, n / 0x100 % 0x80, n % 0x100, suffix);
    }
  }

  lemma ThreeDigits(n: nat)
    requires n <= 0x1F_FFFF
    ensures ((n / 0x4000) * 0x80 + n / 0x80 % 0x80) * 0x80 + n % 0x80 == n && n / 0x4000 < 0x80
  {
  }

  lemma FourDigits(n: nat)
    requires n <= U29_MAX
    ensures (((n / 0x40_0000) * 0x80 + n / 0x8000 % 0x80) * 0x80 + n / 0x100 % 0x80) * 0x100 + n % 0x100 == n
    ensures n / 0x40_0000 < 0x80
  {
  }

  // ---------- Strings ----------

  /** What c_str() shows of a string: the bytes before the first NUL. */
  function CString(s: Bytes): Bytes {
    UpTo(s, 0)
  }

  predicate NulFree(s: Bytes) {
    Lacks(s, 0)
  }

  lemma CStringNulFree(s: Bytes)
    ensures NulFree(CString(s)) && |CString(s)| <= |s| && (CString(s) == s <==> NulFree(s))
  {
    UpToExact(s, 0);
  }

  /** write_string */
  function EncString(s: Bytes): Bytes {
    var c := CString(s);
    if c == [] then [1] else EncU29(2 * |c| + 1) + c
  }

  /** read_string; an even head is a reference to a string. */
  function DecString(s: Bytes): (r: Result<Bytes>)
    ensures r.Ok? ==> |r.rest| < |s|
  {
    var h := DecInt(s);
    if h.Unmodelled? || h.value % 2 == 0 then Unmodelled
    else
      var len := h.value / 2;
      if len <= 0 then Ok([], h.rest)
      else if |h.rest| < len then Unmodelled
      else Ok(CString(h.rest[..len]), h.rest[len..])
  }

  /** The bytes before the first NUL come back, whatever follows, as long as their number fits into the head. */
  lemma StringRoundTrip(s: Bytes, suffix: Bytes)
    requires |CString(s)| <= U29_MAX / 2
    ensures DecString(EncString(s) + suffix) == Ok(CString(s), suffix)
  {
    hide EncU29, DecInt, CString;
    var c := CString(s);
    CStringNulFree(s);
    CStringNulFree(c);
    if c == [] {
      OneByte(1, suffix);
    } else {
      IntRoundTrip(2 * |c| + 1, c + suffix);
      assert EncString(s) + suffix == EncU29(2 * |c| + 1) + (c + suffix);
      assert (c + suffix)[..|c|] == c && (c + suffix)[|c|..] == suffix;
    }
  }

  // ---------- Elements ----------

  /** write_elem */
  function EncElem(v: Value): Bytes
    decreases v, 0
  {
    match v
    case NoObject => []
    case Undefined => [0x00]
    case Null => [0x01]
    case Bool(b) => [if b then 0x03 else 0x02]
    case Integer(i) => [0x04] + (if i >= 0 then EncU29(i) else [])   // as unsigned int a negative number is too big
    case Double(bits) => [0x05] + bits
    case String(s) => [0x06] + EncString(s)
    case Array(elems) => [0x09] + EncArray(elems)
    case Object(fields) => [0x0A] + EncObject(fields)
  }

  /** write_array: the number of elements and an empty name. */
  function EncArray(elems: seq<Value>): Bytes
    decreases elems, 1
  {
    EncU29(2 * |elems| + 1) + ([1] + EncElems(elems))
  }

  /** write_obj: an anonymous dynamic object. */
  function EncObject(fields: seq<Field>): Bytes
    decreases fields, 1
  {
    EncU29(0x0B) + ([1] + (EncFields(fields) + [1]))
  }

  function EncElems(elems: seq<Value>): Bytes
    decreases elems, 0
  {
    if elems == [] then [] else EncElem(elems[0]) + EncElems(elems[1..])
  }

  function EncFields(fields: seq<Field>): Bytes
    decreases fields, 0
  {
    if fields == [] then [] else EncString(fields[0].name) + EncElem(fields[0].value) + EncFields(fields[1..])
  }

  /** read_elem */
  function DecElem(s: Bytes): (r: Result<Value>)
    ensures r.Ok? ==> |r.rest| < |s|
    decreases |s|, 0
  {
    if s == [] then Unmodelled
    else
      var t, s := s[0], s[1..];
      if t == 0x01 then Ok(Null, s)
      else if t == 0x02 then Ok(Bool(false), s)
      else if t == 0x03 then Ok(Bool(true), s)
      else if t == 0x04 then
        var i := DecInt(s);
        if i.Ok? then Ok(Integer(i.value), i.rest) else Unmodelled
      else if t == 0x05 then if |s| < 8 then Unmodelled else Ok(Double(s[..8]), s[8..])
      else if t == 0x06 then
        var x := DecString(s);
        if x.Ok? then Ok(String(x.value), x.rest) else Unmodelled
      else if t == 0x08 || t == 0x0C then Unmodelled
      else if t == 0x09 then DecArray(s)
      else if t == 0x0A then DecObject(s)
      else Ok(NoObject, s)
  }

  /** read_array: the head has the number of elements, the name after it is not used. */
  function DecArray(s: Bytes): (r: Result<Value>)
    ensures r.Ok? ==> |r.rest| < |s|
    decreases |s|, 1
  {
    var h := DecInt(s);
    if h.Unmodelled? || h.value % 2 == 0 then Unmodelled
    else
      var name := DecString(h.rest);
      if name.Unmodelled? then Unmodelled
      else
        var e := DecElems(name.rest, h.value / 2);
        if e.Ok? then Ok(Array(e.value), e.rest) else Unmodelled
  }

  function DecElems(s: Bytes, n: int): (r: Result<seq<Value>>)
    ensures r.Ok? ==> |r.rest| <= |s|
    decreases |s|, 1
  {
    if n <= 0 then Ok([], s)
    else
      var e := DecElem(s);
      if e.Unmodelled? then Unmodelled
      else
        var more := DecElems(e.rest, n - 1);
        if more.Ok? then Ok([Elem(e.value)] + more.value, more.rest) else Unmodelled
  }

  /** A null element of an array becomes a new object. */
  function Elem(v: Value): Value {
    if v == NoObject then Undefined else v
  }

  /** read_obj: inline traits only. A null element is not added. */
  function DecObject(s: Bytes): (r: Result<Value>)
    ensures r.Ok? ==> |r.rest| < |s|
    decreases |s|, 1
  {
    var h := DecInt(s);
    if h.Unmodelled? || h.value % 2 == 0 || h.value / 2 % 2 == 0 then Unmodelled
    else
      var external := h.value / 4 % 2 == 1;
      var dynamic := !external && h.value / 8 % 2 == 1;
      var classname := DecString(h.rest);
      if classname.Unmodelled? then Unmodelled
      else
        var names := DecNames(classname.rest, if external then 0 else h.value / 16);
        if names.Unmodelled? then Unmodelled
        else
          var members := DecMembers(names.rest, names.value);
          if members.Unmodelled? || !dynamic then
            if members.Ok? then Ok(Object(members.value), members.rest) else Unmodelled
          else
            var more := DecFields(members.rest, DYNAMIC_OBJ_MAX_PROPERTY);
            if more.Ok? then Ok(Object(members.value + more.value), more.rest) else Unmodelled
  }

  function DecNames(s: Bytes, n: int): (r: Result<seq<Bytes>>)
    ensures r.Ok? ==> |r.rest| <= |s|
    decreases |s|
  {
    if n <= 0 then Ok([], s)
    else
      var name := DecString(s);
      if name.Unmodelled? then Unmodelled
      else
        var more := DecNames(name.rest, n - 1);
        if more.Ok? then Ok([name.value] + more.value, more.rest) else Unmodelled
  }

  /** The field of a child, unless the child is a null handle. */
  function Child(name: Bytes, v: Value): seq<Field> {
    if v == NoObject then [] else [Field(name, v)]
  }

  function DecMembers(s: Bytes, names: seq<Bytes>): (r: Result<seq<Field>>)
    ensures r.Ok? ==> |r.rest| <= |s|
    decreases |s|, 1
  {
    if names == [] then Ok([], s)
    else
      var e := DecElem(s);
      if e.Unmodelled? then Unmodelled
      else
        var more := DecMembers(e.rest, names[1..]);
        if more.Ok? then Ok(Child(names[0], e.value) + more.value, more.rest) else Unmodelled
  }

  /** At most n dynamic members; an empty name ends them. */
  function DecFields(s: Bytes, n: nat): (r: Result<seq<Field>>)
    ensures r.Ok? ==> |r.rest| <= |s|
    decreases |s|, 1
  {
    if n == 0 then Ok([], s)
    else
      var name := DecString(s);
      if name.Unmodelled? then Unmodelled
      else if name.value == [] then Ok([], name.rest)
      else
        var e := DecElem(name.rest);
        if e.Unmodelled? then Unmodelled
        else
          var more := DecFields(e.rest, n - 1);
          if more.Ok? then Ok(Child(name.value, e.value) + more.value, more.rest) else Unmodelled
  }

  // ---------- The round trip ----------

  predicate GoodString(s: Bytes) {
    NulFree(s) && |s| <= U29_MAX / 2
  }

  /** The trees that come back as they were. */
  predicate Encodable(v: Value)
    decreases v, 0
  {
    match v
    case NoObject => false    // nothing is written
    case Undefined => false   // is read as no object, but see GoodElem
    case Null => true
    case Bool(_) => true
    case Integer(i) => 0 <= i <= U29_MAX
    case Double(bits) => |bits| == 8
    case String(s) => GoodString(s)
    case Array(elems) => |elems| <= U29_MAX / 2 && forall i :: 0 <= i < |elems| ==> GoodElem(elems[i])
    case Object(fields) =>
      && |fields| < DYNAMIC_OBJ_MAX_PROPERTY
      && forall i :: 0 <= i < |fields| ==> GoodField(fields[i])
  }

  predicate GoodElem(v: Value)
    decreases v, 1
  {
    v == Undefined || Encodable(v)
  }

  predicate GoodField(f: Field) {
    GoodString(f.name) && f.name != [] && Encodable(f.value)
  }

  predicate IsLeaf(v: Value) {
    !v.Array? && !v.Object?
  }

  lemma Tagged(t: Byte, body: Bytes, suffix: Bytes)
    ensures ([t] + body + suffix)[1..] == body + suffix && ([t] + body + suffix)[0] == t
  {
  }

  lemma LeafRoundTrip(v: Value, suffix: Bytes)
    requires Encodable(v) && IsLeaf(v)
    ensures DecElem(EncElem(v) + suffix) == Ok(v, suffix)
  {
    hide DecInt, EncU29, EncString, DecString, DecArray, DecObject;
    var code := EncElem(v);
    assert code == [code[0]] + code[1..];
    Tagged(code[0], code[1..], suffix);
    if v.Integer? {
      IntRoundTrip(v.i, suffix);
    } else if v.String? {
      CStringNulFree(v.s);
      StringRoundTrip(v.s, suffix);
    } else if v.Double? {
      assert (v.bits + suffix)[..8] == v.bits && (v.bits + suffix)[8..] == suffix;
    } else {
      assert code[1..] + suffix == suffix;
    }
  }

  /** Decoding what encode wrote gives the tree back and uses up exactly that, whatever follows. */
  lemma {:induction false} RoundTrip(v: Value, suffix: Bytes)
    requires Encodable(v)
    ensures DecElem(EncElem(v) + suffix) == Ok(v, suffix)
    decreases v, 1
  {
    if v.Array? {
      hide DecArray, DecObject, EncArray;
      ArrayRoundTrip(v.elems, suffix);
      Tagged(0x09, EncArray(v.elems), suffix);
    } else if v.Object? {
      hide DecArray, DecObject, EncObject;
      ObjectRoundTrip(v.fields, suffix);
      Tagged(0x0A, EncObject(v.fields), suffix);
    } else {
      LeafRoundTrip(v, suffix);
    }
  }

  lemma EmptyName(s: Bytes)
    ensures DecString([1] + s) == Ok([], s)
  {
    StringRoundTrip([], s);
  }

  lemma ArrayRoundTrip(elems: seq<Value>, suffix: Bytes)
    requires |elems| <= U29_MAX / 2 && forall i :: 0 <= i < |elems| ==> GoodElem(elems[i])
    ensures DecArray(EncArray(elems) + suffix) == Ok(Array(elems), suffix)
    decreases elems, 1
  {
    hide DecInt, EncU29, DecString, DecElems, EncElems;
    var after := [1] + (EncElems(elems) + suffix);
    assert EncArray(elems) + suffix == EncU29(2 * |elems| + 1) + after;
    IntRoundTrip(2 * |elems| + 1, after);
    EmptyName(EncElems(elems) + suffix);
    ElemsRoundTrip(elems, suffix);
  }

  lemma ElemRoundTrip(v: Value, suffix: Bytes)
    requires GoodElem(v)
    ensures var r := DecElem(EncElem(v) + suffix); r.Ok? && Elem(r.value) == v && r.rest == suffix
    decreases v, 2
  {
    if v == Undefined {
      assert EncElem(v) + suffix == [0x00] + suffix;
    } else {
      RoundTrip(v, suffix);
      IsObject(v);
    }
  }

  lemma IsObject(v: Value)
    requires Encodable(v)
    ensures v != NoObject && v != Undefined
  {
  }

  lemma {:induction false} ElemsRoundTrip(elems: seq<Value>, suffix: Bytes)
    requires forall i :: 0 <= i < |elems| ==> GoodElem(elems[i])
    ensures DecElems(EncElems(elems) + suffix, |elems|) == Ok(elems, suffix)
    decreases elems, 0
  {
    hide DecElem, EncElem, Encodable;
    if elems == [] {
      assert EncElems(elems) + suffix == suffix;
    } else {
      var more := EncElems(elems[1..]) + suffix;
      ElemRoundTrip(elems[0], more);
      ElemsRoundTrip(elems[1..], suffix);
      assert EncElems(elems) + suffix == EncElem(elems[0]) + more;
      assert [elems[0]] + elems[1..] == elems;
    }
  }

  lemma ObjectRoundTrip(fields: seq<Field>, suffix: Bytes)
    requires |fields| < DYNAMIC_OBJ_MAX_PROPERTY && forall i :: 0 <= i < |fields| ==> GoodField(fields[i])
    ensures DecObject(EncObject(fields) + suffix) == Ok(Object(fields), suffix)
    decreases fields, 2
  {
    hide DecInt, EncU29, DecString, DecFields, EncFields;
    var after := [1] + (EncFields(fields) + ([1] + suffix));
    assert EncObject(fields) + suffix == EncU29(0x0B) + after;
    IntRoundTrip(0x0B, after);
    EmptyName(EncFields(fields) + ([1] + suffix));
    FieldsRoundTrip(fields, DYNAMIC_OBJ_MAX_PROPERTY, suffix);
    assert [] + fields == fields;
  }

  lemma FieldsRoundTrip(fields: seq<Field>, n: nat, suffix: Bytes)
    requires |fields| < n && forall i :: 0 <= i < |fields| ==> GoodField(fields[i])
    ensures DecFields(EncFields(fields) + ([1] + suffix), n) == Ok(fields, suffix)
    decreases fields, 1
  {
    hide DecElem, EncElem, EncFields, DecString;
    EmptyName(suffix);
    FieldsThen(fields, n, [1] + suffix);
    assert fields + [] == fields;
  }

  lemma FieldsSplit(fields: seq<Field>, more: Bytes)
    requires fields != []
    ensures EncFields(fields) + more ==
            EncString(fields[0].name) + (EncElem(fields[0].value) + (EncFields(fields[1..]) + more))
  {
    hide EncString, EncElem;
    Regroup(EncString(fields[0].name), EncElem(fields[0].value), EncFields(fields[1..]), more);
  }

  lemma Regroup(a: Bytes, b: Bytes, c: Bytes, d: Bytes)
    ensures a + b + c + d == a + (b + (c + d))
  {
  }

  lemma {:induction false} FieldsThen(fields: seq<Field>, n: nat, more: Bytes)
    requires |fields| <= n && forall i :: 0 <= i < |fields| ==> GoodField(fields[i])
    ensures var r := DecFields(more, n - |fields|);
            r.Ok? ==> DecFields(EncFields(fields) + more, n) == Ok(fields + r.value, r.rest)
    decreases fields, 0
  {
    hide DecElem, EncElem, Encodable, EncString, DecString;
    var r := DecFields(more, n - |fields|);
    if fields == [] {
      assert EncFields(fields) + more == more;
      assert r.Ok? ==> fields + r.value == r.value;
    } else {
      var f := fields[0];
      var rest := EncFields(fields[1..]) + more;
      CStringNulFree(f.name);
      StringRoundTrip(f.name, EncElem(f.value) + rest);
      RoundTrip(f.value, rest);
      IsObject(f.value);
      FieldsThen(fields[1..], n - 1, more);
      FieldsSplit(fields, more);
      hide EncFields;
      assert r.Ok? ==> [f] + (fields[1..] + r.value) == fields + r.value;
    }
  }

  // ---------- The context's streams ----------

  function Prepend<T>(acc: seq<T>, r: Result<seq<T>>): Result<seq<T>> {
    if r.Ok? then Ok(acc + r.value, r.rest) else Unmodelled
  }

  lemma Joined(a: Bytes, b: Bytes, c: Bytes)
    ensures a + b + c == a + (b + c) && b + [] == b
  {
  }

  class Context {
    var output: Bytes     // what m_WriteFunc was given
    const input: Bytes    // what m_ReadFunc gives, from pos on
    var pos: nat

    constructor (input: Bytes)
      ensures this.input == input && pos == 0 && output == []
    {
      this.input, pos, output := input, 0, [];
    }

    ghost predicate Valid()
      reads this
    {
      pos <= |input|
    }

    ghost function Rest(): Bytes
      reads this
      requires Valid()
    {
      input[pos..]
    }

    // ----- Writing -----

    method Write(bytes: Bytes)
      modifies `output
      ensures output == old(output) + bytes
    {
      output := output + bytes;
    }

    /** write_u29 */
    method WriteU29(data: nat) returns (ok: bool)
      modifies `output
      ensures output == old(output) + EncU29(data) && (ok <==> data <= U29_MAX)
    {
      if data <= 0x7F {
        Write([data]);
        return true;
      }
      if data <= 0x3FFF {
        Write([data / 0x80 + 0x80, data % 0x80]);
        return true;
      }
      if data <= 0x1F_FFFF {
        Write([data / 0x4000 + 0x80, data / 0x80 % 0x80 + 0x80, data % 0x80]);
        return true;
      }
      if data <= U29_MAX {
        Write([data / 0x40_0000 + 0x80, data / 0x8000 % 0x80 + 0x80, data / 0x100 % 0x80 + 0x80, data % 0x100]);
        return true;
      }
      ok := false;
    }

    /** write_string */
    method WriteString(s: Bytes)
      modifies `output
      ensures output == old(output) + EncString(s)
    {
      hide EncU29, CString;
      var c := CString(s);
      if |c| == 0 {
        Write([1]);
      } else {
        var ok := WriteU29(2 * |c| + 1);
        Write(c);
      }
    }

    /** write_array */
    method WriteArray(elems: seq<Value>)
      modifies `output
      ensures output == old(output) + EncArray(elems)
      decreases elems, 1
    {
      hide EncU29, EncElem;
      var ok := WriteU29(2 * |elems| + 1);
      Write([1]);
      for i := 0 to |elems|
        invariant output + EncElems(elems[i..]) == old(output) + EncArray(elems)
      {
        assert elems[i..][1..] == elems[i + 1..];
        WriteElem(elems[i]);
      }
    }

    /** write_obj */
    method WriteObject(fields: seq<Field>)
      modifies `output
      ensures output == old(output) + EncObject(fields)
      decreases fields, 1
    {
      hide EncU29, EncElem, EncString;
      var ok := WriteU29(0x0B);
      Write([1]);
      for i := 0 to |fields|
        invariant output + EncFields(fields[i..]) + [1] == old(output) + EncObject(fields)
      {
        assert fields[i..][1..] == fields[i + 1..];
        WriteString(fields[i].name);
        WriteElem(fields[i].value);
      }
      Write([1]);
    }

    /** write_elem */
    method WriteElem(v: Value)
      modifies `output
      ensures output == old(output) + EncElem(v)
      decreases v, 0
    {
      hide EncU29, EncString, EncArray, EncObject;
      ghost var before := output;
      match v
      case NoObject => Joined(before, [], []);
      case Undefined => Write([0x00]);
      case Null => Write([0x01]);
      case Bool(b) => Write([if b then 0x03 else 0x02]);
      case Integer(i) =>
        Write([0x04]);
        if i >= 0 {
          var ok := WriteU29(i);
          Joined(before, [0x04], EncU29(i));
        } else {
          Joined(before, [0x04], []);
        }
      case Double(bits) =>
        Write([0x05]);
        Write(bits);
        Joined(before, [0x05], bits);
      case String(s) =>
        Write([0x06]);
        WriteString(s);
        Joined(before, [0x06], EncString(s));
      case Array(elems) =>
        Write([0x09]);
        WriteArray(elems);
        Joined(before, [0x09], EncArray(elems));
      case Object(fields) =>
        Write([0x0A]);
        WriteObject(fields);
        Joined(before, [0x0A], EncObject(fields));
    }

    // ----- Reading -----

    /** read_byte; not ok at the end of the stream. */
    method ReadByte() returns (ok: bool, b: Byte)
      requires Valid()
      modifies `pos
      ensures Valid() && old(pos) <= pos && (ok <==> old(Rest()) != [])
      ensures ok ==> b == old(Rest())[0] && Rest() == old(Rest())[1..]
    {
      ok, b := pos < |input|, 0;
      if ok {
        b := input[pos];
        pos := pos + 1;
      }
    }

    /** read_int */
    method ReadInt() returns (ok: bool, value: int)
      requires Valid()
      modifies `pos
      ensures Valid() && old(pos) <= pos && (ok <==> DecInt(old(Rest())).Ok?)
      ensures ok ==> DecInt(old(Rest())) == Ok(value, Rest())
    {
      hide DecIntFrom, Bound;
      ghost var start := Rest();
      var byte;
      value := 0;
      StopsOnEnd(0, 0);
      ok, byte := ReadByte();
      if !ok {
        return;
      }
      var readnum, acc: nat := 0, 0;
      while byte >= 0x80 && readnum < 3
        invariant Valid() && old(pos) < pos && readnum <= 3 && byte == input[pos - 1] && acc < Bound(readnum)
        invariant DecInt(start) == DecIntFrom(input[pos - 1..], readnum, acc)
        decreases 3 - readnum
      {
        ReadStep(input[pos - 1..], readnum, acc);
        assert input[pos - 1..][1..] == input[pos..];
        acc := acc * 0x80 + byte % 0x80;
        readnum := readnum + 1;
        StopsOnEnd(readnum, acc);
        ok, byte := ReadByte();
        if !ok {
          return;
        }
      }
      ReadStep(input[pos - 1..], readnum, acc);
      assert input[pos - 1..][1..] == input[pos..];
      value := SignExtend(if readnum < 3 then acc * 0x80 + byte % 0x80 else acc * 0x100 + byte);
    }

    /** read_string */
    method ReadString() returns (ok: bool, s: Bytes)
      requires Valid()
      modifies `pos
      ensures Valid() && old(pos) <= pos && (ok <==> DecString(old(Rest())).Ok?)
      ensures ok ==> DecString(old(Rest())) == Ok(s, Rest())
    {
      hide DecInt, CString;
      s := [];
      var head;
      ok, head := ReadInt();
      if !ok || head % 2 == 0 {
        return false, [];
      }
      var len := head / 2;
      if len > 0 {
        if |input| - pos < len {
          return false, [];
        }
        assert input[pos..][..len] == input[pos..pos + len] && input[pos..][len..] == input[pos + len..];
        s := CString(input[pos..pos + len]);
        pos := pos + len;
      }
    }

    /** The loop of read_array over the elements. */
    method ReadElems(subnum: int) returns (ok: bool, elems: seq<Value>)
      requires Valid()
      modifies `pos
      ensures Valid() && old(pos) <= pos && (ok <==> DecElems(old(Rest()), subnum).Ok?)
      ensures ok ==> DecElems(old(Rest()), subnum) == Ok(elems, Rest())
      decreases |input| - pos, 2
    {
      hide DecElem;
      ghost var start := Rest();
      ok, elems := true, [];
      var i := 0;
      NoneRead(DecElems(start, subnum));
      while i < subnum
        invariant ok && Valid() && 0 <= i && old(pos) <= pos && (subnum >= 0 ==> i <= subnum)
        invariant DecElems(start, subnum) == Prepend(elems, DecElems(Rest(), subnum - i))
      {
        ghost var e := DecElem(Rest());
        if e.Ok? {
          OneRead(elems, [Elem(e.value)], DecElems(e.rest, subnum - i - 1));
        }
        var sub;
        ok, sub := ReadElem();
        if !ok {
          return;
        }
        elems := elems + [Elem(sub)];
        i := i + 1;
      }
      NoMoreRead(elems, Rest());
    }

    /** The loop of read_obj over the names of sealed members. */
    method ReadNames(subnum: int) returns (ok: bool, names: seq<Bytes>)
      requires Valid()
      modifies `pos
      ensures Valid() && old(pos) <= pos && (ok <==> DecNames(old(Rest()), subnum).Ok?)
      ensures ok ==> DecNames(old(Rest()), subnum) == Ok(names, Rest())
    {
      hide DecString;
      ghost var start := Rest();
      ok, names := true, [];
      var i := 0;
      NoneRead(DecNames(start, subnum));
      while i < subnum
        invariant ok && Valid() && 0 <= i && old(pos) <= pos && (subnum >= 0 ==> i <= subnum)
        invariant DecNames(start, subnum) == Prepend(names, DecNames(Rest(), subnum - i))
      {
        ghost var e := DecString(Rest());
        if e.Ok? {
          OneRead(names, [e.value], DecNames(e.rest, subnum - i - 1));
        }
        var name;
        ok, name := ReadString();
        if !ok {
          return;
        }
        names := names + [name];
        i := i + 1;
      }
      NoMoreRead(names, Rest());
    }

    /** The loop of read_obj over the values of sealed members. */
    method ReadMembers(names: seq<Bytes>) returns (ok: bool, fields: seq<Field>)
      requires Valid()
      modifies `pos
      ensures Valid() && old(pos) <= pos && (ok <==> DecMembers(old(Rest()), names).Ok?)
      ensures ok ==> DecMembers(old(Rest()), names) == Ok(fields, Rest())
      decreases |input| - pos, 2
    {
      hide DecElem, Child;
      ghost var start := Rest();
      ok, fields := true, [];
      NoneRead(DecMembers(start, names));
      var i := 0;
      assert names[0..] == names;
      while i < |names|
        invariant ok && Valid() && 0 <= i <= |names| && old(pos) <= pos
        invariant DecMembers(start, names) == Prepend(fields, DecMembers(Rest(), names[i..]))
      {
        assert names[i..][1..] == names[i + 1..];
        ghost var e := DecElem(Rest());
        if e.Ok? {
          OneRead(fields, Child(names[i], e.value), DecMembers(e.rest, names[i + 1..]));
        }
        var sub;
        ok, sub := ReadElem();
        if !ok {
          return;
        }
        fields := fields + Child(names[i], sub);
        i := i + 1;
      }
      NoMoreRead(fields, Rest());
    }

    /** The loop of read_obj over dynamic members. */
    method ReadFields() returns (ok: bool, fields: seq<Field>)
      requires Valid()
      modifies `pos
      ensures Valid() && old(pos) <= pos && (ok <==> DecFields(old(Rest()), DYNAMIC_OBJ_MAX_PROPERTY).Ok?)
      ensures ok ==> DecFields(old(Rest()), DYNAMIC_OBJ_MAX_PROPERTY) == Ok(fields, Rest())
      decreases |input| - pos, 2
    {
      hide DecElem, DecString, Child;
      ghost var start := Rest();
      ghost var all := DecFields(start, DYNAMIC_OBJ_MAX_PROPERTY);
      ok, fields := true, [];
      NoneRead(all);
      for i := 0 to DYNAMIC_OBJ_MAX_PROPERTY
        invariant Valid() && old(pos) <= pos && ok
        invariant all == Prepend(fields, DecFields(Rest(), DYNAMIC_OBJ_MAX_PROPERTY - i))
      {
        ghost var n := DecString(Rest());
        if n.Ok? && n.value != [] && DecElem(n.rest).Ok? {
          ghost var e := DecElem(n.rest);
          OneRead(fields, Child(n.value, e.value), DecFields(e.rest, DYNAMIC_OBJ_MAX_PROPERTY - i - 1));
        }
        var subname, sub;
        ok, subname := ReadString();
        if !ok {
          return;
        }
        if subname == [] {
          NoMoreRead(fields, Rest());
          return;
        }
        ok, sub := ReadElem();
        if !ok {
          return;
        }
        fields := fields + Child(subname, sub);
      }
      NoMoreRead(fields, Rest());
    }

    /** read_array */
    method ReadArray() returns (ok: bool, v: Value)
      requires Valid()
      modifies `pos
      ensures Valid() && old(pos) <= pos && (ok <==> DecArray(old(Rest())).Ok?)
      ensures ok ==> DecArray(old(Rest())) == Ok(v, Rest())
      decreases |input| - pos, 2
    {
      hide DecInt, DecString, DecElems;
      v := NoObject;
      var head, name, elems;
      ok, head := ReadInt();
      if !ok || head % 2 == 0 {
        return false, v;
      }
      ok, name := ReadString();
      if !ok {
        return;
      }
      ok, elems := ReadElems(head / 2);
      v := Array(elems);
    }

    /** read_obj */
    method ReadObject() returns (ok: bool, v: Value)
      requires Valid()
      modifies `pos
      ensures Valid() && old(pos) <= pos && (ok <==> DecObject(old(Rest())).Ok?)
      ensures ok ==> DecObject(old(Rest())) == Ok(v, Rest())
      decreases |input| - pos, 2
    {
      hide DecInt, DecString, DecNames, DecMembers, DecFields;
      v := NoObject;
      var objref;
      ok, objref := ReadInt();
      if !ok || objref % 2 == 0 || objref / 2 % 2 == 0 {
        return false, v;
      }
      var dynamic, subnum := false, 0;
      if objref / 4 % 2 == 0 {
        dynamic := objref / 8 % 2 != 0;
        subnum := objref / 16;
      }
      var classname, names, fields;
      ok, classname := ReadString();
      if !ok {
        return;
      }
      ok, names := ReadNames(subnum);
      if !ok {
        return;
      }
      ok, fields := ReadMembers(names);
      if !ok {
        return;
      }
      if dynamic {
        var more;
        ok, more := ReadFields();
        fields := fields + more;
      }
      v := Object(fields);
    }

    /** read_elem */
    method ReadElem() returns (ok: bool, v: Value)
      requires Valid()
      modifies `pos
      ensures Valid() && old(pos) <= pos && (ok <==> DecElem(old(Rest())).Ok?)
      ensures ok ==> DecElem(old(Rest())) == Ok(v, Rest())
      decreases |input| - pos, 1
    {
      hide DecInt, DecString, DecArray, DecObject;
      v := NoObject;
      var t;
      ok, t := ReadByte();
      if !ok {
        return;
      }
      match t
      case 0x01 => v := Null;
      case 0x02 => v := Bool(false);
      case 0x03 => v := Bool(true);
      case 0x04 =>
        var i;
        ok, i := ReadInt();
        v := Integer(i);
      case 0x05 =>
        ok := |input| - pos >= 8;
        if ok {
          assert input[pos..][..8] == input[pos..pos + 8] && input[pos..][8..] == input[pos + 8..];
          v := Double(input[pos..pos + 8]);
          pos := pos + 8;
        }
      case 0x06 =>
        var s;
        ok, s := ReadString();
        v := String(s);
      case 0x08 => ok := false;
      case 0x0C => ok := false;
      case 0x09 => ok, v := ReadArray();
      case 0x0A => ok, v := ReadObject();
      case _ =>
    }
  }

  lemma NoneRead<T>(r: Result<seq<T>>)
    ensures Prepend([], r) == r
  {
    if r.Ok? {
      assert [] + r.value == r.value;
    }
  }

  lemma NoMoreRead<T>(acc: seq<T>, rest: Bytes)
    ensures Prepend(acc, Ok([], rest)) == Ok(acc, rest)
  {
    assert acc + [] == acc;
  }

  lemma OneRead<T>(acc: seq<T>, x: seq<T>, r: Result<seq<T>>)
    ensures Prepend(acc, Prepend(x, r)) == Prepend(acc + x, r)
  {
    if r.Ok? {
      assert acc + (x + r.value) == (acc + x) + r.value;
    }
  }

  /** encode to one stream and decode from it. */
  method EncodeThenDecode(v: Value, suffix: Bytes) returns (ok: bool, w: Value)
    requires Encodable(v)
    ensures ok && w == v
  {
    hide EncElem, DecElem, Encodable;
    var writer := new Context([]);
    writer.WriteElem(v);
    var reader := new Context(writer.output + suffix);
    assert reader.input[0..] == EncElem(v) + suffix;
    RoundTrip(v, suffix);
    ok, w := reader.ReadElem();
  }
}

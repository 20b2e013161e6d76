/** Json::Value as a tree, and the order of member names. A char is a byte. */
module JsonValue {
  import opened Common

  const MAX_INT: int := 0x7FFF_FFFF
  const MIN_INT: int := -0x8000_0000
  const MAX_UINT: int := 0xFFFF_FFFF

  /** An array has no holes; the members of an object are in the order of the map that holds them. */
  datatype Value =
    | Null | Bool(b: bool) | Int(i: int) | UInt(u: int)
    | Real(text: string)   // what sscanf makes of this text
    | Str(s: string)       // asCString: up to the first NUL
    | Arr(elems: seq<Value>)
    | Obj(members: seq<Member>)

  datatype Member = Member(name: string, value: Value)

  /** The string as a C string. */
  function CString(s: string): (c: string)
    ensures |c| <= |s|
  {
    UpTo(s, '\0')
  }

  predicate NulFree(s: string) {
    Lacks(s, '\0')
  }

  lemma CStringNulFree(s: string)
    ensures NulFree(CString(s)) && (CString(s) == s <==> NulFree(s))
  {
    UpToExact(s, '\0');
  }

  // ---------- CZString: the order of strcmp ----------

  predicate Less(a: string, b: string) {
    b != "" && (a == "" || a[0] < b[0] || (a[0] == b[0] && Less(a[1..], b[1..])))
  }

  /** strcmp puts two different strings in one order only. */
  lemma {:induction false} LessIsStrict(a: string, b: string)
    ensures !(Less(a, b) && Less(b, a)) && (Less(a, b) || Less(b, a) <==> a != b)
    decreases |a|
  {
    if a != "" && b != "" {
      LessIsStrict(a[1..], b[1..]);
      assert a == [a[0]] + a[1..] && b == [b[0]] + b[1..];
    }
  }

  /** operator[] and assignment: the member gets the value, at the place of its name. */
  function Insert(members: seq<Member>, m: Member): seq<Member> {
    if members == [] then [m]
    else if members[0].name == m.name then [m] + members[1..]
    else if Less(m.name, members[0].name) then [m] + members
    else [members[0]] + Insert(members[1..], m)
  }

  predicate Sorted(members: seq<Member>) {
    forall i, j :: 0 <= i < j < |members| ==> Less(members[i].name, members[j].name)
  }

  /** A name greater than all others goes to the end. */
  lemma {:induction false} InsertLast(members: seq<Member>, m: Member)
    requires forall i :: 0 <= i < |members| ==> Less(members[i].name, m.name)
    ensures Insert(members, m) == members + [m]
  {
    if members != [] {
      LessIsStrict(members[0].name, m.name);
      InsertLast(members[1..], m);
    }
  }

  // ---------- Values the C++ types can hold ----------

  /** Integers fit, strings are C strings, member names are C strings in the order of the map; no reals. */
  predicate Writable(v: Value) {
    match v
    case Null => true
    case Bool(_) => true
    case Int(i) => MIN_INT <= i <= MAX_INT
    case UInt(u) => 0 <= u <= MAX_UINT
    case Real(_) => false
    case Str(s) => NulFree(s)
    case Arr(elems) => forall i :: 0 <= i < |elems| ==> Writable(elems[i])
    case Obj(members) =>
      Sorted(members) && forall i :: 0 <= i < |members| ==> NulFree(members[i].name) && Writable(members[i].value)
  }
}

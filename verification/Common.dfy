/** What the modules share. */
module Common {
  datatype Option<+T> = None | Some(value: T)

  ghost predicate Distinct<T>(l: seq<T>) {
    forall i, j :: 0 <= i < j < |l| ==> l[i] != l[j]
  }

  // ---------- C strings ----------

  /** What stands before the first end. */
  function UpTo<T(==)>(s: seq<T>, end: T): (c: seq<T>)
    ensures |c| <= |s|
  {
    if s == [] || s[0] == end then [] else [s[0]] + UpTo(s[1..], end)
  }

  predicate Lacks<T(==)>(s: seq<T>, end: T) {
    forall i :: 0 <= i < |s| ==> s[i] != end
  }

  /** It is the part before the first end, and all of it if there is none. */
  lemma {:induction false} UpToExact<T>(s: seq<T>, end: T)
    ensures Lacks(UpTo(s, end), end) && (UpTo(s, end) == s <==> Lacks(s, end))
    ensures UpTo(s, end) <= s && (|UpTo(s, end)| < |s| ==> s[|UpTo(s, end)|] == end)
  {
    if s != [] && s[0] != end {
      UpToExact(s[1..], end);
      assert s == [s[0]] + s[1..];
    }
  }

  // ---------- Hexadecimal ----------

  function HexDigit(n: nat): char
    requires n < 16
  {
    if n < 10 then ('0' as int + n) as char else ('a' as int + (n - 10)) as char
  }

  /** sprintf( "%02x" ) */
  function HexByte(b: bv8): string {
    var n := b as nat;
    [HexDigit(n / 16), HexDigit(n % 16)]
  }

  function Hex(x: seq<bv8>): (s: string)
    ensures |s| == 2 * |x|
  {
    if x == [] then "" else Hex(x[..|x| - 1]) + HexByte(x[|x| - 1])
  }

  const DIGITS: string := "0123456789abcdef"

  /** Two digits for each byte, the high one first, in lower case. */
  lemma {:induction false} HexAt(x: seq<bv8>, i: nat)
    requires i < |x|
    ensures Hex(x)[2 * i] == DIGITS[x[i] as nat / 16] && Hex(x)[2 * i + 1] == DIGITS[x[i] as nat % 16]
    decreases |x|
  {
    hide HexDigit;
    var k := |x| - 1;
    if i < k {
      HexAt(x[..k], i);
    } else {
      DigitIs(x[i] as nat / 16);
      DigitIs(x[i] as nat % 16);
    }
  }

  lemma DigitIs(n: nat)
    requires n < 16
    ensures HexDigit(n) == DIGITS[n]
  {
  }

  /** sprintf( "%02x" ) of every byte. */
  method PrintHex(x: seq<bv8>) returns (s: string)
    ensures s == Hex(x)
  {
    hide HexByte;
    s := "";
    for i := 0 to |x|
      invariant s == Hex(x[..i])
    {
      assert x[..i + 1][..i] == x[..i];
      s := s + HexByte(x[i]);
    }
    assert x[..|x|] == x;
  }
}

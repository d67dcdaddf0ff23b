/**
 * Bytes and the C-locale <cctype> predicates the analyzer relies on
 * (islower, isupper, isdigit, isalnum, isspace, tolower). In the "C" locale
 * only ASCII letters, digits and the six ASCII white-space bytes are
 * classified; every byte >= 128 is none of these and tolower leaves it alone.
 */
module CType {

  /** One element of a std::string, read as an unsigned char. */
  type Byte = x: int | 0 <= x < 256

  predicate IsLower(b: Byte) { 'a' as int <= b <= 'z' as int }
  predicate IsUpper(b: Byte) { 'A' as int <= b <= 'Z' as int }
  predicate IsDigit(b: Byte) { '0' as int <= b <= '9' as int }
  predicate IsAlnum(b: Byte) { IsLower(b) || IsUpper(b) || IsDigit(b) }

  /** space, \t, \n, \v, \f, \r */
  predicate IsSpace(b: Byte) { b == ' ' as int || '\t' as int <= b <= '\r' as int }

  predicate IsAscii(s: string) { forall i :: 0 <= i < |s| ==> s[i] as int < 128 }

  /** The bytes of an ASCII string literal, as the compiler stores it. */
  function Bytes(s: string): (r: seq<Byte>)
    requires IsAscii(s)
    ensures |r| == |s| && forall i :: 0 <= i < |s| ==> r[i] == s[i] as int
  {
    seq(|s|, i requires 0 <= i < |s| => s[i] as int)
  }

  /** tolower in the "C" locale: it maps exactly the upper-case letters, and keeps every class but that one. */
  function ToLower(b: Byte): (r: Byte)
    ensures !IsUpper(r)
    ensures IsUpper(b) <==> r != b
    ensures IsAlnum(r) == IsAlnum(b) && IsDigit(r) == IsDigit(b) && IsSpace(r) == IsSpace(b)
    ensures IsLower(r) <==> IsLower(b) || IsUpper(b)
  {
    if IsUpper(b) then b + 32 else b
  }

  /** The byte-wise ASCII lower-case image of a string. */
  function Lowered(s: seq<Byte>): seq<Byte>
  {
    seq(|s|, i requires 0 <= i < |s| => ToLower(s[i]))
  }

  predicate NoUpper(s: seq<Byte>) { forall i :: 0 <= i < |s| ==> !IsUpper(s[i]) }

  /**
   * Copies a string and lower-cases the copy in place, byte by byte, as the
   * lambda `tolow` of contains_case_insensitive and the `pw_lower` loop of
   * analyze_password do.
   */
  method LowerCopy(x: seq<Byte>) returns (r: seq<Byte>)
    ensures |r| == |x|
    ensures NoUpper(r)
    ensures forall i :: 0 <= i < |x| && !IsUpper(x[i]) ==> r[i] == x[i]
    ensures r == Lowered(x)
  {
    var a := new Byte[|x|](i requires 0 <= i < |x| => x[i]);
    for k := 0 to a.Length
      invariant forall i :: 0 <= i < k ==> a[i] == ToLower(x[i])
      invariant forall i :: k <= i < a.Length ==> a[i] == x[i]
    {
      a[k] := ToLower(a[k]);
    }
    r := a[..];
  }

  /** Lower-casing twice is lower-casing once: a lower-cased string is its own image. */
  lemma LoweredIdempotent(s: seq<Byte>)
    ensures Lowered(Lowered(s)) == Lowered(s)
  {
  }

  /** Lower-casing commutes with cutting a string into pieces. */
  lemma LoweredAppend(a: seq<Byte>, b: seq<Byte>)
    ensures Lowered(a + b) == Lowered(a) + Lowered(b)
  {
  }

  /**
   * The C-locale classes: alphanumeric is exactly lower, upper or digit;
   * the three are disjoint; white space is never alphanumeric; and no byte
   * from 128 up is in any of these classes.
   */
  lemma CLocaleClasses(b: Byte)
    ensures IsAlnum(b) <==> IsLower(b) || IsUpper(b) || IsDigit(b)
    ensures !(IsLower(b) && IsUpper(b)) && !(IsLower(b) && IsDigit(b)) && !(IsUpper(b) && IsDigit(b))
    ensures IsSpace(b) ==> !IsAlnum(b)
    ensures 128 <= b ==> !IsAlnum(b) && !IsSpace(b)
  {
  }
}

/**
 * The character classifier: every byte of a password falls into exactly one
 * of four classes, tested in the order lower-case, upper-case, digit, and
 * otherwise symbol. The classes present decide the size of the brute-force
 * alphabet ("pool") of the pool-based entropy estimate.
 */
module Classifier {
  import opened CType

  datatype CharClass = Lower | Upper | Digit | Symbol

  /** is_symbol: a byte that is not ASCII alphanumeric (white space and non-ASCII bytes included). */
  predicate IsSymbol(b: Byte) { !IsAlnum(b) }

  /** A symbol is what the lower, upper and digit tests all reject: white space and every byte from 128 up. */
  lemma SymbolRule(b: Byte)
    ensures IsSymbol(b) <==> !IsLower(b) && !IsUpper(b) && !IsDigit(b)
    ensures IsSpace(b) ==> IsSymbol(b)
    ensures 128 <= b ==> IsSymbol(b)
  {
    CLocaleClasses(b);
  }

  /**
   * The class of one byte. The tests run in a fixed order, but since the
   * ctype classes are disjoint the result is the one class whose predicate
   * holds; the symbol class is exactly the is_symbol rule.
   */
  function ClassOf(b: Byte): (k: CharClass)
    ensures k == Lower <==> IsLower(b)
    ensures k == Upper <==> IsUpper(b)
    ensures k == Digit <==> IsDigit(b)
    ensures k == Symbol <==> IsSymbol(b)
  {
    if IsLower(b) then Lower
    else if IsUpper(b) then Upper
    else if IsDigit(b) then Digit
    else Symbol
  }

  ghost predicate HasClass(s: seq<Byte>, k: CharClass)
  {
    exists i :: 0 <= i < |s| && ClassOf(s[i]) == k
  }

  /** Number of symbol bytes in s. */
  function SymbolCount(s: seq<Byte>): (c: nat)
    ensures c <= |s|
    ensures c > 0 <==> HasClass(s, Symbol)
  {
    if s == [] then 0
    else
      var init := s[..|s| - 1];
      assert HasClass(s, Symbol) <==> HasClass(init, Symbol) || IsSymbol(s[|s| - 1]) by {
        if HasClass(s, Symbol) && !IsSymbol(s[|s| - 1]) {
          var i :| 0 <= i < |s| && ClassOf(s[i]) == Symbol;
          assert i < |init| && init[i] == s[i];
        }
        if HasClass(init, Symbol) {
          var i :| 0 <= i < |init| && ClassOf(init[i]) == Symbol;
          assert s[i] == init[i];
        }
      }
      SymbolCount(init) + (if IsSymbol(s[|s| - 1]) then 1 else 0)
  }

  /** The flags and counter the classification loop leaves behind. */
  datatype Classes = Classes(lower: bool, upper: bool, digit: bool, symbol: bool, symbolCount: nat)

  /**
   * The classification loop of pool_based_entropy_bits: one pass that
   * raises the flag of each byte's class and counts symbols. The loop of
   * analyze_password is the same pass without the symbol counter; the
   * counter is never used by either.
   */
  method Classify(s: seq<Byte>) returns (c: Classes)
    ensures c.lower == HasClass(s, Lower)
    ensures c.upper == HasClass(s, Upper)
    ensures c.digit == HasClass(s, Digit)
    ensures c.symbol == HasClass(s, Symbol)
    ensures c.symbolCount == SymbolCount(s)
  {
    var lower, upper, digit, symbol := false, false, false, false;
    var symbolCount := 0;
    for k := 0 to |s|
      invariant lower == HasClass(s[..k], Lower)
      invariant upper == HasClass(s[..k], Upper)
      invariant digit == HasClass(s[..k], Digit)
      invariant symbol == HasClass(s[..k], Symbol)
      invariant symbolCount == SymbolCount(s[..k])
    {
      var b := s[k];
      assert s[..k + 1][..k] == s[..k];
      HasClassExtend(s[..k], b);
      assert s[..k + 1] == s[..k] + [b];
      if IsLower(b) {
        lower := true;
      } else if IsUpper(b) {
        upper := true;
      } else if IsDigit(b) {
        digit := true;
      } else {
        symbol := true;
        symbolCount := symbolCount + 1;
      }
    }
    assert s[..|s|] == s;
    c := Classes(lower, upper, digit, symbol, symbolCount);
  }

  /** A class is present after appending a byte iff it was present before or the byte has it. */
  lemma HasClassExtend(s: seq<Byte>, b: Byte)
    ensures forall k :: HasClass(s + [b], k) <==> HasClass(s, k) || ClassOf(b) == k
  {
    forall k ensures HasClass(s + [b], k) <==> HasClass(s, k) || ClassOf(b) == k {
      if HasClass(s, k) {
        var i :| 0 <= i < |s| && ClassOf(s[i]) == k;
        assert (s + [b])[i] == s[i];
      }
      if ClassOf(b) == k {
        assert (s + [b])[|s|] == b;
      }
    }
  }

  /** Number of classes present, as the `classes` sum of analyze_password. */
  function ClassCount(c: Classes): (n: nat)
    ensures n <= 4
    ensures n == 0 <==> !c.lower && !c.upper && !c.digit && !c.symbol
  {
    (if c.lower then 1 else 0) + (if c.upper then 1 else 0)
    + (if c.digit then 1 else 0) + (if c.symbol then 1 else 0)
  }

  /** Alphabet size credited to the classes present: 26, 26, 10 and 32, and 1 when none is. */
  function Pool(c: Classes): (p: nat)
    ensures 1 <= p <= 94
    ensures p == 1 <==> ClassCount(c) == 0
  {
    var raw := (if c.lower then 26 else 0) + (if c.upper then 26 else 0)
               + (if c.digit then 10 else 0) + (if c.symbol then 32 else 0);
    if raw <= 0 then 1 else raw
  }

  /** The classes present in s. */
  ghost function ClassesOf(s: seq<Byte>): Classes
  {
    Classes(HasClass(s, Lower), HasClass(s, Upper), HasClass(s, Digit), HasClass(s, Symbol), SymbolCount(s))
  }

  /** The pool size of a password. */
  ghost function PoolSize(s: seq<Byte>): nat
  {
    Pool(ClassesOf(s))
  }

  /** Every non-empty string has a class, so the floor of 1 is reached by the empty string alone. */
  lemma PoolSizeRange(s: seq<Byte>)
    ensures 1 <= PoolSize(s) <= 94
    ensures PoolSize(s) == 1 <==> s == []
    ensures ClassCount(ClassesOf(s)) == 0 <==> s == []
  {
    if s != [] {
      assert HasClass(s, ClassOf(s[0]));
    }
  }

  /** A password of lower-case letters only draws from the 26-letter pool, whatever its length. */
  lemma LowerOnlyPool(s: seq<Byte>)
    requires s != []
    requires forall i :: 0 <= i < |s| ==> IsLower(s[i])
    ensures ClassCount(ClassesOf(s)) == 1
    ensures PoolSize(s) == 26
  {
    assert ClassOf(s[0]) == Lower;
  }
}

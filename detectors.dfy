/**
 * The pattern detectors: monotone byte sequences, runs of one repeated byte,
 * and case-insensitive substring search. Each scan is a method with the
 * loops of the analyzer, proved equal to a declarative "some window exists"
 * predicate.
 */
module Detectors {
  import opened Wrappers
  import opened CType

  // ---------------------------------------------------------------- sequences

  /** Byte k is one more than byte k-1, in unsigned 8-bit arithmetic (so 255 is followed by 0). */
  predicate StepUp(s: seq<Byte>, k: nat)
    requires 0 < k < |s|
  {
    s[k] == (s[k - 1] as int + 1) % 256
  }

  /** Byte k is one less than byte k-1, in unsigned 8-bit arithmetic (so 0 is followed by 255). */
  predicate StepDown(s: seq<Byte>, k: nat)
    requires 0 < k < |s|
  {
    s[k] == (s[k - 1] as int - 1) % 256
  }

  ghost predicate Ascending(s: seq<Byte>, i: nat, n: nat)
    requires i + n <= |s|
  {
    forall k :: i < k < i + n ==> StepUp(s, k)
  }

  ghost predicate Descending(s: seq<Byte>, i: nat, n: nat)
    requires i + n <= |s|
  {
    forall k :: i < k < i + n ==> StepDown(s, k)
  }

  /** Some window of n bytes climbs by one at every step, or falls by one at every step. */
  ghost predicate ContainsSequence(s: seq<Byte>, n: nat)
  {
    exists i: nat :: i + n <= |s| && (Ascending(s, i, n) || Descending(s, i, n))
  }

  /**
   * has_sequence: for each window from the left, track whether every step so
   * far went up (inc) and whether every step went down (dec); report the
   * first window where either survives.
   */
  method HasSequence(s: seq<Byte>, n: nat) returns (found: bool)
    ensures found == ContainsSequence(s, n)
    ensures |s| < n ==> !found
  {
    if |s| < n {
      return false;
    }
    var i := 0;
    while i + n <= |s|
      invariant i <= |s| - n + 1
      invariant forall w: nat :: w < i ==> !Ascending(s, w, n) && !Descending(s, w, n)
    {
      var inc, dec := true, true;
      var j := 1;
      while j < n
        invariant 1 <= j && (1 <= n ==> j <= n)
        invariant inc == forall k :: i < k < i + j && k < i + n ==> StepUp(s, k)
        invariant dec == forall k :: i < k < i + j && k < i + n ==> StepDown(s, k)
      {
        assert StepUp(s, i + j) == (s[i + j] == (s[i + j - 1] as int + 1) % 256);
        assert StepDown(s, i + j) == (s[i + j] == (s[i + j - 1] as int - 1) % 256);
        if s[i + j] != (s[i + j - 1] as int + 1) % 256 {
          inc := false;
        }
        if s[i + j] != (s[i + j - 1] as int - 1) % 256 {
          dec := false;
        }
        j := j + 1;
      }
      if inc || dec {
        assert Ascending(s, i, n) || Descending(s, i, n);
        return true;
      }
      i := i + 1;
    }
    return false;
  }

  /** A sequence of n bytes contains one of every shorter length. */
  lemma SequenceShorter(s: seq<Byte>, n: nat, m: nat)
    requires m <= n && ContainsSequence(s, n)
    ensures ContainsSequence(s, m)
  {
    var i: nat :| i + n <= |s| && (Ascending(s, i, n) || Descending(s, i, n));
    assert Ascending(s, i, m) || Descending(s, i, m);
  }

  /** Surrounding text never hides a sequence. */
  lemma SequenceInContext(p: seq<Byte>, s: seq<Byte>, q: seq<Byte>, n: nat)
    requires ContainsSequence(s, n)
    ensures ContainsSequence(p + s + q, n)
  {
    var t := p + s + q;
    var i: nat :| i + n <= |s| && (Ascending(s, i, n) || Descending(s, i, n));
    var w := |p| + i;
    forall k | w < k < w + n
      ensures StepUp(t, k) == StepUp(s, k - |p|) && StepDown(t, k) == StepDown(s, k - |p|)
    {
      assert t[k] == s[k - |p|] && t[k - 1] == s[k - 1 - |p|];
    }
    assert Ascending(t, w, n) || Descending(t, w, n);
  }

  /** "xx1234yy" holds an ascending run of four. */
  lemma AscendingExample()
    ensures ContainsSequence(Bytes("xx1234yy"), 4)
  {
    var a := Bytes("xx1234yy");
    assert a[2] == 49 && a[3] == 50 && a[4] == 51 && a[5] == 52;
    assert Ascending(a, 2, 4);
  }

  /** "9876" is a descending run of four. */
  lemma DescendingExample()
    ensures ContainsSequence(Bytes("9876"), 4)
  {
    assert Descending(Bytes("9876"), 0, 4);
  }

  /** "1243" is neither: the step from '2' to '4' breaks the climb, the step from '1' to '2' the fall. */
  lemma NotASequenceExample()
    ensures !ContainsSequence(Bytes("1243"), 4)
  {
    var e := Bytes("1243");
    assert !StepUp(e, 2) && !StepDown(e, 1);
  }

  /** The 8-bit wrap-around counts: bytes 254, 255, 0, 1 form an ascending run. */
  lemma SequenceWrapsAround()
    ensures ContainsSequence([254, 255, 0, 1], 4)
    ensures ContainsSequence([1, 0, 255, 254], 4)
  {
    assert Ascending([254, 255, 0, 1], 0, 4);
    assert Descending([1, 0, 255, 254], 0, 4);
  }

  // ---------------------------------------------------------------- repeats

  /** The n bytes from position i are all the same byte. */
  ghost predicate Uniform(s: seq<Byte>, i: nat, n: nat)
    requires i + n <= |s|
  {
    forall k :: i <= k < i + n ==> s[k] == s[i]
  }

  ghost predicate ContainsRun(s: seq<Byte>, n: nat)
  {
    exists i: nat :: i + n <= |s| && Uniform(s, i, n)
  }

  /**
   * has_repeated_chars: for each window from the left, compare neighbours
   * and give up on the window at the first difference; report the first
   * window whose neighbours are all equal.
   */
  method HasRepeatedChars(s: seq<Byte>, n: nat) returns (found: bool)
    ensures found == ContainsRun(s, n)
    ensures |s| < n ==> !found
  {
    if |s| < n {
      return false;
    }
    var i := 0;
    while i + n <= |s|
      invariant i <= |s| - n + 1
      invariant forall w: nat :: w < i ==> !Uniform(s, w, n)
    {
      var same := true;
      var j := 1;
      while j < n
        invariant 1 <= j && (1 <= n ==> j <= n)
        invariant same ==> forall k :: i <= k < i + j && k < i + n ==> s[k] == s[i]
        invariant Uniform(s, i, n) ==> same
      {
        if s[i + j] != s[i + j - 1] {
          same := false;
          break;
        }
        j := j + 1;
      }
      if same {
        assert Uniform(s, i, n);
        return true;
      }
      i := i + 1;
    }
    return false;
  }

  /** A run of n equal bytes contains a run of every shorter length. */
  lemma RunShorter(s: seq<Byte>, n: nat, m: nat)
    requires m <= n && ContainsRun(s, n)
    ensures ContainsRun(s, m)
  {
    var i: nat :| i + n <= |s| && Uniform(s, i, n);
    assert Uniform(s, i, m);
  }

  /** Four equal bytes are a run of four; no window of "aaab1" is. */
  lemma RunExamples()
    ensures ContainsRun(Bytes("aaaa1"), 4)
    ensures !ContainsRun(Bytes("aaab1"), 4)
  {
    var a := Bytes("aaaa1");
    assert Uniform(a, 0, 4);
    var b := Bytes("aaab1");
    forall i: nat | i + 4 <= |b| ensures !Uniform(b, i, 4) {
      assert b[3] != b[i];
    }
  }

  /** A window of equal bytes is never a sequence window: x + 1 and x - 1 differ from x modulo 256. */
  lemma RunIsNotSequence(s: seq<Byte>, i: nat, n: nat)
    requires 2 <= n && i + n <= |s| && Uniform(s, i, n)
    ensures !Ascending(s, i, n) && !Descending(s, i, n)
  {
    assert s[i + 1] == s[i];
    assert !StepUp(s, i + 1) && !StepDown(s, i + 1);
  }

  // ---------------------------------------------------------------- substrings

  /** p occurs in t starting at position i. */
  predicate OccursAt(p: seq<Byte>, t: seq<Byte>, i: nat)
  {
    i + |p| <= |t| && t[i..i + |p|] == p
  }

  /** p occurs contiguously in t. */
  ghost predicate Occurs(p: seq<Byte>, t: seq<Byte>)
  {
    exists i: nat :: OccursAt(p, t, i)
  }

  /** std::string::find: the first position at or after `from` where p occurs in t. */
  function Find(t: seq<Byte>, p: seq<Byte>, from: nat): (r: Option<nat>)
    ensures r.Some? ==> from <= r.value && OccursAt(p, t, r.value)
    ensures r.Some? ==> forall j: nat :: from <= j < r.value ==> !OccursAt(p, t, j)
    ensures r.None? ==> forall j: nat :: from <= j ==> !OccursAt(p, t, j)
    decreases |t| - from
  {
    if from + |p| > |t| then None
    else if OccursAt(p, t, from) then Some(from)
    else Find(t, p, from + 1)
  }

  /** contains_case_insensitive: lower-case copies of both strings, then a substring search. */
  method ContainsCaseInsensitive(str: seq<Byte>, sub: seq<Byte>) returns (found: bool)
    ensures found == Occurs(Lowered(sub), Lowered(str))
  {
    var a := LowerCopy(str);
    var b := LowerCopy(sub);
    found := Find(a, b, 0).Some?;
  }

  /** Whatever contains p + q contains p. */
  lemma OccursPrefix(p: seq<Byte>, q: seq<Byte>, t: seq<Byte>)
    requires Occurs(p + q, t)
    ensures Occurs(p, t)
  {
    var i: nat :| OccursAt(p + q, t, i);
    assert t[i..i + |p|] == (p + q)[..|p|] == p;
    assert OccursAt(p, t, i);
  }

  /** The search ignores case on both sides: any other casing of either string gives the same answer. */
  lemma CaseInsensitiveMatch(str: seq<Byte>, sub: seq<Byte>, str2: seq<Byte>, sub2: seq<Byte>)
    requires Lowered(str2) == Lowered(str) && Lowered(sub2) == Lowered(sub)
    ensures Occurs(Lowered(sub), Lowered(str)) == Occurs(Lowered(sub2), Lowered(str2))
    ensures Occurs(Lowered(sub), Lowered(str)) == Occurs(Lowered(Lowered(sub)), Lowered(Lowered(str)))
  {
    LoweredIdempotent(sub);
    LoweredIdempotent(str);
  }

  /** An occurrence of sub in any case inside str is found: "PassWord123" contains "password". */
  lemma OccursIgnoringCase(pre: seq<Byte>, mid: seq<Byte>, post: seq<Byte>, sub: seq<Byte>)
    requires Lowered(mid) == Lowered(sub)
    ensures Occurs(Lowered(sub), Lowered(pre + mid + post))
  {
    var t := Lowered(pre + mid + post);
    LoweredAppend(pre + mid, post);
    LoweredAppend(pre, mid);
    assert t[|pre|..|pre| + |mid|] == Lowered(mid);
    assert OccursAt(Lowered(sub), t, |pre|);
  }
}

/**
 * The scoring engine, analyze_password: short-circuits for the empty
 * password and for a common-list hit, then an entropy-based score with a
 * length bonus capped at 95, penalties applied in a fixed order (each one
 * appending its reason), a clamp to [0, 100], rounding, and a fallback
 * reason when nothing was wrong.
 *
 * Analysis is the reference definition, stated with the declarative
 * detector predicates; AnalyzePassword follows the analyzer's statements
 * and is proved equal to it. The lemmas state what the result promises.
 */
module Scoring {
  import opened Wrappers
  import opened CType
  import opened Classifier
  import opened Entropy
  import opened Detectors

  datatype AnalysisResult = AnalysisResult(score: int, entropyBits: real, shannonBits: real, reasons: seq<string>)

  // The reasons, verbatim (each starts with a space).
  const EmptyReason := " Empty password"
  const CommonListReason := " Password is in common-password list"
  const SequenceReason := " Contains increasing/decreasing sequence (e.g. 'abcd' or '1234')"
  const RepeatReason := " Contains long repeated characters (e.g 'aaaaa')"
  const ShortReason := " Short password (less than 8 characters)"
  const AdvisoryReason := " Consider using a longer passphrase (12+ characters recommended)"
  const OneClassReason := " Uses only character class (add uppercase, digits, or symbols)"
  const NoWeaknessReason := " No obvious weaknesses detected"

  function SubstringReason(sub: string): string
  {
    " Contains a common substring: '" + sub + "'"
  }

  /** Window of the sequence detector and run length of the repeat detector. */
  const SequenceWindow: nat := 4
  const RunLength: nat := 4

  /** The built-in weak substrings, searched in this order. */
  const CommonSubstrings: seq<string> := ["password", "qwerty", "admin", "welcome", "12345", "iloveyou", "123456789"]

  /** The bytes of the k-th common substring. */
  function SubstringBytes(k: nat): seq<Byte>
    requires k < |CommonSubstrings|
  {
    Bytes(CommonSubstrings[k])
  }

  /** The k-th common substring occurs in pw, ignoring ASCII case. */
  ghost predicate MatchesSubstring(pw: seq<Byte>, k: nat)
    requires k < |CommonSubstrings|
  {
    Occurs(Lowered(SubstringBytes(k)), Lowered(pw))
  }

  /** Index of the first common substring, from position k of the list on, that occurs in pw. */
  ghost function FirstMatchFrom(pw: seq<Byte>, k: nat): (r: Option<nat>)
    requires k <= |CommonSubstrings|
    ensures r.Some? ==> k <= r.value < |CommonSubstrings| && MatchesSubstring(pw, r.value)
    ensures r.Some? ==> forall m :: k <= m < r.value ==> !MatchesSubstring(pw, m)
    ensures r.None? ==> forall m :: k <= m < |CommonSubstrings| ==> !MatchesSubstring(pw, m)
    decreases |CommonSubstrings| - k
  {
    if k == |CommonSubstrings| then None
    else if MatchesSubstring(pw, k) then Some(k)
    else FirstMatchFrom(pw, k + 1)
  }

  ghost function FirstMatch(pw: seq<Byte>): Option<nat>
  {
    FirstMatchFrom(pw, 0)
  }

  // ---------------------------------------------------------------- score arithmetic

  /** std::min on doubles: the first argument unless the second is smaller. */
  function Min(a: real, b: real): (m: real)
    ensures m <= a && m <= b && (m == a || m == b)
  {
    if b < a then b else a
  }

  /** 80 points at 60 bits of pool entropy, linear below. */
  function BaseScore(bits: real): (b: real)
    ensures b <= 80.0
    ensures 0.0 <= bits ==> 0.0 <= b
    ensures bits <= 60.0 ==> b == bits * 4.0 / 3.0
  {
    Min(80.0, bits / 60.0 * 80.0)
  }

  /** 1.5 points per character beyond 8, at most 15. */
  function LengthBonus(len: nat): (b: real)
    ensures 0.0 <= b <= 15.0
    ensures len <= 8 ==> b == 0.0
    ensures len >= 18 ==> b == 15.0
  {
    Min(15.0, if len > 8 then (len - 8) as real * 1.5 else 0.0)
  }

  /** Base plus bonus, capped at 95 before any penalty. */
  function PreScore(len: nat, bits: real): (s: real)
    ensures s <= 95.0
    ensures 0.0 <= bits ==> 0.0 <= s
  {
    var score := BaseScore(bits) + LengthBonus(len);
    if score > 95.0 then 95.0 else score
  }

  /** The short-password penalty: 6 points per missing character below 8. */
  function ShortPenalty(len: nat): (p: nat)
    ensures len >= 8 <==> p == 0
    ensures p <= 48
  {
    if len < 8 then (8 - len) * 6 else 0
  }

  // The five penalty steps, in the order they are tried; each gives the
  // points it takes away and the reasons it appends.

  ghost function SequencePenalty(pw: seq<Byte>): real { if ContainsSequence(pw, SequenceWindow) then 15.0 else 0.0 }
  ghost function SequenceReasons(pw: seq<Byte>): seq<string> { if ContainsSequence(pw, SequenceWindow) then [SequenceReason] else [] }

  ghost function RepeatPenalty(pw: seq<Byte>): real { if ContainsRun(pw, RunLength) then 15.0 else 0.0 }
  ghost function RepeatReasons(pw: seq<Byte>): seq<string> { if ContainsRun(pw, RunLength) then [RepeatReason] else [] }

  ghost function SubstringPenalty(pw: seq<Byte>): real { if FirstMatch(pw).Some? then 20.0 else 0.0 }
  ghost function SubstringReasons(pw: seq<Byte>): seq<string>
  {
    match FirstMatch(pw)
    case Some(k) => [SubstringReason(CommonSubstrings[k])]
    case None => []
  }

  function LengthReasons(len: nat): seq<string>
  {
    if len < 8 then [ShortReason] else if len < 12 then [AdvisoryReason] else []
  }

  ghost function ClassPenalty(pw: seq<Byte>): real { if ClassCount(ClassesOf(pw)) <= 1 then 25.0 else 0.0 }
  ghost function ClassReasons(pw: seq<Byte>): seq<string> { if ClassCount(ClassesOf(pw)) <= 1 then [OneClassReason] else [] }

  /** The sum of the penalties a password triggers. */
  ghost function Penalty(pw: seq<Byte>): real
  {
    SequencePenalty(pw) + RepeatPenalty(pw) + SubstringPenalty(pw) + ShortPenalty(|pw|) as real + ClassPenalty(pw)
  }

  function Clamp(x: real): (c: real)
    ensures 0.0 <= c <= 100.0
    ensures 0.0 <= x <= 100.0 ==> c == x
  {
    if x < 0.0 then 0.0 else if x > 100.0 then 100.0 else x
  }

  /** std::round: to the nearest integer, halves away from zero. */
  function Round(x: real): (r: int)
    ensures x - 0.5 <= r as real <= x + 0.5
    ensures r as real == x + 0.5 ==> 0.0 <= x
    ensures r as real == x - 0.5 ==> x < 0.0
  {
    if x >= 0.0 then (x + 0.5).Floor else -((-x + 0.5).Floor)
  }

  /** Rounding never leaves an interval with integer ends. */
  lemma RoundWithin(x: real, lo: int, hi: int)
    requires lo as real <= x <= hi as real
    ensures lo <= Round(x) <= hi
  {
  }

  // ---------------------------------------------------------------- the reference analysis

  /** The reasons of the penalty stage, in the order the penalties are tried. */
  ghost function PenaltyReasons(pw: seq<Byte>): seq<string>
  {
    SequenceReasons(pw) + RepeatReasons(pw) + SubstringReasons(pw) + LengthReasons(|pw|) + ClassReasons(pw)
  }

  ghost predicate IsCommon(pw: seq<Byte>, common: set<seq<Byte>>)
  {
    |common| > 0 && Lowered(pw) in common
  }

  /** The reasons an analysis gives: a short-circuit reason, or the penalty reasons with the fallback when there are none. */
  ghost function AnalysisReasons(pw: seq<Byte>, common: set<seq<Byte>>): seq<string>
  {
    if pw == [] then [EmptyReason]
    else if IsCommon(pw, common) then [CommonListReason]
    else if PenaltyReasons(pw) == [] then [NoWeaknessReason]
    else PenaltyReasons(pw)
  }

  /** The score of an analysis: fixed for the short-circuits, else the clamped and rounded penalised score. */
  ghost function AnalysisScore(pw: seq<Byte>, common: set<seq<Byte>>, log2: real -> real): int
  {
    if pw == [] then 0
    else if IsCommon(pw, common) then 5
    else Round(Clamp(PreScore(|pw|, PoolBits(pw, log2)) - Penalty(pw)))
  }

  /** What analyzing pw against the common set must produce. */
  ghost function Analysis(pw: seq<Byte>, common: set<seq<Byte>>, log2: real -> real): AnalysisResult
  {
    if pw == [] then AnalysisResult(0, 0.0, 0.0, [EmptyReason])
    else AnalysisResult(AnalysisScore(pw, common, log2), PoolBits(pw, log2), ShannonBits(pw, log2), AnalysisReasons(pw, common))
  }

  // ---------------------------------------------------------------- the analyzer

  /**
   * The common-substring loop of analyze_password: try the list in order
   * and stop at the first entry found, ignoring case, in the password.
   */
  method FirstCommonSubstring(pw: seq<Byte>) returns (matched: Option<nat>)
    ensures matched == FirstMatch(pw)
  {
    matched := None;
    var k := 0;
    while k < |CommonSubstrings|
      invariant k <= |CommonSubstrings|
      invariant forall m :: 0 <= m < k ==> !MatchesSubstring(pw, m)
    {
      var hit := ContainsCaseInsensitive(pw, SubstringBytes(k));
      if hit {
        matched := Some(k);
        break;
      }
      k := k + 1;
    }
  }

  /**
   * The penalty steps of analyze_password, in their order: sequence,
   * repeated run, common substring, length, single class. Each one that
   * fires lowers the running score and appends its reason.
   */
  method ApplyPenalties(pw: seq<Byte>, preScore: real) returns (score: real, reasons: seq<string>)
    ensures score == preScore - Penalty(pw)
    ensures reasons == PenaltyReasons(pw)
    ensures score <= preScore
  {
    score := preScore;
    reasons := [];

    var sequence := HasSequence(pw, SequenceWindow);
    if sequence {
      score := score - 15.0;
      reasons := reasons + [SequenceReason];
    }
    assert score == preScore - SequencePenalty(pw) && reasons == SequenceReasons(pw);

    var repeated := HasRepeatedChars(pw, RunLength);
    if repeated {
      score := score - 15.0;
      reasons := reasons + [RepeatReason];
    }
    ghost var penalty := SequencePenalty(pw) + RepeatPenalty(pw);
    assert score == preScore - penalty && reasons == SequenceReasons(pw) + RepeatReasons(pw);

    var matched := FirstCommonSubstring(pw);
    if matched.Some? {
      score := score - 20.0;
      reasons := reasons + [SubstringReason(CommonSubstrings[matched.value])];
    }
    penalty := penalty + SubstringPenalty(pw);
    assert score == preScore - penalty;
    assert reasons == SequenceReasons(pw) + RepeatReasons(pw) + SubstringReasons(pw);

    if |pw| < 8 {
      score := score - ((8 - |pw|) * 6) as real;
      reasons := reasons + [ShortReason];
    } else if |pw| < 12 {
      reasons := reasons + [AdvisoryReason];
    }
    penalty := penalty + ShortPenalty(|pw|) as real;
    assert score == preScore - penalty;
    assert reasons == SequenceReasons(pw) + RepeatReasons(pw) + SubstringReasons(pw) + LengthReasons(|pw|);

    var c := Classify(pw);
    var classes := ClassCount(c);
    if classes <= 1 {
      score := score - 25.0;
      reasons := reasons + [OneClassReason];
    }
  }

  /**
   * analyze_password. The score is a running double that each penalty
   * lowers and the reasons a vector each penalty appends to.
   */
  method AnalyzePassword(pw: seq<Byte>, common: set<seq<Byte>>, log2: real -> real) returns (result: AnalysisResult)
    ensures result == Analysis(pw, common, log2)
    ensures pw == [] ==> result == AnalysisResult(0, 0.0, 0.0, [EmptyReason])
    ensures pw != [] && IsCommon(pw, common) ==> result.score == 5 && result.reasons == [CommonListReason]
    ensures 0 <= result.score <= 95
    ensures result.reasons != []
    ensures Log2Laws(log2) ==> 0.0 <= result.entropyBits && 0.0 <= result.shannonBits
  {
    if pw == [] {
      return AnalysisResult(0, 0.0, 0.0, [EmptyReason]);
    }

    var poolBits := PoolBasedEntropyBits(pw, log2);
    var shannon := ShannonEntropy(pw, log2);

    var pwLower := LowerCopy(pw);
    if |common| > 0 && pwLower in common {
      return AnalysisResult(5, poolBits, shannon, [CommonListReason]);
    }

    var base := Min(80.0, poolBits / 60.0 * 80.0);
    var lengthBonus := Min(15.0, if |pw| > 8 then (|pw| - 8) as real * 1.5 else 0.0);
    var score := base + lengthBonus;
    if score > 95.0 {
      score := 95.0;
    }
    assert score == PreScore(|pw|, poolBits);
    var reasons;
    ghost var preScore := score;
    score, reasons := ApplyPenalties(pw, score);

    if score < 0.0 {
      score := 0.0;
    }
    if score > 100.0 {
      score := 100.0;
    }
    assert score == Clamp(preScore - Penalty(pw));
    var rounded := Round(score);

    if reasons == [] {
      reasons := [NoWeaknessReason];
    }
    result := AnalysisResult(rounded, poolBits, shannon, reasons);
    assert !IsCommon(pw, common);
    assert result == Analysis(pw, common, log2);
    ScoreBounds(pw, common, log2);
  }

  // ---------------------------------------------------------------- properties

  /** Penalties only subtract from a score capped at 95, and the clamp and rounding keep it at or above 0. */
  lemma ScoreBounds(pw: seq<Byte>, common: set<seq<Byte>>, log2: real -> real)
    ensures 0 <= AnalysisScore(pw, common, log2) <= 95
  {
    if pw != [] && !IsCommon(pw, common) {
      var x := Clamp(PreScore(|pw|, PoolBits(pw, log2)) - Penalty(pw));
      assert 0.0 <= Penalty(pw);
      RoundWithin(x, 0, 95);
    }
  }

  /** Every analysis explains itself: the reason list is never empty. */
  lemma ReasonsNeverEmpty(pw: seq<Byte>, common: set<seq<Byte>>)
    ensures AnalysisReasons(pw, common) != []
  {
  }

  /** No penalty step ever gives the fallback reason: every penalty reason is longer. */
  lemma FallbackNotAPenaltyReason(pw: seq<Byte>)
    ensures NoWeaknessReason !in PenaltyReasons(pw)
  {
    assert |NoWeaknessReason| == 31;
    assert NoWeaknessReason !in SubstringReasons(pw) by {
      match FirstMatch(pw)
      case Some(k) =>
        assert |SubstringReason(CommonSubstrings[k])| > 31;
      case None =>
    }
    assert NoWeaknessReason !in SequenceReasons(pw) + RepeatReasons(pw) + LengthReasons(|pw|) + ClassReasons(pw);
  }

  /** The "no weaknesses" reason stands alone, and only a non-common password of 12 or more bytes gets it. */
  lemma NoWeaknessOnlyAlone(pw: seq<Byte>, common: set<seq<Byte>>)
    requires NoWeaknessReason in AnalysisReasons(pw, common)
    ensures AnalysisReasons(pw, common) == [NoWeaknessReason]
    ensures 12 <= |pw| && !IsCommon(pw, common)
    ensures !ContainsSequence(pw, SequenceWindow) && !ContainsRun(pw, RunLength) && FirstMatch(pw).None?
    ensures 2 <= ClassCount(ClassesOf(pw))
  {
    assert pw != [] && !IsCommon(pw, common) by {
      assert |EmptyReason| != |NoWeaknessReason| && |CommonListReason| != |NoWeaknessReason|;
    }
    FallbackNotAPenaltyReason(pw);
    assert PenaltyReasons(pw) == [];
    NoPenaltyReasons(pw);
  }

  /** A password no penalty step complains about is long, free of patterns and mixes classes. */
  lemma NoPenaltyReasons(pw: seq<Byte>)
    requires PenaltyReasons(pw) == []
    ensures 12 <= |pw|
    ensures !ContainsSequence(pw, SequenceWindow) && !ContainsRun(pw, RunLength) && FirstMatch(pw).None?
    ensures 2 <= ClassCount(ClassesOf(pw))
  {
    assert SequenceReasons(pw) == [] && RepeatReasons(pw) == [] && SubstringReasons(pw) == [];
    assert LengthReasons(|pw|) == [] && ClassReasons(pw) == [];
  }

  /** A password whose lower-case form is in a non-empty common set scores exactly 5 with a single reason, whatever else it contains. */
  lemma CommonHitShortCircuits(pw: seq<Byte>, common: set<seq<Byte>>, log2: real -> real)
    requires pw != [] && Lowered(pw) in common
    ensures Analysis(pw, common, log2).score == 5
    ensures Analysis(pw, common, log2).reasons == [CommonListReason]
    ensures Analysis(pw, common, log2).entropyBits == PoolBits(pw, log2)
  {
    assert |common| > 0 by {
      assert Lowered(pw) in common;
    }
  }

  /** The common set matches regardless of case: a password and its lower-case form are judged alike. */
  lemma CommonCaseInsensitive(pw: seq<Byte>, common: set<seq<Byte>>)
    ensures IsCommon(pw, common) == IsCommon(Lowered(pw), common)
  {
    LoweredIdempotent(pw);
  }

  /** Because "12345" is tried before "123456789" and is its prefix, "123456789" is never the reported match. */
  lemma {:induction false} LongDigitRunNeverReported(pw: seq<Byte>)
    ensures FirstMatch(pw) != Some(6)
  {
    var r := FirstMatch(pw);
    if r == Some(6) {
      assert MatchesSubstring(pw, 6) && !MatchesSubstring(pw, 4);
      assert SubstringBytes(6) == SubstringBytes(4) + Bytes("6789");
      LoweredAppend(SubstringBytes(4), Bytes("6789"));
      OccursPrefix(Lowered(SubstringBytes(4)), Lowered(Bytes("6789")), Lowered(pw));
      assert false;
    }
  }

  /** The substring reason of an analysis never names "123456789". */
  lemma LongDigitRunReasonNeverGiven(pw: seq<Byte>, common: set<seq<Byte>>)
    ensures SubstringReason("123456789") !in AnalysisReasons(pw, common)
  {
    LongDigitRunNeverReported(pw);
    var bad := SubstringReason("123456789");
    assert bad !in SubstringReasons(pw) by {
      match FirstMatch(pw)
      case Some(k) =>
        assert |SubstringReason(CommonSubstrings[k])| != |bad|;
      case None =>
    }
    assert |bad| == 41;
    assert bad !in SequenceReasons(pw) + RepeatReasons(pw) + LengthReasons(|pw|) + ClassReasons(pw);
    assert bad != EmptyReason && bad != CommonListReason && bad != NoWeaknessReason;
  }

  /** "password123" is reported for "password", the first entry of the list. */
  lemma PasswordMatchesFirst()
    ensures FirstMatch(Bytes("password123")) == Some(0)
  {
    var pw := Bytes("password123");
    assert Lowered(pw) == pw;
    assert Lowered(SubstringBytes(0)) == SubstringBytes(0);
    assert OccursAt(SubstringBytes(0), pw, 0);
  }

  /** The reasons keep the order of the penalties: a sequence is always reported first, a single class always last. */
  lemma ReasonOrder(pw: seq<Byte>, common: set<seq<Byte>>, log2: real -> real)
    requires pw != [] && !IsCommon(pw, common)
    ensures |Analysis(pw, common, log2).reasons| <= 5
    ensures ContainsSequence(pw, SequenceWindow) ==> Analysis(pw, common, log2).reasons[0] == SequenceReason
    ensures ClassCount(ClassesOf(pw)) <= 1 ==> Analysis(pw, common, log2).reasons[|Analysis(pw, common, log2).reasons| - 1] == OneClassReason
    ensures |pw| < 8 ==> ShortReason in Analysis(pw, common, log2).reasons
  {
  }

  /** A short password loses exactly 6 points per missing byte, so it never scores above 95 - 6 * (8 - length). */
  lemma ShortPasswordCeiling(pw: seq<Byte>, common: set<seq<Byte>>, log2: real -> real)
    requires pw != [] && |pw| < 8 && !IsCommon(pw, common)
    ensures ShortPenalty(|pw|) == 6 * (8 - |pw|)
    ensures Analysis(pw, common, log2).score <= 95 - 6 * (8 - |pw|)
  {
    var ceiling := 95 - 6 * (8 - |pw|);
    var x := PreScore(|pw|, PoolBits(pw, log2)) - Penalty(pw);
    assert x <= ceiling as real;
    RoundWithin(Clamp(x), 0, ceiling);
  }

  /**
   * With the class mix fixed (so a fixed number of bits per character),
   * a longer password never has a lower score before penalties.
   */
  lemma PreScoreMonotoneInLength(bitsPerChar: real, m: nat, n: nat)
    requires 0.0 <= bitsPerChar && m <= n
    ensures PreScore(m, bitsPerChar * m as real) <= PreScore(n, bitsPerChar * n as real)
  {
    var a, b := bitsPerChar * m as real, bitsPerChar * n as real;
    assert a <= b by {
      MulNonNegative(bitsPerChar, (n - m) as real);
      assert b == a + bitsPerChar * (n - m) as real;
    }
    assert BaseScore(a) <= BaseScore(b);
    assert LengthBonus(m) <= LengthBonus(n);
  }

  lemma MulNonNegative(x: real, y: real)
    requires 0.0 <= x && 0.0 <= y
    ensures 0.0 <= x * y
  {
  }
}

/**
 * The two entropy estimators. Both use a base-2 logarithm, which is a
 * floating-point library call; it is a parameter `log2` here, and the facts
 * about it that the properties need are collected in Log2Laws. Doubles are
 * exact reals.
 */
module Entropy {
  import opened CType
  import opened Classifier

  /** What the real base-2 logarithm satisfies and the estimates rely on. */
  ghost predicate Log2Laws(log2: real -> real)
  {
    && log2(1.0) == 0.0
    && (forall x: real :: 1.0 <= x ==> 0.0 <= log2(x))
    && (forall x: real :: 0.0 < x <= 1.0 ==> log2(x) <= 0.0)
  }

  // ---------------------------------------------------------------- pool-based

  /** log2(pool) bits per character, times the length. */
  ghost function PoolBits(s: seq<Byte>, log2: real -> real): real
  {
    log2(PoolSize(s) as real) * |s| as real
  }

  /** pool_based_entropy_bits: classify, add up the class pools, floor at 1, scale by the length. */
  method PoolBasedEntropyBits(s: seq<Byte>, log2: real -> real) returns (bits: real)
    ensures bits == PoolBits(s, log2)
    ensures Log2Laws(log2) ==> 0.0 <= bits
    ensures s == [] ==> bits == 0.0
  {
    var c := Classify(s);
    var pool := 0;
    if c.lower {
      pool := pool + 26;
    }
    if c.upper {
      pool := pool + 26;
    }
    if c.digit {
      pool := pool + 10;
    }
    if c.symbol {
      pool := pool + 32;
    }
    if pool <= 0 {
      pool := 1;
    }
    assert pool == PoolSize(s);
    var bitsPerChar := log2(pool as real);
    bits := bitsPerChar * |s| as real;
    if Log2Laws(log2) {
      PoolBitsNonNegative(s, log2);
    }
  }

  lemma PoolBitsNonNegative(s: seq<Byte>, log2: real -> real)
    requires Log2Laws(log2)
    ensures 0.0 <= PoolBits(s, log2)
  {
    PoolSizeRange(s);
    assert 0.0 <= log2(PoolSize(s) as real);
  }

  /** Five lower-case letters are worth 5 * log2(26) bits. */
  lemma LowerCaseFiveBits(s: seq<Byte>, log2: real -> real)
    requires |s| == 5 && forall i :: 0 <= i < |s| ==> IsLower(s[i])
    ensures PoolBits(s, log2) == 5.0 * log2(26.0)
  {
    LowerOnlyPool(s);
  }

  // ---------------------------------------------------------------- Shannon

  /** The 256-entry table the counting loop should produce: entry v is the number of occurrences of byte v. */
  function Frequencies(s: seq<Byte>): (f: seq<nat>)
    ensures |f| == 256
  {
    seq(256, v requires 0 <= v < 256 => multiset(s)[v])
  }

  /** The frequency table of shannon_entropy, filled by incrementing one array cell per byte. */
  method CountFrequencies(s: seq<Byte>) returns (freq: seq<nat>)
    ensures |freq| == 256
    ensures forall v: Byte :: freq[v] == multiset(s)[v]
    ensures freq == Frequencies(s)
  {
    var a := new nat[256](_ => 0);
    for k := 0 to |s|
      invariant forall v: Byte :: a[v] == multiset(s[..k])[v]
    {
      assert s[..k + 1] == s[..k] + [s[k]];
      a[s[k]] := a[s[k]] + 1;
    }
    assert s[..|s|] == s;
    freq := a[..];
  }

  function Sum(f: seq<nat>): nat
  {
    if f == [] then 0 else Sum(f[..|f| - 1]) + f[|f| - 1]
  }

  /** Incrementing one cell of a table raises its total by one. */
  lemma {:induction false} SumBump(f: seq<nat>, b: nat)
    requires b < |f|
    ensures Sum(f[b := f[b] + 1]) == Sum(f) + 1
  {
    var g := f[b := f[b] + 1];
    var n := |f| - 1;
    if b < n {
      assert g[..n] == f[..n][b := f[b] + 1];
      SumBump(f[..n], b);
    } else {
      assert g[..n] == f[..n];
    }
  }

  /** The frequency table accounts for every byte exactly once. */
  lemma {:induction false} FrequenciesTotal(s: seq<Byte>)
    ensures Sum(Frequencies(s)) == |s|
  {
    if s == [] {
      assert Frequencies(s) == seq(256, _ => 0);
      ZeroSum(256);
    } else {
      var init, b := s[..|s| - 1], s[|s| - 1];
      assert s == init + [b];
      assert Frequencies(s) == Frequencies(init)[b := Frequencies(init)[b] + 1];
      FrequenciesTotal(init);
      SumBump(Frequencies(init), b);
    }
  }

  lemma {:induction false} ZeroSum(n: nat)
    ensures Sum(seq(n, _ => 0)) == 0
  {
    if n > 0 {
      assert seq(n, _ => 0)[..n - 1] == seq(n - 1, _ => 0);
      ZeroSum(n - 1);
    }
  }

  /** The contribution p * log2(p) of one table entry f out of n bytes, 0 for an absent byte. */
  function Term(f: nat, n: nat, log2: real -> real): real
    requires n > 0
  {
    if f > 0 then
      var p := f as real / n as real;
      p * log2(p)
    else 0.0
  }

  /** The per-character entropy -sum p * log2(p), accumulated entry by entry. */
  function EntropyRate(freq: seq<nat>, n: nat, log2: real -> real): real
    requires n > 0
  {
    if freq == [] then 0.0
    else EntropyRate(freq[..|freq| - 1], n, log2) - Term(freq[|freq| - 1], n, log2)
  }

  /** Shannon entropy rate times the length; 0 for the empty string. */
  function ShannonBits(s: seq<Byte>, log2: real -> real): real
  {
    if s == [] then 0.0
    else EntropyRate(Frequencies(s), |s|, log2) * |s| as real
  }

  /** shannon_entropy: count byte frequencies, accumulate -p * log2(p) over the table, scale by the length. */
  method ShannonEntropy(s: seq<Byte>, log2: real -> real) returns (h: real)
    ensures h == ShannonBits(s, log2)
    ensures Log2Laws(log2) ==> 0.0 <= h
    ensures s == [] ==> h == 0.0
  {
    if s == [] {
      return 0.0;
    }
    var freq := CountFrequencies(s);
    var rate := AccumulateEntropy(freq, |s|, log2);
    h := rate * |s| as real;
    if Log2Laws(log2) {
      ShannonNonNegative(s, log2);
    }
  }

  /** The second loop of shannon_entropy: subtract p * log2(p) for every byte value that occurs. */
  method AccumulateEntropy(freq: seq<nat>, n: nat, log2: real -> real) returns (acc: real)
    requires n > 0
    ensures acc == EntropyRate(freq, n, log2)
  {
    acc := 0.0;
    for v := 0 to |freq|
      invariant acc == EntropyRate(freq[..v], n, log2)
    {
      EntropyRateStep(freq, v, n, log2);
      if freq[v] > 0 {
        var p := freq[v] as real / n as real;
        acc := acc - p * log2(p);
      }
    }
    assert freq[..|freq|] == freq;
  }

  /** The running sum after one more table entry. */
  lemma EntropyRateStep(freq: seq<nat>, v: nat, n: nat, log2: real -> real)
    requires v < |freq| && n > 0
    ensures EntropyRate(freq[..v + 1], n, log2) == EntropyRate(freq[..v], n, log2) - Term(freq[v], n, log2)
  {
    assert freq[..v + 1][..v] == freq[..v];
  }

  /** A byte never occurs more often than the string is long. */
  lemma {:induction false} OccurrencesBounded(s: seq<Byte>, v: Byte)
    ensures multiset(s)[v] <= |s|
  {
    if s != [] {
      var init := s[..|s| - 1];
      assert s == init + [s[|s| - 1]];
      OccurrencesBounded(init, v);
    }
  }

  lemma TermNonPositive(f: nat, n: nat, log2: real -> real)
    requires Log2Laws(log2)
    requires 0 < n && f <= n
    ensures Term(f, n, log2) <= 0.0
  {
    if f > 0 {
      var p := f as real / n as real;
      assert 0.0 < p <= 1.0;
      var l := log2(p);
      assert l <= 0.0;
      assert p * l <= 0.0 by {
        assert p * (-l) >= 0.0;
      }
    }
  }

  lemma {:induction false} EntropyRateNonNegative(freq: seq<nat>, n: nat, log2: real -> real)
    requires Log2Laws(log2)
    requires 0 < n && forall v :: 0 <= v < |freq| ==> freq[v] <= n
    ensures 0.0 <= EntropyRate(freq, n, log2)
  {
    if freq != [] {
      EntropyRateNonNegative(freq[..|freq| - 1], n, log2);
      TermNonPositive(freq[|freq| - 1], n, log2);
    }
  }

  /** With a genuine logarithm the Shannon estimate is never negative. */
  lemma ShannonNonNegative(s: seq<Byte>, log2: real -> real)
    requires Log2Laws(log2)
    ensures 0.0 <= ShannonBits(s, log2)
  {
    if s != [] {
      var freq := Frequencies(s);
      forall v | 0 <= v < 256 ensures freq[v] <= |s| {
        OccurrencesBounded(s, v);
      }
      EntropyRateNonNegative(freq, |s|, log2);
      var r := EntropyRate(freq, |s|, log2);
      assert 0.0 <= r * |s| as real;
    }
  }

  /** A table whose entries are all 0 or n contributes no entropy, because log2(1) = 0. */
  lemma {:induction false} EntropyRateOfOneSymbol(freq: seq<nat>, n: nat, log2: real -> real)
    requires log2(1.0) == 0.0
    requires 0 < n && forall v :: 0 <= v < |freq| ==> freq[v] == 0 || freq[v] == n
    ensures EntropyRate(freq, n, log2) == 0.0
  {
    if freq != [] {
      EntropyRateOfOneSymbol(freq[..|freq| - 1], n, log2);
      var f := freq[|freq| - 1];
      if f > 0 {
        assert f as real / n as real == 1.0;
      }
    }
  }

  /** A password made of one repeated byte ("aaaa") has Shannon entropy 0. */
  lemma ShannonOfRepeatedByte(s: seq<Byte>, log2: real -> real)
    requires log2(1.0) == 0.0
    requires s != [] && forall i :: 0 <= i < |s| ==> s[i] == s[0]
    ensures ShannonBits(s, log2) == 0.0
  {
    var freq := Frequencies(s);
    forall v: Byte | v != s[0] ensures freq[v] == 0 {
      assert v !in s;
    }
    FrequenciesTotal(s);
    AllButOne(freq, s[0]);
    EntropyRateOfOneSymbol(freq, |s|, log2);
  }

  /** A table that is zero outside cell b has its whole total in cell b. */
  lemma {:induction false} AllButOne(f: seq<nat>, b: nat)
    requires b < |f| && forall v :: 0 <= v < |f| && v != b ==> f[v] == 0
    ensures f[b] == Sum(f)
  {
    var n := |f| - 1;
    if b < n {
      AllButOne(f[..n], b);
    } else {
      assert f[..n] == seq(n, _ => 0);
      ZeroSum(n);
    }
  }
}

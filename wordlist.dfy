/**
 * The per-line normalisation of the common-password list: strip trailing
 * white space, skip leading white space, lower-case, and keep the line only
 * if something is left. Reading the file is not part of this model: the
 * loader receives the file's lines, or None when there is no file name or
 * the file cannot be opened (the analyzer then runs without a list).
 */
module Wordlist {
  import opened Wrappers
  import opened CType

  predicate AllSpace(s: seq<Byte>) { forall i :: 0 <= i < |s| ==> IsSpace(s[i]) }

  /** The longest prefix of s that does not end in white space; what is cut is all white space. */
  function DropTrailingSpace(s: seq<Byte>): (r: seq<Byte>)
    ensures r <= s
    ensures AllSpace(s[|r|..])
    ensures r == [] || !IsSpace(r[|r| - 1])
  {
    if s != [] && IsSpace(s[|s| - 1]) then DropTrailingSpace(s[..|s| - 1]) else s
  }

  /** The longest suffix of s that does not start with white space; what is cut is all white space. */
  function DropLeadingSpace(s: seq<Byte>): (r: seq<Byte>)
    ensures |r| <= |s| && r == s[|s| - |r|..]
    ensures AllSpace(s[..|s| - |r|])
    ensures r == [] || !IsSpace(r[0])
  {
    if s != [] && IsSpace(s[0]) then DropLeadingSpace(s[1..]) else s
  }

  /** A wordlist entry: a line without surrounding white space, lower-cased. */
  function Normalized(line: seq<Byte>): seq<Byte>
  {
    Lowered(DropLeadingSpace(DropTrailingSpace(line)))
  }

  /** What every stored entry looks like. */
  predicate IsEntry(p: seq<Byte>)
  {
    p != [] && !IsSpace(p[0]) && !IsSpace(p[|p| - 1]) && NoUpper(p)
  }

  /**
   * One line of load_common_passwords: pop trailing white space off the
   * end, count leading white space, take the rest, lower-case it in place.
   */
  method NormalizeLine(line: seq<Byte>) returns (p: seq<Byte>)
    ensures p == Normalized(line)
  {
    var trimmed := line;
    while trimmed != [] && IsSpace(trimmed[|trimmed| - 1])
      invariant DropTrailingSpace(trimmed) == DropTrailingSpace(line)
    {
      trimmed := trimmed[..|trimmed| - 1];
    }
    var start := 0;
    while start < |trimmed| && IsSpace(trimmed[start])
      invariant start <= |trimmed|
      invariant DropLeadingSpace(trimmed[start..]) == DropLeadingSpace(trimmed)
    {
      start := start + 1;
    }
    var rest := if start > 0 then trimmed[start..] else trimmed;
    p := LowerCopy(rest);
  }

  /**
   * A normalised line is the lower-cased middle of the line: what is cut
   * from either end is white space, and the middle, unless empty, starts
   * and ends with a byte that is not.
   */
  lemma NormalizedMiddle(line: seq<Byte>) returns (lo: nat, hi: nat)
    ensures lo <= hi <= |line|
    ensures AllSpace(line[..lo]) && AllSpace(line[hi..])
    ensures Normalized(line) == Lowered(line[lo..hi])
    ensures lo < hi ==> !IsSpace(line[lo]) && !IsSpace(line[hi - 1])
  {
    var t := DropTrailingSpace(line);
    var m := DropLeadingSpace(t);
    hi := |t|;
    lo := |t| - |m|;
    assert t == line[..hi];
    assert AllSpace(line[..lo]) by {
      assert line[..lo] == t[..lo];
    }
    assert line[lo..hi] == m by {
      assert t[lo..] == m;
    }
  }

  /** Only an all-white-space line (the empty line included) normalises to nothing. */
  lemma NormalizedEmpty(line: seq<Byte>)
    ensures Normalized(line) == [] <==> AllSpace(line)
  {
    var lo, hi := NormalizedMiddle(line);
    if lo == hi {
      assert line == line[..lo] + line[hi..];
    } else {
      assert !IsSpace(line[lo]);
    }
  }

  /** Every non-empty normalised line is a well-formed entry. */
  lemma NormalizedIsEntry(line: seq<Byte>)
    ensures Normalized(line) != [] ==> IsEntry(Normalized(line))
  {
    var t := DropTrailingSpace(line);
    var m := DropLeadingSpace(t);
    if m != [] {
      assert m[|m| - 1] == t[|t| - 1];
    }
  }

  /** The entries a list of lines yields, line by line: each non-empty normalised line is added. */
  function Entries(lines: seq<seq<Byte>>): set<seq<Byte>>
  {
    if lines == [] then {}
    else
      var last := Normalized(lines[|lines| - 1]);
      Entries(lines[..|lines| - 1]) + (if last != [] then {last} else {})
  }

  /** Reading line k adds its normalised form when that is non-empty. */
  lemma EntriesStep(lines: seq<seq<Byte>>, k: nat)
    requires k < |lines|
    ensures var p := Normalized(lines[k]);
      Entries(lines[..k + 1]) == Entries(lines[..k]) + (if p != [] then {p} else {})
  {
    assert lines[..k + 1][..k] == lines[..k];
  }

  /**
   * load_common_passwords, once the file is reduced to its lines: no file
   * means an empty set; otherwise each line is normalised and inserted when
   * non-empty.
   */
  method LoadCommonPasswords(source: Option<seq<seq<Byte>>>) returns (common: set<seq<Byte>>)
    ensures source.None? ==> common == {}
    ensures source.Some? ==> common == Entries(source.value)
    ensures forall p :: p in common ==> IsEntry(p)
  {
    common := {};
    if source.None? {
      return;
    }
    var lines := source.value;
    for k := 0 to |lines|
      invariant common == Entries(lines[..k])
    {
      var p := NormalizeLine(lines[k]);
      EntriesStep(lines, k);
      if p != [] {
        common := common + {p};
      }
    }
    assert lines[..|lines|] == lines;
    EntriesWellFormed(lines);
  }

  /** Every entry loaded from any list of lines is non-empty, has no surrounding white space and no upper case. */
  lemma EntriesWellFormed(lines: seq<seq<Byte>>)
    ensures forall p :: p in Entries(lines) ==> IsEntry(p)
  {
    forall p | p in Entries(lines) ensures IsEntry(p) {
      var i := EntrySource(lines, p);
      NormalizedIsEntry(lines[i]);
    }
  }

  /** Every line whose normalised form is non-empty contributes that form to the set. */
  lemma {:induction false} EntriesContain(lines: seq<seq<Byte>>, i: nat)
    requires i < |lines| && Normalized(lines[i]) != []
    ensures Normalized(lines[i]) in Entries(lines)
  {
    var n := |lines| - 1;
    if i < n {
      assert lines[..n][i] == lines[i];
      EntriesContain(lines[..n], i);
    }
  }

  /** Nothing else is in the set: every entry is the normalised form of some line. */
  lemma {:induction false} EntrySource(lines: seq<seq<Byte>>, p: seq<Byte>) returns (i: nat)
    requires p in Entries(lines)
    ensures i < |lines| && Normalized(lines[i]) == p && p != []
  {
    var n := |lines| - 1;
    if p in Entries(lines[..n]) {
      i := EntrySource(lines[..n], p);
      assert lines[..n][i] == lines[i];
    } else {
      i := n;
    }
  }

  /** Normalising is idempotent: a stored entry normalises to itself. */
  lemma NormalizedIdempotent(line: seq<Byte>)
    ensures Normalized(Normalized(line)) == Normalized(line)
  {
    var p := Normalized(line);
    NormalizedIsEntry(line);
    if p != [] {
      assert DropTrailingSpace(p) == p;
      assert DropLeadingSpace(p) == p;
      LoweredIdempotent(DropLeadingSpace(DropTrailingSpace(line)));
    }
  }
}

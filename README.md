# Password strength analyzer: a verified model of the scoring core

This project models the scoring core of a small C++ password strength analyzer. `analyze_password` takes a password and a set of common passwords. It returns:

- a score from 0 to 100,
- two entropy estimates (pool-based and Shannon),
- an ordered list of reasons.

The model covers the building blocks the analyzer uses:

- the character classifier and the brute-force pool size,
- the 256-entry byte frequency table,
- the two pattern detectors: monotone byte sequences with 8-bit wrap-around, and runs of one repeated byte,
- the case-insensitive substring search,
- the scoring pipeline, with its two short-circuits, its penalties in fixed order, the clamp, rounding and the fallback reason,
- the per-line normalisation of the common-password list.

Each loop of the C++ code is a Dafny `method` with the same loop. Each method is proved equal to a declarative specification function: "some window exists", "first list entry that matches", "the multiset count of each byte", and `Analysis` for the whole pipeline. The properties are then proved about those functions.

Modules:

- `Wrappers` (`wrappers.dfy`) holds `Option`, the "not found" result.
- `CType` (`ctype.dfy`) covers bytes and the C-locale `<cctype>` predicates.
- `Classifier` (`classifier.dfy`) covers character classes, class flags and pool size.
- `Entropy` (`entropy.dfy`) covers the pool-based and Shannon estimates.
- `Detectors` (`detectors.dfy`) covers `has_sequence`, `has_repeated_chars`, `contains_case_insensitive` and `std::string::find`.
- `Scoring` (`scoring.dfy`) covers `AnalysisResult`, the reference `Analysis` and `analyze_password`.
- `Wordlist` (`wordlist.dfy`) covers the line normalisation and the set-building loop of `load_common_passwords`.

How the C++ is represented:

- **Strings** are `seq<Byte>`, with bytes read as `unsigned char`.
- **The wrap-around** in `has_sequence` is written out as `% 256`.
- **Doubles** are exact reals.
- **The base-2 logarithm** is a parameter `log2: real -> real`. The non-negativity results assume `Entropy.Log2Laws`: log2(1) = 0, log2 is non-negative from 1 up and non-positive on (0, 1].

## Model

| member | source | states |
|---|---|---|
| CType.ToLower | password_analyzer.cpp:133-139 | `tolower` in the C locale changes exactly the upper-case letters. The result is never upper-case, and digits, white space and alphanumerics keep their class. |
| CType.LowerCopy | password_analyzer.cpp:133-139 | The copy-then-lower-case-in-place loop produces the byte-wise lower-case image `Lowered(x)`. That image has the same length, no upper-case byte, and every other byte unchanged. |
| CType.CLocaleClasses | password_analyzer.cpp:28-34 | The C-locale `islower`, `isupper` and `isdigit` (`IsLower`, `IsUpper`, `IsDigit`) are the ASCII ranges and are pairwise disjoint. `isalnum` (`IsAlnum`) is exactly their union. `isspace` (`IsSpace`: space, tab, newline, vertical tab, form feed, carriage return) is never alphanumeric. No byte from 128 up is in any of these classes. |
| CType.LoweredIdempotent | password_analyzer.cpp:133-139 | Lower-casing a lower-cased string changes nothing. |
| CType.LoweredAppend | password_analyzer.cpp:133-139 | Lower-casing distributes over concatenation. |
| Classifier.SymbolRule | password_analyzer.cpp:15-17 | `is_symbol` (`IsSymbol`, not `isalnum`) holds exactly when the lower, upper and digit tests all fail. White space and every byte from 128 up are symbols. |
| Classifier.ClassOf | password_analyzer.cpp:27-41 | Every byte is in exactly one class. Lower, upper and digit are the ctype tests, and the symbol class is exactly the `is_symbol` rule (not alphanumeric). |
| Classifier.SymbolCount | password_analyzer.cpp:37-40 | The symbol counter never exceeds the length, and it is positive exactly when some byte is a symbol. |
| Classifier.Classify | password_analyzer.cpp:27-41 | After the loop, each flag is set exactly when some byte of the string has that class, and the counter equals the number of symbol bytes. |
| Classifier.HasClassExtend | password_analyzer.cpp:27-41 | After one more byte, a class is present exactly when it was present before or the new byte has it. |
| Classifier.ClassCount | password_analyzer.cpp:239 | The class count is at most 4, and it is 0 exactly when no flag is set. |
| Classifier.Pool | password_analyzer.cpp:43-59 | The pool is in [1, 94], and it is 1 exactly when no class is present. |
| Classifier.PoolSizeRange | password_analyzer.cpp:43-59 | A password's pool is in [1, 94]. It is 1 only for the empty password, and only the empty password has no class. |
| Classifier.LowerOnlyPool | password_analyzer.cpp:43-59 | A non-empty all-lower-case password has exactly one class and a pool of 26. |
| Entropy.PoolBasedEntropyBits | password_analyzer.cpp:23-64 | The result is log2(pool) times the length. It is 0 for the empty string, and never negative under a genuine logarithm. |
| Entropy.PoolBitsNonNegative | password_analyzer.cpp:61-63 | Pool bits are never negative, because the pool is at least 1. |
| Entropy.LowerCaseFiveBits | password_analyzer.cpp:43-63 | Five lower-case letters are worth 5 · log2(26) bits. |
| Entropy.Frequencies | password_analyzer.cpp:71-76 | The frequency table has 256 entries. |
| Entropy.CountFrequencies | password_analyzer.cpp:71-76 | The in-place counting loop leaves entry v equal to the number of occurrences of byte v. |
| Entropy.SumBump | password_analyzer.cpp:75 | Incrementing one cell raises the table total by one. |
| Entropy.FrequenciesTotal | password_analyzer.cpp:71-76 | The entries of the frequency table add up to the length of the string. |
| Entropy.ZeroSum | password_analyzer.cpp:71-72 | A zero-filled table totals 0. |
| Entropy.ShannonEntropy | password_analyzer.cpp:66-86 | The result is the Shannon entropy rate of the table times the length. It is 0 for the empty string and never negative under a genuine logarithm. |
| Entropy.AccumulateEntropy | password_analyzer.cpp:78-84 | The second loop subtracts p · log2(p) once for each byte value present. |
| Entropy.EntropyRateStep | password_analyzer.cpp:79-84 | One more table entry changes the running sum by exactly its own term. |
| Entropy.OccurrencesBounded | password_analyzer.cpp:74-76 | No byte occurs more often than the string is long, so every p is at most 1. |
| Entropy.TermNonPositive | password_analyzer.cpp:80-83 | Each p · log2(p) with 0 < p ≤ 1 is at most 0. |
| Entropy.EntropyRateNonNegative | password_analyzer.cpp:78-84 | The entropy rate of a table whose entries are bounded by the length is never negative. |
| Entropy.ShannonNonNegative | password_analyzer.cpp:66-86 | The Shannon estimate is never negative. |
| Entropy.EntropyRateOfOneSymbol | password_analyzer.cpp:78-84 | A table whose entries are all 0 or the whole length contributes no entropy. |
| Entropy.ShannonOfRepeatedByte | password_analyzer.cpp:66-86 | A password made of one repeated byte, such as "aaaa", has Shannon entropy 0. |
| Entropy.AllButOne | password_analyzer.cpp:74-76 | A table that is zero outside one cell holds its whole total in that cell. |
| Detectors.HasSequence | password_analyzer.cpp:88-110 | The result is true exactly when some window of n bytes rises by 1 (mod 256) at every step, or falls by 1 (mod 256) at every step. It is false when the string is shorter than n. |
| Detectors.SequenceShorter | password_analyzer.cpp:88-110 | A sequence of length n contains one of every shorter length. |
| Detectors.SequenceInContext | password_analyzer.cpp:93-108 | Bytes added before or after a string never hide a sequence in it. |
| Detectors.AscendingExample | password_analyzer.cpp:88-110 | "xx1234yy" contains an ascending sequence of 4. |
| Detectors.DescendingExample | password_analyzer.cpp:88-110 | "9876" is a descending sequence of 4. |
| Detectors.NotASequenceExample | password_analyzer.cpp:88-110 | "1243" contains no sequence of 4. |
| Detectors.SequenceWrapsAround | password_analyzer.cpp:97-101 | Bytes 254, 255, 0, 1 ascend, and bytes 1, 0, 255, 254 descend. |
| Detectors.HasRepeatedChars | password_analyzer.cpp:112-130 | The result is true exactly when some window of n bytes holds one repeated byte. It is false when the string is shorter than n. |
| Detectors.RunShorter | password_analyzer.cpp:112-130 | A run of length n contains a run of every shorter length. |
| Detectors.RunExamples | password_analyzer.cpp:112-130 | "aaaa1" has a run of 4, and "aaab1" does not. |
| Detectors.RunIsNotSequence | password_analyzer.cpp:97-101 | A window of at least two equal bytes is neither ascending nor descending. |
| Detectors.Find | password_analyzer.cpp:141 | `std::string::find` returns the first position at or after the start where the pattern occurs, or no position when there is none. |
| Detectors.ContainsCaseInsensitive | password_analyzer.cpp:132-142 | The result is true exactly when the lower-cased `sub` occurs contiguously in the lower-cased `str`. |
| Detectors.OccursPrefix | password_analyzer.cpp:141 | A string that contains p + q also contains p. |
| Detectors.CaseInsensitiveMatch | password_analyzer.cpp:132-142 | Any two strings with the same lower-case image give the same answer, in either argument position, so re-lower-casing an argument changes nothing. |
| Detectors.OccursIgnoringCase | password_analyzer.cpp:132-142 | A part of the password that equals `sub` up to ASCII case is always found. |
| Scoring.FirstMatchFrom | password_analyzer.cpp:203-211 | The result is the first list index, from k on, whose substring occurs in the password ignoring case; no earlier index from k on occurs. When there is none, no index from k on occurs. |
| Scoring.FirstCommonSubstring | password_analyzer.cpp:203-211 | The loop with `break` stops at the first common substring that matches, or at none. |
| Scoring.Min | password_analyzer.cpp:182-184 | `std::min` returns one of its arguments, and that argument is below or equal to both. |
| Scoring.BaseScore | password_analyzer.cpp:182 | The base is at most 80, non-negative for non-negative bits, and exactly bits · 4/3 up to 60 bits. |
| Scoring.LengthBonus | password_analyzer.cpp:184 | The length bonus is in [0, 15]. It is 0 up to 8 bytes and 15 from 18 bytes on. |
| Scoring.PreScore | password_analyzer.cpp:185-189 | The score before penalties is at most 95, and non-negative for non-negative bits. |
| Scoring.ShortPenalty | password_analyzer.cpp:214-215 | The short-password penalty is 0 exactly from 8 bytes on, and at most 48. |
| Scoring.Clamp | password_analyzer.cpp:245-250 | The clamped score is in [0, 100], and a score already in range is unchanged. |
| Scoring.Round | password_analyzer.cpp:252 | `std::round` is within 0.5 of its argument, and halves go away from zero. |
| Scoring.RoundWithin | password_analyzer.cpp:245-252 | Rounding a value between two integers stays between them. |
| Scoring.ApplyPenalties | password_analyzer.cpp:191-243 | The penalty steps lower the score by exactly the sum of the penalties that fire. They append exactly the reasons of the steps that fire, in the order sequence, repeat, substring, length, class. The substring reason is `SubstringReason`, the text of line 208 around the matched list entry. The score never rises. |
| Scoring.AnalyzePassword | password_analyzer.cpp:151-259 | The result equals the reference `Analysis`. The empty password gives score 0, both entropies 0 and only the empty-password reason. A common-set hit gives score 5 and only its reason. Every score is in [0, 95], reasons are never empty, and both entropies are non-negative under a genuine logarithm. |
| Scoring.ScoreBounds | password_analyzer.cpp:179-252 | Every analysis score is in [0, 95]. |
| Scoring.ReasonsNeverEmpty | password_analyzer.cpp:254-256 | Every analysis gives at least one reason. |
| Scoring.FallbackNotAPenaltyReason | password_analyzer.cpp:191-243 | No penalty step gives the "No obvious weaknesses detected" reason. |
| Scoring.NoWeaknessOnlyAlone | password_analyzer.cpp:254-256 | When "No obvious weaknesses detected" is given, it is the only reason. The password is then not common, is at least 12 bytes long, has no sequence, run or common substring, and has at least two classes. |
| Scoring.NoPenaltyReasons | password_analyzer.cpp:191-243 | A password with no penalty reason has at least 12 bytes, no sequence, no run, no common substring and at least two classes. |
| Scoring.CommonHitShortCircuits | password_analyzer.cpp:167-176 | A non-empty password whose lower-case form is in the common set scores 5, with only the common-list reason, whatever else it contains. The pool entropy is still reported. |
| Scoring.CommonCaseInsensitive | password_analyzer.cpp:167-172 | The common-set test `IsCommon` is the test of line 172: the set is non-empty and holds the lower-cased password. A password and its lower-cased form are judged alike by it. |
| Scoring.LongDigitRunNeverReported | password_analyzer.cpp:203-211 | "12345" comes first in the list and is a prefix of "123456789", so the first match is never "123456789". |
| Scoring.LongDigitRunReasonNeverGiven | password_analyzer.cpp:203-211 | No analysis ever gives the reason naming "123456789". |
| Scoring.PasswordMatchesFirst | password_analyzer.cpp:203-211 | "password123" is reported for "password", the first list entry. |
| Scoring.ReasonOrder | password_analyzer.cpp:191-243 | On the scoring path there are at most 5 reasons. A sequence reason comes first, a single-class reason comes last, and every password under 8 bytes gets the short reason. |
| Scoring.ShortPasswordCeiling | password_analyzer.cpp:214-217 | The short penalty is exactly 6 · (8 − length), so a short password scores at most 95 − 6 · (8 − length). |
| Scoring.PreScoreMonotoneInLength | password_analyzer.cpp:179-189 | For a fixed class mix, a longer password never has a lower score before penalties. |
| Wordlist.DropTrailingSpace | password_analyzer.cpp:276-278 | The `pop_back` loop keeps a prefix and removes only white space. What remains is empty or ends in a byte that is not white space. |
| Wordlist.DropLeadingSpace | password_analyzer.cpp:280-285 | Skipping leading white space keeps a suffix and skips only white space. What remains is empty or starts with a byte that is not white space. |
| Wordlist.NormalizeLine | password_analyzer.cpp:276-288 | The trimming loops, the substring and the in-place lower-casing compute `Normalized(line)`. |
| Wordlist.NormalizedMiddle | password_analyzer.cpp:276-288 | A normalised line is the lower-cased middle of the line. Only white space is cut at either end, and a non-empty middle starts and ends with a byte that is not white space. |
| Wordlist.NormalizedEmpty | password_analyzer.cpp:290 | A line normalises to nothing exactly when it is all white space, including the empty line. |
| Wordlist.NormalizedIsEntry | password_analyzer.cpp:276-291 | A non-empty normalised line has no white space at either end and no upper-case letter. |
| Wordlist.EntriesStep | password_analyzer.cpp:290-292 | Reading one more line adds its normalised form exactly when that form is non-empty. |
| Wordlist.LoadCommonPasswords | password_analyzer.cpp:262-294 | With no file the set is empty. Otherwise the set is exactly the non-empty normalised lines, and every entry is well-formed. |
| Wordlist.EntriesWellFormed | password_analyzer.cpp:275-293 | Every entry is non-empty, has no white space at either end and has no upper-case letter. |
| Wordlist.EntriesContain | password_analyzer.cpp:275-293 | Every line that normalises to something non-empty contributes that form. |
| Wordlist.EntrySource | password_analyzer.cpp:275-293 | Every entry is the normalised form of some line, and nothing else is in the set. |
| Wordlist.NormalizedIdempotent | password_analyzer.cpp:276-288 | Normalising a stored entry gives it back unchanged. |

## Left out

- The interactive `main` (password_analyzer.cpp:297-338) is not modelled: prompts, reading passwords from standard input, stripping `\r`, output formatting and the recommendation line are terminal I/O.
- Opening the word-list file, `std::getline` and the `std::cerr` warning (password_analyzer.cpp:269-275) are not modelled. `Wordlist.LoadCommonPasswords` receives the file's lines, or `None` when the file name is empty or the file cannot be opened; both cases give an empty set.
- The set is a Dafny `set`, not a hashed `std::unordered_set`; only its membership is modelled.
- Floating point is not modelled. `log2_double` (password_analyzer.cpp:19-21) is the parameter `log2`, doubles are exact reals, and `std::round` is exact rounding with halves away from zero. Rounding error in the products, in the `-p · log2 p` sum and in the base score is therefore not modelled.
- Entropy.PoolBasedEntropyBits, Entropy.ShannonEntropy, Scoring.AnalyzePassword: the non-negativity of the entropies holds only under `Log2Laws`, the properties of a genuine base-2 logarithm. The library `log` is not modelled.
- The `<cctype>` functions are fixed to the "C" locale. Every byte from 128 up is a symbol, and `tolower` leaves it unchanged. A byte from 128 up reaches `tolower` as a negative `char` (password_analyzer.cpp:136, 169, 287); ISO C leaves that undefined, and the model follows glibc, whose C-locale table leaves the byte unchanged.
- Detectors.HasSequence, Detectors.HasRepeatedChars, Entropy.CountFrequencies, Classifier.Classify: lengths and counts are unbounded integers. The C++ casts the string size to `int` (password_analyzer.cpp:89, 113) and keeps `symbol_count` and the frequency cells in `int` (password_analyzer.cpp:26, 71, 75). The model matches the C++ only for strings shorter than 2^31 bytes: from 2^31 bytes on, the cast wraps modulo 2^32, and both detectors return false at once whenever the wrapped size is below the window length (for every length in [2^31, 2^32), for example, where the cast size is negative). A frequency cell can also overflow once one byte occurs 2^31 times.
- Detectors.HasSequence, Detectors.HasRepeatedChars: the window length is a natural number. A negative `seqLen` or `runLen`, where the C++ mixes `int` and `std::size_t`, is not modelled; the analyzer only calls both with 4.
- `symbol_count` (password_analyzer.cpp:26, 39) is modelled (`Classifier.SymbolCount`), but the C++ never uses it.
- `is_symbol` (password_analyzer.cpp:15-17) is never called by the C++. It is the predicate `Classifier.IsSymbol`, and `Classifier.ClassOf` proves it is exactly the symbol class.
- Scoring.ApplyPenalties and Scoring.FirstCommonSubstring are parts of `analyze_password` written as methods of their own. They keep the statements and their order.
- The classification loop of `analyze_password` (password_analyzer.cpp:223-239) is the loop of `pool_based_entropy_bits` without the `++symbol_count`. Both are modelled by `Classifier.Classify`; the symbol counter it also computes is unused either way.
- Scoring.PreScoreMonotoneInLength: monotonicity in length is stated for the score before penalties only. A longer password can trigger more penalties (a sequence, a run, a common substring), so the final score is not monotone.

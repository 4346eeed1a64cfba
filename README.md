# SemVer in Dafny

A model of the C# `SemVer` library's `SemanticVersion` class and its
`SemanticVersionFormat` formatter, with proofs of what they promise.

- **Construction and validation.** The constructor checks that major, minor
  and patch are not negative, then runs the `Prerelease` and `Build` setters.
  Each setter validates its value against the identifier rules and stores it,
  or throws. The Prerelease setter also stores the value split on `.`
  (`PreIdentifiers`).
- **Parsing.** `TryParse` matches the anchored version pattern, reads the
  numbers and calls the constructor. `Parse` is `TryParse` with `null` for
  failure.
- **Comparison.** `CompareTo` compares major, minor and patch, then the
  prerelease identifiers with the `ComparePrerelease` loop. `Equals` and
  the six comparison operators rest on it. `GetHashCode` hashes the numbers
  and the upper-cased prerelease, and is proved consistent with `Equals`.
- **Text.** `ToString()` gives the canonical text, and `ToString(format)`
  hands over to `SemanticVersionFormat.Format` ("", null or "N").

The modules follow the library:

- `Wrappers`: `Option` and `Outcome`, where `Outcome` is a result or a thrown exception.
- `Numbers`: Int32 values, `int.TryParse` with `NumberStyles.None`, decimal
  text, `CompareTo` on integers, wrap-around.
- `Ascii`: the identifier character class `[0-9A-Za-z-.]`, white space,
  upper-casing, ordinal and ordinal-ignore-case comparison.
- `Identifiers`: `string.Split` on one character, and its inverse `Join`.
- `Validation`: `IsNumericString`, `IsValidPrerelease` (the `foreach` loop as
  a verified method), `IsValidBuild`.
- `Versions`: the five fields as a value, construction (`New`), `IsStable`,
  `ToString()`.
- `Objects`: the object itself. Its setters are public and change it in
  place, so it is a class. `Construct` is `new SemanticVersion(...)`.
- `Ordering`: `ComparePrerelease` (the index loop as a verified method),
  `CompareTo`, `Equals`, `GetHashCode`, the operators, and a reference
  precedence (section 11 of Semantic Versioning 2.0.0) to prove them against.
- `Parsing`: the version pattern as a greedy scanner proved equal to its
  grammar, then `TryParse`/`Parse`.
- `Formatting`: `SemanticVersionFormat.Format` and `GetFormat`, and
  `ToString(format, provider)`.
- `Scenarios`: cases from the library's own tests, derived from the model.

A thrown exception is `Thrown(e)`. A failed `TryParse` (and the `null` of
`Parse`) is `Returned(None)`. A comparison result is modelled by its sign.

The code differs from the standard in these places, and the model follows
the code:

- Alphanumeric identifiers compare ignoring case.
- A leading or trailing `.` in a prerelease or build is accepted; only `..`
  is refused.
- Leading zeros in major, minor and patch are accepted when parsing.
- A major beyond Int32 makes `TryParse` throw `OverflowException`, because it
  is read with `int.Parse` outside the `try`.
- A minor or patch beyond Int32 silently becomes 0.
- A digit run beyond Int32 in a prerelease is not numeric. It therefore
  escapes the leading-zero rule and ranks as alphanumeric.
- The final tie-break of `ComparePrerelease` compares the raw prerelease
  lengths, where the comment beside it and the standard compare identifier
  counts. `Ordering.PrereleaseOrderIsPrecedence` proves the two agree on
  every valid prerelease.

## Model

| member | source | states |
|---|---|---|
| Versions.New | SemVer/SemanticVersion.cs:37-51 | construction succeeds iff major, minor and patch are ≥ 0, the prerelease is valid and the build is valid; then the fields are the arguments and the identifiers are the prerelease split on '.'; otherwise the first failing check, in source order, names the exception (ArgumentOutOfRange "major"/"minor"/"patch", then Argument "Prerelease", then "Build") |
| Objects.Construct | SemVer/SemanticVersion.cs:37-51 | the constructor on the heap throws exactly when `New` throws, with the same exception; otherwise it returns a fresh, valid object whose fields are what `New` gives |
| Objects.SemanticVersionObject.Init | SemVer/SemanticVersion.cs:24-48 | the field initialisers (lines 24-27) and the number assignments (lines 46-48): a new object starts with empty prerelease and build and the given numbers, and it is valid when the numbers are not negative |
| Objects.SemanticVersionObject.SetPrerelease | SemVer/SemanticVersion.cs:71-83 | the setter succeeds iff the value is a valid prerelease; then it stores the value and its split on '.' and leaves the build alone; otherwise it throws ArgumentException("Prerelease") and changes nothing; the object stays valid |
| Objects.SemanticVersionObject.SetBuild | SemVer/SemanticVersion.cs:88-98 | the setter succeeds iff the value is a valid build; then it stores it and leaves the prerelease and identifiers alone; otherwise it throws ArgumentException("Build") and changes nothing; the object stays valid |
| Objects.SemanticVersionObject.Snapshot | SemVer/SemanticVersion.cs:24-27 | the object's fields as a valid version value, whose identifiers are the stored PreIdentifiers |
| Validation.IsValidPrerelease | SemVer/SemanticVersion.cs:223-243 | the early returns and the loop over the identifiers decide exactly `ValidPrerelease` |
| Validation.LeadingZeroRule | SemVer/SemanticVersion.cs:234-240 | the loop's test (value ≠ 0 and starts with '0', or value 0 and not one character long) refuses a numeric identifier iff it is not the decimal text of its own value: "0" passes, "00" and "01" do not |
| Validation.PrereleaseRulesIncludeBuildRules | SemVer/SemanticVersion.cs:223-263 | every valid prerelease is a valid build; a build is valid iff it is a valid prerelease, or it is non-empty class text without ".." (the build rules lack only the leading-zero rule) |
| Validation.ValidPrereleaseIdentifiers | SemVer/SemanticVersion.cs:223-243 | every identifier of a valid prerelease is class text, and a numeric one is the decimal text of its value (no leading zero) |
| Validation.ValidPrereleaseFromIdentifiers | SemVer/SemanticVersion.cs:223-243 | non-empty dot-free class identifiers without leading zeros, joined with '.', form a valid prerelease that splits back into the same identifiers |
| Validation.JoinOfIdentifiers | SemVer/SemanticVersion.cs:228-232 | such identifiers joined with '.' are non-empty class text without ".." |
| Validation.PiecesOfClassText | SemVer/SemanticVersion.cs:76 | splitting class text on '.' gives class text |
| Validation.LeadingZeroValue | SemVer/SemanticVersion.cs:271-274 | a leading '0' does not change a digit run's value |
| Numbers.TryParseNatToString | SemVer/SemanticVersion.cs:271-274 | `int.TryParse` with NumberStyles.None reads the decimal text of every n ≤ Int32.MaxValue back as n |
| Numbers.CanonicalIffPrinted | SemVer/SemanticVersion.cs:271-274 | a digit run has no leading zero iff it is the decimal text of its own value |
| Numbers.ValueOfNatToString | SemVer/SemanticVersion.cs:398-413 | the decimal text `ToString` prints for n reads back as n |
| Numbers.NatToStringOfValue | SemVer/SemanticVersion.cs:398-413 | a digit run without leading zero is what printing its value gives |
| Numbers.ValueAtLeastLeadingDigit | SemVer/SemanticVersion.cs:271-274 | a digit run is worth at least its first digit, and at least 10 when it has two or more digits and no leading zero |
| Numbers.CompareInt | SemVer/SemanticVersion.cs:134-144 | `int.CompareTo` has the sign of the difference |
| Numbers.Wrap32 | SemVer/SemanticVersion.cs:287-295 | the unchecked Int32 result agrees with the exact one modulo 2^32 |
| Ascii.IdentifierTextIsNotBlank | SemVer/SemanticVersion.cs:400-401 | class text is null-or-white-space only when empty, so `ToString` drops a suffix exactly when it is "" |
| Ascii.CompareIgnoreCaseZero | SemVer/SemanticVersion.cs:211 | `string.Compare` with OrdinalIgnoreCase gives 0 iff the upper-cased texts are equal |
| Ascii.CompareOrdinalZero | SemVer/SemanticVersion.cs:211 | ordinal comparison gives 0 iff the texts are equal |
| Ascii.CompareOrdinalAntisymmetric | SemVer/SemanticVersion.cs:211 | swapping the operands of an ordinal comparison flips its sign |
| Ascii.CompareOrdinalTransitive | SemVer/SemanticVersion.cs:211 | ordinal comparison is transitive, strictly when either step is strict |
| Ascii.UpperOfDigits | SemVer/SemanticVersion.cs:293 | upper-casing leaves digit runs unchanged and makes nothing else a digit run |
| Identifiers.JoinSplit | SemVer/SemanticVersion.cs:76 | joining the pieces of `Split(s, sep)` with sep gives s back |
| Identifiers.SplitJoin | SemVer/SemanticVersion.cs:76 | splitting the join of pieces that do not contain sep gives the pieces back |
| Identifiers.SplitWhole | SemVer/SemanticVersion.cs:76 | a text without the separator splits into itself alone |
| Identifiers.SplitUpper | SemVer/SemanticVersion.cs:293 | splitting the upper-cased prerelease gives the upper-cased identifiers |
| Identifiers.JoinLengthOrder | SemVer/SemanticVersion.cs:217 | for identifier lists of pairwise equal length, the joined texts compare by length as the lists compare by count |
| Identifiers.JoinUpper | SemVer/SemanticVersion.cs:293 | lists equal up to case join to texts equal up to case |
| Ordering.ComparePrerelease | SemVer/SemanticVersion.cs:174-218 | the index loop with its early returns computes `PrereleaseOrder`, the recursive walk over both identifier lists |
| Ordering.IdentifierRanks | SemVer/SemanticVersion.cs:190-208 | two numeric identifiers compare by value, both as < and as =; a numeric identifier ranks below a non-numeric one, in either operand order |
| Ordering.IdentifierTie | SemVer/SemanticVersion.cs:190-212 | two identifiers tie iff both are numeric with one value, or both are non-numeric and equal up to case |
| Ordering.CanonicalTie | SemVer/SemanticVersion.cs:190-212 | identifiers without leading zeros tie iff they are equal up to case |
| Ordering.SameUpperTies | SemVer/SemanticVersion.cs:190-212 | identifiers equal up to case always tie |
| Ordering.CompareIdentifiersAntisymmetric | SemVer/SemanticVersion.cs:190-212 | swapping two identifiers flips the sign of their comparison |
| Ordering.CompareIdentifiersTransitive | SemVer/SemanticVersion.cs:190-212 | the identifier order is transitive, strictly when either step is strict |
| Ordering.ListsZero | SemVer/SemanticVersion.cs:185-217 | the identifier walk gives 0 iff every pair over the shorter list ties and the prerelease lengths are equal |
| Ordering.ListsAntisymmetric | SemVer/SemanticVersion.cs:185-217 | swapping the operands of the identifier walk flips its sign |
| Ordering.ListsAgreeWithCountOrder | SemVer/SemanticVersion.cs:185-217 | the walk with the length tie-break equals the walk with the count tie-break whenever the two tie-breaks agree on fully tied lists |
| Ordering.CountOrderReflexive | SemVer/SemanticVersion.cs:216 | the count-rule precedence ties every identifier list with itself |
| Ordering.CountOrderTransitive | SemVer/SemanticVersion.cs:216 | the count-rule precedence is transitive, strictly when either step is strict |
| Ordering.CanonicalIdentifiers | SemVer/SemanticVersion.cs:236-238 | every numeric identifier of a valid prerelease has no leading zero |
| Ordering.TieBreakAgreesWithCount | SemVer/SemanticVersion.cs:216-217 | on fully tied identifier lists of valid prereleases, comparing the raw text lengths (the code) gives the same sign as comparing the identifier counts (the comment) |
| Ordering.PrereleaseOrderIsPrecedence | SemVer/SemanticVersion.cs:174-218 | on valid prereleases, the code's prerelease order equals the precedence of section 11 of Semantic Versioning 2.0.0 with this library's identifier order: a release above every prerelease, then the identifiers pairwise, then the longer list greater |
| Ordering.PrereleaseOrderZero | SemVer/SemanticVersion.cs:174-218 | valid prereleases tie iff they are equal up to case |
| Ordering.CompareToAntisymmetric | SemVer/SemanticVersion.cs:125-146 | `a.CompareTo(b)` is minus `b.CompareTo(a)` |
| Ordering.CompareToTransitive | SemVer/SemanticVersion.cs:125-146 | `CompareTo` is transitive, strictly when either step is strict |
| Ordering.CompareToLexicographic | SemVer/SemanticVersion.cs:125-146 | `CompareTo` is < 0 iff major, minor, patch and then prerelease precedence decide lexicographically for the left operand, and is 0 iff the three numbers are equal and the precedence ties |
| Ordering.EqualsIffCompareToZero | SemVer/SemanticVersion.cs:151-158 | `Equals` holds iff `CompareTo` gives 0 |
| Ordering.EqualsCharacterisation | SemVer/SemanticVersion.cs:151-158 | two versions are `Equal` iff their numbers are equal and their prereleases are equal up to case; build takes no part |
| Ordering.HashConsistentWithEquals | SemVer/SemanticVersion.cs:287-295 | `Equal` versions have the same hash code, whatever string hash the process uses |
| Ordering.BuildIgnored | SemVer/SemanticVersion.cs:125-158 | versions that differ only in build compare 0, are `Equal` and hash alike |
| Ordering.ReleaseAbovePrerelease | SemVer/SemanticVersion.cs:177-183 | a release ranks above every prerelease of the same major.minor.patch, in both operand orders |
| Ordering.IsStableRespectsEquals | SemVer/SemanticVersion.cs:103 | `IsStable` gives the same answer for `Equal` versions |
| Ordering.OperatorsConsistent | SemVer/SemanticVersion.cs:300-346 | `==` holds iff the default comparer gives 0; `<` is `>` with the operands swapped; `<=` is not `>`; `<=` and `>=` together are `==`; null is below every version and not equal to it |
| Parsing.MatchSemVer | SemVer/SemanticVersion.cs:16-19 | a successful match yields captures the pattern allows, which render back to the whole text |
| Parsing.OptionalGroup | SemVer/SemanticVersion.cs:17-18 | an optional group spans its lead and its capture, and the capture lies in the group's class |
| Parsing.RunEnd | SemVer/SemanticVersion.cs:17-18 | a greedy run takes every character of the class and stops at the end or at the first character outside it |
| Parsing.MatchGrammar | SemVer/SemanticVersion.cs:16-19 | the scanner matches s with captures c iff c is a possible capture of the pattern and renders to s (sound and complete) |
| Parsing.MatchComplete | SemVer/SemanticVersion.cs:16-19 | every text the pattern describes is matched, with the captures the pattern assigns |
| Parsing.TryParseGrammar | SemVer/SemanticVersion.cs:354-383 | on matched text, a major beyond Int32 throws OverflowException; otherwise the result is the version of the captured fields (minor and patch 0 when absent or beyond Int32) when prerelease and build are valid, and false otherwise |
| Parsing.CapturesRead | SemVer/SemanticVersion.cs:361-382 | the same outcome stated for the reading of the captures alone |
| Parsing.TryParseThrowsOnlyOnMajorOverflow | SemVer/SemanticVersion.cs:354-383 | `TryParse` throws exactly for matched text whose major exceeds Int32, and then only OverflowException |
| Parsing.ParseToString | SemVer/SemanticVersion.cs:354-413 | the canonical text of every version parses back to that version |
| Parsing.Printed | SemVer/SemanticVersion.cs:398-413 | the canonical text of every version is text the pattern matches |
| Parsing.ToStringOfParse | SemVer/SemanticVersion.cs:354-413 | the text of a parsed version is the input with minor and patch filled in and the numbers printed without leading zeros; prerelease and build come back verbatim |
| Parsing.NormalizedCanonical | SemVer/SemanticVersion.cs:354-413 | parsing and printing change nothing iff all three numbers are present, without leading zeros and within Int32 |
| Parsing.RenderFull | SemVer/SemanticVersion.cs:405-412 | matched text with both number groups has the layout `ToString` prints |
| Parsing.ParseIdempotent | SemVer/SemanticVersion.cs:354-413 | parsing the text of a parsed version gives the same version again |
| Parsing.FourthComponentRejected | SemVer/SemanticVersion.cs:16-19 | four dotted numbers do not parse |
| Parsing.EmptySuffixRejected | SemVer/SemanticVersion.cs:16-19 | a '-' or '+' with nothing after it does not parse |
| Parsing.DanglingLead | SemVer/SemanticVersion.cs:16-19 | the numbers followed by a lone '-' or '+' do not match |
| Parsing.MatchedShape | SemVer/SemanticVersion.cs:16-19 | matched text starts with a digit, ends with a class character (so a trailing '+' is refused) and uses no character outside the class but '+'; white space is not trimmed |
| Parsing.BeforeBuild | SemVer/SemanticVersion.cs:17-18 | everything before the build group is non-empty class text led by a digit |
| Versions.ToStringCanonical | SemVer/SemanticVersion.cs:398-413 | `ToString` is major.minor.patch, then "-prerelease" when there is one, then "+build" when there is one |
| Formatting.Format | SemVer/SemanticVersionFormat.cs:21-35 | Format returns iff the argument is a version and the format is null, "" or exactly "N"; anything else throws FormatException; null or "" gives `ToString()`, "N" gives major.minor.patch |
| Formatting.GetFormat | SemVer/SemanticVersionFormat.cs:40-43 | the formatter is returned iff ICustomFormatter is asked for |
| Formatting.ToStringWithFormat | SemVer/SemanticVersion.cs:166-169 | `ToString(format, provider)` is `Format(format, this)` whatever the provider |
| Formatting.NumericFormat | SemVer/SemanticVersionFormat.cs:28-29 | the "N" text always returns, is a prefix of `ToString()`, equals it iff there is neither prerelease nor build, and parses to the numbers alone |
| Formatting.NumericTextPrefix | SemVer/SemanticVersionFormat.cs:28-29 | the "N" text followed by the suffixes is the canonical text |
| Formatting.NumericTextParses | SemVer/SemanticVersionFormat.cs:28-29 | the "N" text parses to the version's numbers with empty prerelease and build |
| Formatting.DefaultFormatRoundTrip | SemVer/SemanticVersionFormat.cs:25-26 | a null or empty format gives `ToString()`, which parses back to the version |
| Scenarios.ParseFillsMinorAndPatch | SemVer.Tests/SemanticVersionTest.cs:237-249 | "1.0" parses as 1.0.0 and prints as "1.0.0" |
| Scenarios.NegativeMajorRejected | SemVer.Tests/SemanticVersionTest.cs:47-64 | "-1" does not parse |
| Scenarios.LeadingZeroIdentifierRejected | SemVer.Tests/SemanticVersionTest.cs:52 | "alpha.01" is not a valid prerelease, and constructing 1.0.0-alpha.01 throws ArgumentException("Prerelease") |
| Scenarios.LeadingZeroOnlyInPrerelease | SemVer.Tests/SemanticVersionTest.cs:39 | "001" is a valid build but not a valid prerelease |
| Scenarios.DoubleDotRejected | SemVer.Tests/SemanticVersionTest.cs:71-75 | "alpha..1" is neither a valid prerelease nor a valid build |
| Scenarios.PrereleaseCaseIgnored | SemVer.Tests/SemanticVersionTest.cs:87 | "rc" and "RC" tie as prereleases |
| Scenarios.NumericFormatExamples | SemVer.Tests/SemanticVersionFormatTest.cs:24-40 | "N" on 1.0.0-alpha gives "1.0.0"; "n" throws FormatException; a non-version argument throws FormatException |
| Scenarios.GetFormatExamples | SemVer.Tests/SemanticVersionFormatTest.cs:8-22 | GetFormat gives the formatter for ICustomFormatter and null for another type |
| Scenarios.ShorterPrereleaseFirst | SemVer.Tests/SemanticVersionTest.cs:155 | "alpha" ranks below "alpha.1" |
| Scenarios.NumericIdentifiersByValue | SemVer.Tests/SemanticVersionTest.cs:159 | "beta.2" ranks below "beta.11": numeric identifiers compare by value, not as text |
| Scenarios.AlphanumericAboveNumeric | SemVer.Tests/SemanticVersionTest.cs:173-190 | "rc.1.a" ranks above "rc.1.1": a non-numeric identifier ranks above a numeric one |
| Scenarios.StabilityExamples | SemVer.Tests/SemanticVersionTest.cs:216-235 | 0.1.0 and 1.0.0-alpha are not stable; 1.0.0 and 1.0.0+exp.sha.5114f85 are |

## Left out

- `CompareTo(object)` and `Equals(object)` are not modelled. Their type
  test is dynamic typing, which a typed model has no counterpart for. A null
  argument is covered by `DefaultCompare` and the operators, which take
  `Option`.
- The `ReferenceEquals` shortcuts in `CompareTo` give the answer the
  comparison itself gives, so the model leaves them out.
- Null strings are not modelled: Dafny strings cannot be null. This covers a
  null prerelease, which throws from `Split`, and a null build, which fails
  `IsValidBuild`.
- Before the Prerelease setter first runs, `PreIdentifiers` is null.
  `SemanticVersionObject.Init` starts it at `Split("")` instead; every
  object callers can reach has been through the setter.
- `Parse` is not a separate member. It is `TryParse` read through `Option`,
  with `Returned(None)` as its null.
- The regular expressions are modelled over ASCII. .NET's `\d` also matches
  other Unicode decimal digits, and its `$` also matches before a final
  "\n"; neither is modelled.
- `ToUpper()` and `OrdinalIgnoreCase` are modelled as ASCII upper-casing.
  The hash's `ToUpper()` is culture-sensitive in .NET.
- Ordering.HashConsistentWithEquals: holds only under the ASCII case
  mapping. `GetHashCode` upper-cases the prerelease with the current
  culture, while `Equals` ties identifiers with `OrdinalIgnoreCase`. Under
  a Turkish or Azerbaijani culture, "i" upper-cases to "İ", so 1.0.0-i and
  1.0.0-I are `Equal` but may hash differently. The model does not capture
  this break of the Equals/GetHashCode contract.
- Parsing.TryParseThrowsOnlyOnMajorOverflow: holds only for ASCII digits.
  .NET's `\d` also matches other Unicode decimal digits, such as "١"
  (Arabic-Indic one). Such a major makes `int.Parse` throw
  FormatException, not OverflowException. Such a minor or patch fails
  `int.TryParse` and silently becomes 0, so "1.١" parses as 1.0.0. The
  model does not capture either.
- Ordering.GetHashCode: `string.GetHashCode` is randomised per process, so it is a
  parameter. Only the consistency of the hash with `Equals` is proved, not
  its values.
- Ordering.ComparePrerelease: results are modelled by sign (-1, 0, 1).
  `string.Compare` may return any magnitude, and only the sign is used.
- The `Lazy` singleton `SemanticVersionFormat.Default` is the formatter's
  single value. Its thread-safety is not modelled.
- `Debug.WriteLine` in `TryParse` is logging and is left out.
- `GetFormat` takes a two-case selector in place of a `System.Type`.
- Scenarios: test inputs that must go through the parser are derived only
  when short ("1.0", "-1"), because longer literals make the scanner
  proofs too expensive. The ordering and validity cases are derived at the
  prerelease level instead. The general lemmas
  (`Parsing.MatchGrammar`, `Parsing.TryParseGrammar`,
  `Ordering.CompareToLexicographic`) cover the rest.

/** Precedence, equality and hashing of SemanticVersion (CompareTo,
    ComparePrerelease, Equals, GetHashCode and the comparison operators). */
module Ordering {
  import opened Wrappers
  import opened Numbers
  import opened Ascii
  import opened Identifiers
  import opened Validation
  import opened Versions

  /** One step of ComparePrerelease: two numeric identifiers compare by value,
      a numeric identifier ranks below a non-numeric one, and two non-numeric
      identifiers compare ordinally ignoring case. */
  function CompareIdentifiers(seg: string, otherSeg: string): int {
    var segValue := NumericValue(seg);
    var otherSegValue := NumericValue(otherSeg);
    if segValue.Some? && otherSegValue.Some? then CompareInt(segValue.value, otherSegValue.value)
    else if segValue.Some? then -1
    else if otherSegValue.Some? then 1
    else CompareIgnoreCase(seg, otherSeg)
  }

  /** The identifier walk of ComparePrerelease: the first pair that is not
      tied decides; when the shorter list runs out, the lengths of the two
      prerelease texts decide. */
  function CompareIdentifierLists(ids: seq<string>, otherIds: seq<string>, length: nat, otherLength: nat): int
    decreases |ids|
  {
    if ids == [] || otherIds == [] then CompareInt(length, otherLength)
    else
      var c := CompareIdentifiers(ids[0], otherIds[0]);
      if c != 0 then c else CompareIdentifierLists(ids[1..], otherIds[1..], length, otherLength)
  }

  /** ComparePrerelease as a function of the two prerelease texts: identical
      texts tie, a release (empty prerelease) ranks above any prerelease. */
  function PrereleaseOrder(prerelease: string, otherPrerelease: string): int {
    if prerelease == otherPrerelease then 0
    else if |prerelease| == 0 then 1
    else if |otherPrerelease| == 0 then -1
    else CompareIdentifierLists(Split(prerelease, '.'), Split(otherPrerelease, '.'), |prerelease|, |otherPrerelease|)
  }

  /** ComparePrerelease: the index loop over both identifier arrays with its
      early returns. */
  method ComparePrerelease(semVer: SemanticVersion, otherSemVer: SemanticVersion) returns (r: int)
    ensures r == PrereleaseOrder(semVer.prerelease, otherSemVer.prerelease)
  {
    if semVer.prerelease == otherSemVer.prerelease {
      return 0;
    }
    if |semVer.prerelease| == 0 {
      return 1;
    }
    if |otherSemVer.prerelease| == 0 {
      return -1;
    }
    var ids, otherIds := semVer.PreIdentifiers(), otherSemVer.PreIdentifiers();
    ghost var length, otherLength := |semVer.prerelease|, |otherSemVer.prerelease|;
    var minLen := if |ids| < |otherIds| then |ids| else |otherIds|;
    for i := 0 to minLen
      invariant CompareIdentifierLists(ids[i..], otherIds[i..], length, otherLength)
             == CompareIdentifierLists(ids, otherIds, length, otherLength)
    {
      assert ids[i..][1..] == ids[i + 1..] && otherIds[i..][1..] == otherIds[i + 1..];
      var seg, otherSeg := ids[i], otherIds[i];
      var segValue, otherSegValue := NumericValue(seg), NumericValue(otherSeg);
      if segValue.Some? && otherSegValue.Some? {
        var valueComparison := CompareInt(segValue.value, otherSegValue.value);
        if valueComparison != 0 {
          return valueComparison;
        }
      } else if segValue.Some? {
        return -1;
      } else if otherSegValue.Some? {
        return 1;
      } else {
        var strComparison := CompareIgnoreCase(seg, otherSeg);
        if strComparison != 0 {
          return strComparison;
        }
      }
    }
    return CompareInt(|semVer.prerelease|, |otherSemVer.prerelease|);
  }

  /** CompareTo(SemanticVersion): major, minor and patch in turn, then the
      prerelease; build metadata takes no part. */
  function CompareTo(v: SemanticVersion, other: SemanticVersion): int {
    if v.major != other.major then CompareInt(v.major, other.major)
    else if v.minor != other.minor then CompareInt(v.minor, other.minor)
    else if v.patch != other.patch then CompareInt(v.patch, other.patch)
    else PrereleaseOrder(v.prerelease, other.prerelease)
  }

  /** Equals(SemanticVersion) on a non-null argument. */
  predicate Equals(v: SemanticVersion, other: SemanticVersion) {
    && v.major == other.major
    && v.minor == other.minor
    && v.patch == other.patch
    && PrereleaseOrder(v.prerelease, other.prerelease) == 0
  }

  /** GetHashCode with unchecked Int32 arithmetic. string.GetHashCode is
      randomised per process, so it is a parameter. */
  function GetHashCode(v: SemanticVersion, stringHash: string -> Int32): Int32 {
    var hashCode := 168745411;
    var hashCode := Wrap32(hashCode * -1521134295 + v.major);
    var hashCode := Wrap32(hashCode * -1521134295 + v.minor);
    var hashCode := Wrap32(hashCode * -1521134295 + v.patch);
    Wrap32(hashCode * -1521134295 + stringHash(Upper(v.prerelease)))
  }

  /** Comparer<SemanticVersion>.Default.Compare, on which the relational
      operators rest: a null reference is below every version. */
  function DefaultCompare(left: Option<SemanticVersion>, right: Option<SemanticVersion>): int {
    match (left, right)
    case (None, None) => 0
    case (None, Some(_)) => -1
    case (Some(_), None) => 1
    case (Some(l), Some(r)) => CompareTo(l, r)
  }

  /** operator ==: two nulls are equal, otherwise the left operand's Equals,
      which is false for a null argument. */
  predicate OpEquals(left: Option<SemanticVersion>, right: Option<SemanticVersion>) {
    if left.None? && right.None? then true
    else left.Some? && right.Some? && Equals(left.value, right.value)
  }

  predicate OpNotEquals(left: Option<SemanticVersion>, right: Option<SemanticVersion>) {
    !OpEquals(left, right)
  }

  predicate OpLess(left: Option<SemanticVersion>, right: Option<SemanticVersion>) {
    DefaultCompare(left, right) < 0
  }

  predicate OpGreater(left: Option<SemanticVersion>, right: Option<SemanticVersion>) {
    DefaultCompare(left, right) > 0
  }

  predicate OpLessOrEqual(left: Option<SemanticVersion>, right: Option<SemanticVersion>) {
    DefaultCompare(left, right) <= 0
  }

  predicate OpGreaterOrEqual(left: Option<SemanticVersion>, right: Option<SemanticVersion>) {
    DefaultCompare(left, right) >= 0
  }

  // ---------------------------------------------------------------------
  // Reference ordering: section 11 of Semantic Versioning 2.0.0, where a
  // longer identifier list wins a tie, with this library's identifier order.

  /** Identifier lists compared pairwise; when one runs out, the list with
      more identifiers is greater. */
  function CountOrder(ids: seq<string>, otherIds: seq<string>): int
    decreases |ids|
  {
    if ids == [] || otherIds == [] then CompareInt(|ids|, |otherIds|)
    else
      var c := CompareIdentifiers(ids[0], otherIds[0]);
      if c != 0 then c else CountOrder(ids[1..], otherIds[1..])
  }

  /** Prerelease precedence by identifier count. */
  function Precedence(prerelease: string, otherPrerelease: string): int {
    if prerelease == "" && otherPrerelease == "" then 0
    else if prerelease == "" then 1
    else if otherPrerelease == "" then -1
    else CountOrder(Split(prerelease, '.'), Split(otherPrerelease, '.'))
  }

  /** Every identifier pair over the shorter list is tied. */
  predicate AllTied(ids: seq<string>, otherIds: seq<string>) {
    forall i :: 0 <= i < |ids| && i < |otherIds| ==> CompareIdentifiers(ids[i], otherIds[i]) == 0
  }

  /** Numeric identifiers are the decimal text of their value. */
  predicate CanonicalNumeric(id: string) {
    NumericValue(id).Some? ==> id == NatToString(NumericValue(id).value)
  }

  // ---------------------------------------------------------------------
  // Identifier comparison.

  lemma CompareIdentifiersAntisymmetric(x: string, y: string)
    ensures CompareIdentifiers(x, y) == -CompareIdentifiers(y, x)
  {
    CompareOrdinalAntisymmetric(Upper(x), Upper(y));
  }

  lemma CompareIdentifiersTransitive(x: string, y: string, z: string)
    requires CompareIdentifiers(x, y) <= 0 && CompareIdentifiers(y, z) <= 0
    ensures CompareIdentifiers(x, z) <= 0
    ensures CompareIdentifiers(x, y) < 0 || CompareIdentifiers(y, z) < 0 ==> CompareIdentifiers(x, z) < 0
  {
    if NumericValue(x).None? && NumericValue(y).None? && NumericValue(z).None? {
      CompareOrdinalTransitive(Upper(x), Upper(y), Upper(z));
    }
  }

  /** Two identifiers tie exactly when both are numeric with one value, or
      both are non-numeric and equal once upper-cased. */
  lemma IdentifierTie(x: string, y: string)
    ensures CompareIdentifiers(x, y) == 0 <==>
      || (NumericValue(x).Some? && NumericValue(y).Some? && NumericValue(x).value == NumericValue(y).value)
      || (NumericValue(x).None? && NumericValue(y).None? && Upper(x) == Upper(y))
  {
    CompareIgnoreCaseZero(x, y);
  }

  /** Numeric identifiers rank by value, and below every non-numeric one. */
  lemma IdentifierRanks(x: string, y: string)
    ensures NumericValue(x).Some? && NumericValue(y).Some? ==>
      && (CompareIdentifiers(x, y) < 0 <==> NumericValue(x).value < NumericValue(y).value)
      && (CompareIdentifiers(x, y) == 0 <==> NumericValue(x).value == NumericValue(y).value)
    ensures NumericValue(x).Some? && NumericValue(y).None? ==>
      CompareIdentifiers(x, y) < 0 && CompareIdentifiers(y, x) > 0
  {
  }

  /** Identifiers equal up to case always tie. */
  lemma SameUpperTies(x: string, y: string)
    requires Upper(x) == Upper(y)
    ensures CompareIdentifiers(x, y) == 0
  {
    UpperOfDigits(x);
    UpperOfDigits(y);
    IdentifierTie(x, y);
  }

  /** Among identifiers with canonical numbers, a tie is equality up to case. */
  lemma CanonicalTie(x: string, y: string)
    requires CanonicalNumeric(x) && CanonicalNumeric(y)
    ensures CompareIdentifiers(x, y) == 0 <==> Upper(x) == Upper(y)
  {
    IdentifierTie(x, y);
    if Upper(x) == Upper(y) {
      SameUpperTies(x, y);
    }
  }

  // ---------------------------------------------------------------------
  // The identifier walk.

  lemma {:induction false} ListsZero(ids: seq<string>, otherIds: seq<string>, length: nat, otherLength: nat)
    ensures CompareIdentifierLists(ids, otherIds, length, otherLength) == 0 <==>
      AllTied(ids, otherIds) && length == otherLength
    decreases |ids|
  {
    if ids != [] && otherIds != [] {
      ListsZero(ids[1..], otherIds[1..], length, otherLength);
      if CompareIdentifiers(ids[0], otherIds[0]) == 0 {
        TiedTail(ids, otherIds);
      }
    }
  }

  lemma TiedTail(ids: seq<string>, otherIds: seq<string>)
    requires ids != [] && otherIds != [] && CompareIdentifiers(ids[0], otherIds[0]) == 0
    ensures AllTied(ids, otherIds) <==> AllTied(ids[1..], otherIds[1..])
  {
    if AllTied(ids[1..], otherIds[1..]) {
      forall i | 0 <= i < |ids| && i < |otherIds|
        ensures CompareIdentifiers(ids[i], otherIds[i]) == 0
      {
        if i > 0 {
          assert ids[i] == ids[1..][i - 1] && otherIds[i] == otherIds[1..][i - 1];
        }
      }
    }
  }

  lemma {:induction false} ListsAntisymmetric(ids: seq<string>, otherIds: seq<string>, length: nat, otherLength: nat)
    ensures CompareIdentifierLists(ids, otherIds, length, otherLength)
         == -CompareIdentifierLists(otherIds, ids, otherLength, length)
    decreases |ids|
  {
    if ids != [] && otherIds != [] {
      CompareIdentifiersAntisymmetric(ids[0], otherIds[0]);
      ListsAntisymmetric(ids[1..], otherIds[1..], length, otherLength);
    }
  }

  /** The walk agrees with the count rule whenever the text-length tie-break
      and the count tie-break agree on fully tied lists. */
  lemma {:induction false} ListsAgreeWithCountOrder(ids: seq<string>, otherIds: seq<string>, length: nat, otherLength: nat)
    requires AllTied(ids, otherIds) ==> CompareInt(length, otherLength) == CompareInt(|ids|, |otherIds|)
    ensures CompareIdentifierLists(ids, otherIds, length, otherLength) == CountOrder(ids, otherIds)
    decreases |ids|
  {
    if ids != [] && otherIds != [] && CompareIdentifiers(ids[0], otherIds[0]) == 0 {
      TiedTail(ids, otherIds);
      ListsAgreeWithCountOrder(ids[1..], otherIds[1..], length, otherLength);
    }
  }

  lemma {:induction false} CountOrderReflexive(ids: seq<string>)
    ensures CountOrder(ids, ids) == 0
    decreases |ids|
  {
    if ids != [] {
      CompareOrdinalZero(Upper(ids[0]), Upper(ids[0]));
      CountOrderReflexive(ids[1..]);
    }
  }

  lemma {:induction false} CountOrderTransitive(xs: seq<string>, ys: seq<string>, zs: seq<string>)
    requires CountOrder(xs, ys) <= 0 && CountOrder(ys, zs) <= 0
    ensures CountOrder(xs, zs) <= 0
    ensures CountOrder(xs, ys) < 0 || CountOrder(ys, zs) < 0 ==> CountOrder(xs, zs) < 0
    decreases |xs|
  {
    if xs != [] && ys != [] && zs != [] {
      CompareIdentifiersTransitive(xs[0], ys[0], zs[0]);
      if CompareIdentifiers(xs[0], zs[0]) == 0 {
        CountOrderTransitive(xs[1..], ys[1..], zs[1..]);
      }
    }
  }

  // ---------------------------------------------------------------------
  // Prerelease order on valid prereleases.

  lemma CanonicalIdentifiers(prerelease: string)
    requires ValidPrerelease(prerelease)
    ensures forall i :: 0 <= i < |Split(prerelease, '.')| ==> CanonicalNumeric(Split(prerelease, '.')[i])
  {
    ValidPrereleaseIdentifiers(prerelease);
  }

  /** On tied identifier lists of valid prereleases, comparing the raw text
      lengths (what the code does) gives the same answer as comparing the
      identifier counts (what its comment and the standard say). */
  lemma TieBreakAgreesWithCount(prerelease: string, otherPrerelease: string)
    requires ValidPrerelease(prerelease) && ValidPrerelease(otherPrerelease)
    requires AllTied(Split(prerelease, '.'), Split(otherPrerelease, '.'))
    ensures CompareInt(|prerelease|, |otherPrerelease|)
         == CompareInt(|Split(prerelease, '.')|, |Split(otherPrerelease, '.')|)
  {
    var ids, otherIds := Split(prerelease, '.'), Split(otherPrerelease, '.');
    CanonicalIdentifiers(prerelease);
    CanonicalIdentifiers(otherPrerelease);
    forall i | 0 <= i < |ids| && i < |otherIds|
      ensures |ids[i]| == |otherIds[i]|
    {
      CanonicalTie(ids[i], otherIds[i]);
      assert |Upper(ids[i])| == |Upper(otherIds[i])|;
    }
    JoinSplit(prerelease, '.');
    JoinSplit(otherPrerelease, '.');
    JoinLengthOrder(ids, otherIds, '.');
  }

  /** On valid prereleases the code's order is the count-rule precedence. */
  lemma PrereleaseOrderIsPrecedence(prerelease: string, otherPrerelease: string)
    requires ValidPrerelease(prerelease) && ValidPrerelease(otherPrerelease)
    ensures PrereleaseOrder(prerelease, otherPrerelease) == Precedence(prerelease, otherPrerelease)
  {
    var ids, otherIds := Split(prerelease, '.'), Split(otherPrerelease, '.');
    if prerelease == otherPrerelease {
      CountOrderReflexive(ids);
    } else if prerelease != "" && otherPrerelease != "" {
      if AllTied(ids, otherIds) {
        TieBreakAgreesWithCount(prerelease, otherPrerelease);
      }
      ListsAgreeWithCountOrder(ids, otherIds, |prerelease|, |otherPrerelease|);
    }
  }

  /** Valid prereleases tie exactly when they are equal up to case. */
  lemma PrereleaseOrderZero(prerelease: string, otherPrerelease: string)
    requires ValidPrerelease(prerelease) && ValidPrerelease(otherPrerelease)
    ensures PrereleaseOrder(prerelease, otherPrerelease) == 0 <==> Upper(prerelease) == Upper(otherPrerelease)
  {
    var ids, otherIds := Split(prerelease, '.'), Split(otherPrerelease, '.');
    var length, otherLength := |prerelease|, |otherPrerelease|;
    if prerelease != otherPrerelease && prerelease != "" && otherPrerelease != "" {
      ListsZero(ids, otherIds, length, otherLength);
      if PrereleaseOrder(prerelease, otherPrerelease) == 0 {
        CanonicalIdentifiers(prerelease);
        CanonicalIdentifiers(otherPrerelease);
        forall i | 0 <= i < |ids| && i < |otherIds|
          ensures Upper(ids[i]) == Upper(otherIds[i]) && |ids[i]| == |otherIds[i]|
        {
          CanonicalTie(ids[i], otherIds[i]);
          assert |Upper(ids[i])| == |Upper(otherIds[i])|;
        }
        JoinSplit(prerelease, '.');
        JoinSplit(otherPrerelease, '.');
        JoinLengthOrder(ids, otherIds, '.');
        JoinUpper(ids, otherIds, '.');
      }
      if Upper(prerelease) == Upper(otherPrerelease) {
        SplitUpper(prerelease);
        SplitUpper(otherPrerelease);
        assert UpperAll(ids) == UpperAll(otherIds);
        forall i | 0 <= i < |ids| && i < |otherIds|
          ensures CompareIdentifiers(ids[i], otherIds[i]) == 0
        {
          assert UpperAll(ids)[i] == UpperAll(otherIds)[i];
          SameUpperTies(ids[i], otherIds[i]);
        }
      }
    } else if Upper(prerelease) == Upper(otherPrerelease) {
      assert |Upper(prerelease)| == |Upper(otherPrerelease)|;
    }
  }

  // ---------------------------------------------------------------------
  // Properties of CompareTo, Equals and GetHashCode.

  /** Swapping the operands flips the sign of the comparison. */
  lemma CompareToAntisymmetric(v: SemanticVersion, other: SemanticVersion)
    ensures CompareTo(v, other) == -CompareTo(other, v)
  {
    if v.prerelease != other.prerelease && v.prerelease != "" && other.prerelease != "" {
      ListsAntisymmetric(v.PreIdentifiers(), other.PreIdentifiers(), |v.prerelease|, |other.prerelease|);
    }
  }

  lemma CompareToTransitive(a: SemanticVersion, b: SemanticVersion, c: SemanticVersion)
    requires CompareTo(a, b) <= 0 && CompareTo(b, c) <= 0
    ensures CompareTo(a, c) <= 0
    ensures CompareTo(a, b) < 0 || CompareTo(b, c) < 0 ==> CompareTo(a, c) < 0
  {
    PrereleaseOrderIsPrecedence(a.prerelease, b.prerelease);
    PrereleaseOrderIsPrecedence(b.prerelease, c.prerelease);
    PrereleaseOrderIsPrecedence(a.prerelease, c.prerelease);
    if && a.major == b.major == c.major && a.minor == b.minor == c.minor && a.patch == b.patch == c.patch
       && a.prerelease != "" && b.prerelease != "" && c.prerelease != "" {
      CountOrderTransitive(a.PreIdentifiers(), b.PreIdentifiers(), c.PreIdentifiers());
    }
  }

  /** CompareTo is the lexicographic order on (major, minor, patch,
      prerelease precedence), with precedence as section 11 of Semantic
      Versioning 2.0.0 defines it (a longer identifier list wins a tie). */
  lemma CompareToLexicographic(v: SemanticVersion, other: SemanticVersion)
    ensures CompareTo(v, other) < 0 <==>
      || v.major < other.major
      || (v.major == other.major && v.minor < other.minor)
      || (v.major == other.major && v.minor == other.minor && v.patch < other.patch)
      || (v.major == other.major && v.minor == other.minor && v.patch == other.patch
          && Precedence(v.prerelease, other.prerelease) < 0)
    ensures CompareTo(v, other) == 0 <==>
      v.major == other.major && v.minor == other.minor && v.patch == other.patch
      && Precedence(v.prerelease, other.prerelease) == 0
  {
    PrereleaseOrderIsPrecedence(v.prerelease, other.prerelease);
  }

  /** Equals holds exactly when CompareTo gives zero. */
  lemma EqualsIffCompareToZero(v: SemanticVersion, other: SemanticVersion)
    ensures Equals(v, other) <==> CompareTo(v, other) == 0
  {
  }

  /** Equality is major, minor and patch equal and the prereleases equal up
      to case; build metadata plays no part. */
  lemma EqualsCharacterisation(v: SemanticVersion, other: SemanticVersion)
    ensures Equals(v, other) <==>
      v.major == other.major && v.minor == other.minor && v.patch == other.patch
      && Upper(v.prerelease) == Upper(other.prerelease)
  {
    PrereleaseOrderZero(v.prerelease, other.prerelease);
  }

  /** Equal versions have equal hash codes, whatever string hash the process uses. */
  lemma HashConsistentWithEquals(v: SemanticVersion, other: SemanticVersion, stringHash: string -> Int32)
    requires Equals(v, other)
    ensures GetHashCode(v, stringHash) == GetHashCode(other, stringHash)
  {
    EqualsCharacterisation(v, other);
  }

  /** Changing only the build metadata changes neither order, equality nor hash. */
  lemma BuildIgnored(v: SemanticVersion, other: SemanticVersion, stringHash: string -> Int32)
    requires v.major == other.major && v.minor == other.minor && v.patch == other.patch
    requires v.prerelease == other.prerelease
    ensures CompareTo(v, other) == 0 && Equals(v, other)
    ensures GetHashCode(v, stringHash) == GetHashCode(other, stringHash)
  {
  }

  /** A release ranks above every prerelease of the same major.minor.patch. */
  lemma ReleaseAbovePrerelease(release: SemanticVersion, pre: SemanticVersion)
    requires release.major == pre.major && release.minor == pre.minor && release.patch == pre.patch
    requires release.prerelease == "" && pre.prerelease != ""
    ensures CompareTo(release, pre) > 0 && CompareTo(pre, release) < 0
  {
  }

  /** IsStable gives one answer on versions that are Equal. */
  lemma IsStableRespectsEquals(v: SemanticVersion, other: SemanticVersion)
    requires Equals(v, other)
    ensures v.IsStable() == other.IsStable()
  {
    EqualsCharacterisation(v, other);
    assert |Upper(v.prerelease)| == |Upper(other.prerelease)|;
  }

  /** The operators agree with each other and with Comparer's null rule. */
  lemma OperatorsConsistent(left: Option<SemanticVersion>, right: Option<SemanticVersion>)
    ensures OpEquals(left, right) <==> DefaultCompare(left, right) == 0
    ensures OpLess(left, right) <==> OpGreater(right, left)
    ensures OpLessOrEqual(left, right) <==> !OpGreater(left, right)
    ensures OpLessOrEqual(left, right) && OpGreaterOrEqual(left, right) <==> OpEquals(left, right)
    ensures left.None? && right.Some? ==> OpLess(left, right) && OpNotEquals(left, right)
  {
    if left.Some? && right.Some? {
      CompareToAntisymmetric(left.value, right.value);
    }
  }
}

/** The SemanticVersion value: its five fields, construction and default text. */
module Versions {
  import opened Wrappers
  import opened Numbers
  import opened Ascii
  import opened Identifiers
  import opened Validation

  /** The fields of a SemanticVersion object at one moment. Comparison,
      equality, hashing and the text forms only read these fields, so they
      are functions of this value; the object itself, whose Prerelease and
      Build setters change it in place, is SemanticVersionObject. */
  datatype Version = Version(major: Int32, minor: Int32, patch: Int32, prerelease: string, build: string)
  {
    /** What construction guarantees of every object it lets through. */
    predicate Valid() {
      && 0 <= major && 0 <= minor && 0 <= patch
      && ValidPrerelease(prerelease)
      && IsValidBuild(build)
    }

    /** PreIdentifiers: the prerelease split on '.', which the Prerelease
        setter stores beside the text. */
    function PreIdentifiers(): seq<string> {
      Split(prerelease, '.')
    }

    /** IsStable: a major version above zero and no prerelease. */
    predicate IsStable() {
      major > 0 && |prerelease| == 0
    }
  }

  /** The versions that construction can produce. */
  type SemanticVersion = v: Version | v.Valid() witness Version(0, 0, 0, "", "")

  /** The constructor with its Prerelease and Build setters: the three range
      checks in order, then the prerelease check, then the build check; the
      first one that fails throws. */
  function New(major: Int32, minor: Int32, patch: Int32, prerelease: string, build: string): (r: Outcome<SemanticVersion>)
    ensures r.Returned? <==>
      major >= 0 && minor >= 0 && patch >= 0 && ValidPrerelease(prerelease) && IsValidBuild(build)
    ensures r.Returned? ==>
      && r.value == Version(major, minor, patch, prerelease, build)
      && r.value.PreIdentifiers() == Split(prerelease, '.')
    ensures major < 0 ==> r == Thrown(ArgumentOutOfRange("major"))
    ensures major >= 0 && minor < 0 ==> r == Thrown(ArgumentOutOfRange("minor"))
    ensures major >= 0 && minor >= 0 && patch < 0 ==> r == Thrown(ArgumentOutOfRange("patch"))
    ensures major >= 0 && minor >= 0 && patch >= 0 && !ValidPrerelease(prerelease) ==>
      r == Thrown(Argument("Prerelease"))
    ensures major >= 0 && minor >= 0 && patch >= 0 && ValidPrerelease(prerelease) && !IsValidBuild(build) ==>
      r == Thrown(Argument("Build"))
  {
    if major < 0 then Thrown(ArgumentOutOfRange("major"))
    else if minor < 0 then Thrown(ArgumentOutOfRange("minor"))
    else if patch < 0 then Thrown(ArgumentOutOfRange("patch"))
    else if !ValidPrerelease(prerelease) then Thrown(Argument("Prerelease"))
    else if !IsValidBuild(build) then Thrown(Argument("Build"))
    else Returned(Version(major, minor, patch, prerelease, build))
  }

  /** "{Major}.{Minor}.{Patch}". */
  function NumericText(v: SemanticVersion): string {
    NatToString(v.major) + "." + NatToString(v.minor) + "." + NatToString(v.patch)
  }

  /** ToString(): a suffix is left out when string.IsNullOrWhiteSpace holds of it. */
  function ToString(v: SemanticVersion): string {
    var noBuild := IsNullOrWhiteSpace(v.build);
    var noPre := IsNullOrWhiteSpace(v.prerelease);
    if noBuild && noPre then NumericText(v)
    else if noBuild then NumericText(v) + "-" + v.prerelease
    else if noPre then NumericText(v) + "+" + v.build
    else NumericText(v) + "-" + v.prerelease + "+" + v.build
  }

  /** The canonical form: major.minor.patch, then "-prerelease" when there is
      a prerelease, then "+build" when there is build metadata. */
  lemma ToStringCanonical(v: SemanticVersion)
    ensures ToString(v) ==
      NatToString(v.major) + "." + NatToString(v.minor) + "." + NatToString(v.patch)
      + (if v.prerelease == "" then "" else "-" + v.prerelease)
      + (if v.build == "" then "" else "+" + v.build)
  {
    IdentifierTextIsNotBlank(v.prerelease);
    IdentifierTextIsNotBlank(v.build);
  }
}

/** A SemanticVersion object as the heap holds it: major, minor and patch are
    fixed at construction, while the public Prerelease and Build setters
    validate a new value and store it in place (Prerelease together with its
    split, PreIdentifiers). A setter that refuses its value throws and leaves
    the object as it was. */
module Objects {
  import opened Wrappers
  import opened Numbers
  import opened Identifiers
  import opened Validation
  import opened Versions

  class SemanticVersionObject {
    const major: Int32
    const minor: Int32
    const patch: Int32
    var prerelease: string
    var preIdentifiers: seq<string>
    var build: string

    /** What every object reachable by callers satisfies. */
    ghost predicate Valid()
      reads this
    {
      && Version(major, minor, patch, prerelease, build).Valid()
      && preIdentifiers == Split(prerelease, '.')
    }

    /** The fields as a value, for the comparison, equality, hashing and
        text functions. */
    function Snapshot(): (v: SemanticVersion)
      reads this
      requires Valid()
      ensures v.prerelease == prerelease && v.build == build && v.PreIdentifiers() == preIdentifiers
    {
      Version(major, minor, patch, prerelease, build)
    }

    /** The field initialisers and the three range assignments, before the
        two setters run. */
    constructor Init(major: Int32, minor: Int32, patch: Int32)
      ensures this.major == major && this.minor == minor && this.patch == patch
      ensures prerelease == "" && preIdentifiers == Split("", '.') && build == ""
      ensures 0 <= major && 0 <= minor && 0 <= patch ==> Valid()
    {
      this.major, this.minor, this.patch := major, minor, patch;
      prerelease, preIdentifiers, build := "", Split("", '.'), "";
    }

    /** The Prerelease setter: split the value, check it, and only then
        store the text and its identifiers. */
    method SetPrerelease(value: string) returns (r: Outcome<()>)
      requires Valid()
      modifies this
      ensures Valid()
      ensures r.Returned? <==> ValidPrerelease(value)
      ensures r.Returned? ==>
        prerelease == value && preIdentifiers == Split(value, '.') && build == old(build)
      ensures r.Thrown? ==>
        && r.exception == Argument("Prerelease")
        && prerelease == old(prerelease) && preIdentifiers == old(preIdentifiers) && build == old(build)
    {
      var identifiers := Split(value, '.');
      var valid := IsValidPrerelease(value, identifiers);
      if !valid {
        return Thrown(Argument("Prerelease"));
      }
      prerelease := value;
      preIdentifiers := identifiers;
      return Returned(());
    }

    /** The Build setter: check the value, then store it. */
    method SetBuild(value: string) returns (r: Outcome<()>)
      requires Valid()
      modifies this
      ensures Valid()
      ensures r.Returned? <==> IsValidBuild(value)
      ensures r.Returned? ==>
        build == value && prerelease == old(prerelease) && preIdentifiers == old(preIdentifiers)
      ensures r.Thrown? ==>
        && r.exception == Argument("Build")
        && prerelease == old(prerelease) && preIdentifiers == old(preIdentifiers) && build == old(build)
    {
      if !IsValidBuild(value) {
        return Thrown(Argument("Build"));
      }
      build := value;
      return Returned(());
    }
  }

  /** new SemanticVersion(major, minor, patch, prerelease, build): the range
      checks, then the two setters in order. The object is returned only when
      all of them pass, and then it holds exactly what New describes. */
  method Construct(major: Int32, minor: Int32, patch: Int32, prerelease: string, build: string)
    returns (r: Outcome<SemanticVersionObject>)
    ensures r.Thrown? <==> New(major, minor, patch, prerelease, build).Thrown?
    ensures r.Thrown? ==> r.exception == New(major, minor, patch, prerelease, build).exception
    ensures r.Returned? ==>
      && fresh(r.value) && r.value.Valid()
      && r.value.Snapshot() == New(major, minor, patch, prerelease, build).value
  {
    if major < 0 {
      return Thrown(ArgumentOutOfRange("major"));
    }
    if minor < 0 {
      return Thrown(ArgumentOutOfRange("minor"));
    }
    if patch < 0 {
      return Thrown(ArgumentOutOfRange("patch"));
    }
    var semVer := new SemanticVersionObject.Init(major, minor, patch);
    var set1 := semVer.SetPrerelease(prerelease);
    if set1.Thrown? {
      return Thrown(set1.exception);
    }
    var set2 := semVer.SetBuild(build);
    if set2.Thrown? {
      return Thrown(set2.exception);
    }
    return Returned(semVer);
  }
}

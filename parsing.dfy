/** TryParse and Parse: the anchored version pattern, then construction.

    The pattern is ^(?<major>\d+)(\.(?<minor>\d+))?(\.(?<patch>\d+))?
    (\-(?<pre>[0-9A-Za-z\-\.]+))?(\+(?<build>[0-9A-Za-z\-\.]+))?$ and an
    unmatched group reads as "". It is modelled by a scanner that takes each
    group greedily and never backtracks: every quantified run is followed
    either by the end or by a character that cannot continue the run, and
    skipping an optional group leaves a strict subset of the options for the
    rest, so backtracking could never rescue a failed attempt. MatchGrammar
    below shows that the scanner accepts exactly the strings the pattern
    describes, with the captures the pattern assigns. */
module Parsing {
  import opened Wrappers
  import opened Numbers
  import opened Ascii
  import opened Validation
  import opened Versions

  /** The five named groups of a successful match. */
  datatype Captures = Captures(major: string, minor: string, patch: string, prerelease: string, build: string)

  /** An optional group: nothing when its text is empty, else its leading
      literal and its text. */
  function Opt(lead: char, text: string): string {
    if text == "" then "" else [lead] + text
  }

  /** The string a match with these captures spans. */
  function Render(c: Captures): string {
    c.major + Opt('.', c.minor) + Opt('.', c.patch) + Opt('-', c.prerelease) + Opt('+', c.build)
  }

  /** Captures the pattern can produce: a digit run for major, digit runs
      (or nothing) for minor and patch, with patch only after minor since the
      first optional number group is taken first, and class text (or nothing)
      for prerelease and build. */
  predicate WellFormed(c: Captures) {
    && |c.major| > 0 && AllDigits(c.major)
    && AllDigits(c.minor) && AllDigits(c.patch)
    && (c.patch != "" ==> c.minor != "")
    && AllIdentifierChars(c.prerelease) && AllIdentifierChars(c.build)
  }

  /** The end of the longest run of characters in a class starting at i. */
  function RunEnd(s: string, i: nat, inClass: char -> bool): (j: nat)
    requires i <= |s|
    ensures i <= j <= |s|
    ensures forall k :: i <= k < j ==> inClass(s[k])
    ensures j < |s| ==> !inClass(s[j])
    decreases |s| - i
  {
    if i < |s| && inClass(s[i]) then RunEnd(s, i + 1, inClass) else i
  }

  /** An optional group (lead text+)? tried greedily at position i: its
      capture and the position after it. */
  function OptionalGroup(s: string, i: nat, lead: char, inClass: char -> bool): (r: (string, nat))
    requires i <= |s|
    ensures i <= r.1 <= |s|
    ensures s[i..r.1] == Opt(lead, r.0)
    ensures forall k :: 0 <= k < |r.0| ==> inClass(r.0[k])
  {
    if i < |s| && s[i] == lead && RunEnd(s, i + 1, inClass) > i + 1 then
      var e := RunEnd(s, i + 1, inClass);
      assert s[i..e] == [lead] + s[i + 1..e];
      (s[i + 1..e], e)
    else
      ("", i)
  }

  /** SemVerRegex.Match: the captures of the whole-string match, or None. */
  function MatchSemVer(s: string): (r: Option<Captures>)
    ensures r.Some? ==> WellFormed(r.value) && Render(r.value) == s
  {
    var e0 := RunEnd(s, 0, IsDigit);
    if e0 == 0 then None
    else
      var minor := OptionalGroup(s, e0, '.', IsDigit);
      var patch := OptionalGroup(s, minor.1, '.', IsDigit);
      var pre := OptionalGroup(s, patch.1, '-', IsIdentifierChar);
      var build := OptionalGroup(s, pre.1, '+', IsIdentifierChar);
      if build.1 == |s| then
        ScanSound(s, e0, minor, patch, pre, build);
        Some(Captures(s[..e0], minor.0, patch.0, pre.0, build.0))
      else
        None
  }

  /** TryParse, with Parse's null as None: Returned(None) is "false" (and a
      null from Parse), Returned(Some(v)) is "true" with v. Major is read
      with int.Parse outside the try block, so a major beyond Int32 throws
      OverflowException; a minor or patch beyond Int32 fails int.TryParse and
      silently becomes 0; a construction failure is caught and reads as false. */
  function TryParse(text: string): Outcome<Option<SemanticVersion>> {
    match MatchSemVer(text)
    case None => Returned(None)
    case Some(c) => FromCaptures(c)
  }

  /** What TryParse does with the captures of a successful match. */
  function FromCaptures(c: Captures): Outcome<Option<SemanticVersion>> {
    match TryParseInt32(c.major)
    case None => Thrown(Overflow)
    case Some(major) =>
      var minor := TryParseInt32(c.minor).GetOr(0);
      var patch := TryParseInt32(c.patch).GetOr(0);
      match New(major, minor, patch, c.prerelease, c.build)
      case Returned(v) => Returned(Some(v))
      case Thrown(_) => Returned(None)
  }

  // ---------------------------------------------------------------------
  // The scanner against the grammar.

  /** What a complete scan has read: captures the pattern allows, which
      render back to the whole text. */
  lemma ScanSound(s: string, e0: nat, minor: (string, nat), patch: (string, nat),
                  pre: (string, nat), build: (string, nat))
    requires 0 < e0 <= |s| && RunEnd(s, 0, IsDigit) == e0
    requires minor == OptionalGroup(s, e0, '.', IsDigit)
    requires patch == OptionalGroup(s, minor.1, '.', IsDigit)
    requires pre == OptionalGroup(s, patch.1, '-', IsIdentifierChar)
    requires build == OptionalGroup(s, pre.1, '+', IsIdentifierChar)
    requires build.1 == |s|
    ensures var c := Captures(s[..e0], minor.0, patch.0, pre.0, build.0);
      WellFormed(c) && Render(c) == s
  {
    LeadingDigits(s, e0);
    if minor.0 == "" {
      EmptyGroupStays(s, e0, '.', IsDigit);
    }
    RenderSlices(s, e0, minor, patch, pre, build);
  }

  lemma LeadingDigits(s: string, e0: nat)
    requires e0 <= |s| && RunEnd(s, 0, IsDigit) == e0
    ensures AllDigits(s[..e0])
  {
    var major := s[..e0];
    forall k | 0 <= k < |major|
      ensures IsDigit(major[k])
    {
      assert major[k] == s[k];
    }
  }

  /** A group that captures nothing does not move the scan. */
  lemma EmptyGroupStays(s: string, i: nat, lead: char, inClass: char -> bool)
    requires i <= |s| && OptionalGroup(s, i, lead, inClass).0 == ""
    ensures OptionalGroup(s, i, lead, inClass).1 == i
  {
  }

  lemma RenderSlices(s: string, e0: nat, minor: (string, nat), patch: (string, nat),
                     pre: (string, nat), build: (string, nat))
    requires e0 <= minor.1 <= patch.1 <= pre.1 <= build.1 == |s|
    requires s[e0..minor.1] == Opt('.', minor.0) && s[minor.1..patch.1] == Opt('.', patch.0)
    requires s[patch.1..pre.1] == Opt('-', pre.0) && s[pre.1..build.1] == Opt('+', build.0)
    ensures Render(Captures(s[..e0], minor.0, patch.0, pre.0, build.0)) == s
  {
    SlicesJoin(s, e0, minor.1, patch.1, pre.1);
    assert s[pre.1..] == s[pre.1..build.1];
  }

  lemma SlicesJoin(s: string, e0: nat, e1: nat, e2: nat, e3: nat)
    requires e0 <= e1 <= e2 <= e3 <= |s|
    ensures s == s[..e0] + s[e0..e1] + s[e1..e2] + s[e2..e3] + s[e3..]
  {
    assert s[..e0] + s[e0..e1] == s[..e1];
    assert s[..e1] + s[e1..e2] == s[..e2];
    assert s[..e2] + s[e2..e3] == s[..e3];
  }

  lemma RunEndAt(s: string, i: nat, j: nat, inClass: char -> bool)
    requires i <= j <= |s|
    requires forall k :: i <= k < j ==> inClass(s[k])
    requires j == |s| || !inClass(s[j])
    ensures RunEnd(s, i, inClass) == j
  {
  }

  /** An optional group in its place: the scanner captures exactly its text. */
  lemma GroupAt(s: string, p: string, text: string, rest: string, lead: char, inClass: char -> bool)
    requires s == p + Opt(lead, text) + rest
    requires forall k :: 0 <= k < |text| ==> inClass(text[k])
    requires text != "" ==> rest == "" || !inClass(rest[0])
    requires text == "" ==> rest == "" || rest[0] != lead
    ensures OptionalGroup(s, |p|, lead, inClass) == (text, |p| + |Opt(lead, text)|)
  {
    if text != "" {
      var e := |p| + 1 + |text|;
      forall k | |p| + 1 <= k < e
        ensures inClass(s[k])
      {
        assert s[k] == text[k - |p| - 1];
      }
      RunEndAt(s, |p| + 1, e, inClass);
      assert s[|p|] == lead;
      assert s[|p| + 1..e] == text;
    } else {
      assert s == p + rest;
    }
  }

  /** A run at the start of the text ends where the text stops being in the class. */
  lemma LeadingRun(p: string, rest: string, inClass: char -> bool)
    requires forall k :: 0 <= k < |p| ==> inClass(p[k])
    requires rest == "" || !inClass(rest[0])
    ensures RunEnd(p + rest, 0, inClass) == |p|
  {
    var s := p + rest;
    forall k | 0 <= k < |p|
      ensures inClass(s[k])
    {
      assert s[k] == p[k];
    }
    if rest != "" {
      assert s[|p|] == rest[0];
    }
    RunEndAt(s, 0, |p|, inClass);
  }

  /** The numeric groups of captures c scan as c says when what follows
      them cannot continue them. */
  lemma NumericStages(s: string, c: Captures, rest: string)
    requires WellFormed(c)
    requires s == c.major + Opt('.', c.minor) + Opt('.', c.patch) + rest
    requires rest == "" || (!IsDigit(rest[0]) && (c.patch == "" ==> rest[0] != '.'))
    ensures s[..|c.major|] == c.major
    ensures RunEnd(s, 0, IsDigit) == |c.major|
    ensures OptionalGroup(s, |c.major|, '.', IsDigit) == (c.minor, |c.major + Opt('.', c.minor)|)
    ensures OptionalGroup(s, |c.major + Opt('.', c.minor)|, '.', IsDigit)
            == (c.patch, |c.major + Opt('.', c.minor) + Opt('.', c.patch)|)
  {
    if c.minor == "" {
      assert s == c.major + rest;
      MajorStage(s, c.major, rest);
      GroupAt(s, c.major, "", rest, '.', IsDigit);
    } else {
      MinorStages(s, c.major, c.minor, c.patch, rest);
    }
  }

  /** NumericStages when the minor number is present. */
  lemma MinorStages(s: string, major: string, minor: string, patch: string, rest: string)
    requires AllDigits(major) && AllDigits(minor) && AllDigits(patch) && minor != ""
    requires s == major + Opt('.', minor) + Opt('.', patch) + rest
    requires rest == "" || (!IsDigit(rest[0]) && (patch == "" ==> rest[0] != '.'))
    ensures s[..|major|] == major
    ensures RunEnd(s, 0, IsDigit) == |major|
    ensures OptionalGroup(s, |major|, '.', IsDigit) == (minor, |major + Opt('.', minor)|)
    ensures OptionalGroup(s, |major + Opt('.', minor)|, '.', IsDigit)
            == (patch, |major + Opt('.', minor) + Opt('.', patch)|)
  {
    var after := Opt('.', patch) + rest;
    assert s == major + Opt('.', minor) + after;
    if patch == "" {
      assert after == rest;
    } else {
      assert after[0] == '.';
    }
    MinorGroupStage(s, major, minor, after);
    GroupAt(s, major + Opt('.', minor), patch, rest, '.', IsDigit);
  }

  /** The major number and a present minor group, whatever follows them. */
  lemma MinorGroupStage(s: string, major: string, minor: string, after: string)
    requires AllDigits(major) && AllDigits(minor) && minor != ""
    requires s == major + Opt('.', minor) + after
    requires after == "" || !IsDigit(after[0])
    ensures s[..|major|] == major
    ensures RunEnd(s, 0, IsDigit) == |major|
    ensures OptionalGroup(s, |major|, '.', IsDigit) == (minor, |major + Opt('.', minor)|)
  {
    var tail := Opt('.', minor) + after;
    assert s == major + tail;
    MajorStage(s, major, tail);
    GroupAt(s, major, minor, after, '.', IsDigit);
  }

  /** The leading digit run is the major number. */
  lemma MajorStage(s: string, major: string, tail: string)
    requires s == major + tail && AllDigits(major)
    requires tail == "" || !IsDigit(tail[0])
    ensures s[..|major|] == major
    ensures RunEnd(s, 0, IsDigit) == |major|
  {
    LeadingRun(major, tail, IsDigit);
  }

  /** The prerelease and build groups in their place after the numbers. */
  lemma SuffixStages(s: string, n: string, pre: string, build: string)
    requires AllIdentifierChars(pre) && AllIdentifierChars(build)
    requires s == n + Opt('-', pre) + Opt('+', build)
    ensures OptionalGroup(s, |n|, '-', IsIdentifierChar) == (pre, |n + Opt('-', pre)|)
    ensures OptionalGroup(s, |n + Opt('-', pre)|, '+', IsIdentifierChar) == (build, |s|)
  {
    var b := Opt('+', build);
    GroupAt(s, n, pre, b, '-', IsIdentifierChar);
    assert s == n + Opt('-', pre) + b + "";
    GroupAt(s, n + Opt('-', pre), build, "", '+', IsIdentifierChar);
  }

  lemma MatchComplete(c: Captures)
    requires WellFormed(c)
    ensures MatchSemVer(Render(c)) == Some(c)
  {
    var m, p, pr, b := Opt('.', c.minor), Opt('.', c.patch), Opt('-', c.prerelease), Opt('+', c.build);
    var s := Render(c);
    var n := c.major + m + p;
    SuffixStages(s, n, c.prerelease, c.build);
    var rest := pr + b;
    assert s == c.major + m + p + rest;
    if rest != "" {
      assert rest[0] == '-' || rest[0] == '+';
    }
    NumericStages(s, c, rest);
    MatchSteps(s, |c.major|, c.minor, |c.major + m|, c.patch, |n|, c.prerelease, |n + pr|, c.build);
  }

  lemma MatchSteps(s: string, e0: nat, minor: string, e1: nat, patch: string, e2: nat,
                   pre: string, e3: nat, build: string)
    requires 0 < e0 <= e1 <= e2 <= e3 <= |s|
    requires RunEnd(s, 0, IsDigit) == e0
    requires OptionalGroup(s, e0, '.', IsDigit) == (minor, e1)
    requires OptionalGroup(s, e1, '.', IsDigit) == (patch, e2)
    requires OptionalGroup(s, e2, '-', IsIdentifierChar) == (pre, e3)
    requires OptionalGroup(s, e3, '+', IsIdentifierChar) == (build, |s|)
    ensures MatchSemVer(s) == Some(Captures(s[..e0], minor, patch, pre, build))
  {
  }

  /** The pattern as a whole: the scanner succeeds on s with captures c
      exactly when c is a possible capture and spans all of s. */
  lemma MatchGrammar(s: string, c: Captures)
    ensures MatchSemVer(s) == Some(c) <==> WellFormed(c) && Render(c) == s
  {
    if WellFormed(c) && Render(c) == s {
      MatchComplete(c);
    }
  }

  // ---------------------------------------------------------------------
  // TryParse.

  /** The Int32 value TryParse gives minor and patch: the parsed number, or 0
      for an absent group or a run beyond Int32. */
  function ParsedOrZero(digits: string): Int32 {
    TryParseInt32(digits).GetOr(0)
  }

  /** The outcome of TryParse on every string the pattern matches. */
  lemma TryParseGrammar(c: Captures)
    requires WellFormed(c)
    ensures Value(c.major) > MaxInt32 ==> TryParse(Render(c)) == Thrown(Overflow)
    ensures Value(c.major) <= MaxInt32 ==>
      TryParse(Render(c)) ==
        if ValidPrerelease(c.prerelease) && IsValidBuild(c.build) then
          Returned(Some(Version(Value(c.major), ParsedOrZero(c.minor), ParsedOrZero(c.patch), c.prerelease, c.build)))
        else
          Returned(None)
  {
    MatchComplete(c);
    CapturesRead(c);
  }

  /** The captures read as Int32 numbers and passed to the constructor. */
  lemma CapturesRead(c: Captures)
    requires WellFormed(c)
    ensures Value(c.major) > MaxInt32 ==> FromCaptures(c) == Thrown(Overflow)
    ensures Value(c.major) <= MaxInt32 ==>
      FromCaptures(c) ==
        if ValidPrerelease(c.prerelease) && IsValidBuild(c.build) then
          Returned(Some(Version(Value(c.major), ParsedOrZero(c.minor), ParsedOrZero(c.patch), c.prerelease, c.build)))
        else
          Returned(None)
  {
  }

  /** TryParse throws only for a matching string whose major exceeds Int32;
      every other string gives true or false. */
  lemma TryParseThrowsOnlyOnMajorOverflow(text: string)
    ensures TryParse(text).Thrown? <==>
      MatchSemVer(text).Some? && Value(MatchSemVer(text).value.major) > MaxInt32
    ensures TryParse(text).Thrown? ==> TryParse(text).exception == Overflow
  {
  }

  /** The captures the pattern assigns to the canonical text of a version. */
  function Printed(v: SemanticVersion): (c: Captures)
    ensures WellFormed(c) && Render(c) == ToString(v)
  {
    var c := Captures(NatToString(v.major), NatToString(v.minor), NatToString(v.patch), v.prerelease, v.build);
    ToStringCanonical(v);
    RenderFull(c);
    c
  }

  /** The canonical text of a version parses back to that version. */
  lemma ParseToString(v: SemanticVersion)
    ensures TryParse(ToString(v)) == Returned(Some(v))
  {
    var c := Printed(v);
    ValueOfNatToString(v.major);
    TryParseNatToString(v.minor);
    TryParseNatToString(v.patch);
    TryParseGrammar(c);
  }

  /** Captures with the numbers as TryParse reads them, printed back. */
  function Normalized(c: Captures): Captures
    requires WellFormed(c) && Value(c.major) <= MaxInt32
  {
    Captures(NatToString(Value(c.major)), NatToString(ParsedOrZero(c.minor)),
             NatToString(ParsedOrZero(c.patch)), c.prerelease, c.build)
  }

  /** ToString of a parsed version is the input with minor and patch filled
      in (0 when absent or beyond Int32) and the numbers without leading
      zeros; the prerelease and build come back verbatim. */
  lemma ToStringOfParse(c: Captures)
    requires WellFormed(c) && Value(c.major) <= MaxInt32
    requires TryParse(Render(c)).Returned? && TryParse(Render(c)).value.Some?
    ensures ToString(TryParse(Render(c)).value.value) == Render(Normalized(c))
  {
    TryParseGrammar(c);
    var v := TryParse(Render(c)).value.value;
    ToStringCanonical(v);
    RenderFull(Normalized(c));
  }

  /** Render with both number groups present, in the layout ToString uses. */
  lemma RenderFull(c: Captures)
    requires c.minor != "" && c.patch != ""
    ensures Render(c) ==
      c.major + "." + c.minor + "." + c.patch
      + (if c.prerelease == "" then "" else "-" + c.prerelease)
      + (if c.build == "" then "" else "+" + c.build)
  {
    assert Opt('-', c.prerelease) == (if c.prerelease == "" then "" else "-" + c.prerelease);
    assert Opt('+', c.build) == (if c.build == "" then "" else "+" + c.build);
  }

  /** Normalization changes nothing when all three numbers are present,
      without leading zeros and within Int32. */
  lemma NormalizedCanonical(c: Captures)
    requires WellFormed(c) && Value(c.major) <= MaxInt32
    ensures Normalized(c) == c <==>
      c.minor != "" && c.patch != "" && IsCanonical(c.major) && IsCanonical(c.minor) && IsCanonical(c.patch)
      && Value(c.minor) <= MaxInt32 && Value(c.patch) <= MaxInt32
  {
    var majorValue, minorValue, patchValue := Value(c.major), ParsedOrZero(c.minor), ParsedOrZero(c.patch);
    ValueOfNatToString(majorValue);
    ValueOfNatToString(minorValue);
    ValueOfNatToString(patchValue);
    CanonicalIffPrinted(c.major);
    if c.minor != "" {
      CanonicalIffPrinted(c.minor);
    }
    if c.patch != "" {
      CanonicalIffPrinted(c.patch);
    }
  }

  /** Parsing the text of a parsed version gives the same version again. */
  lemma ParseIdempotent(text: string)
    requires TryParse(text).Returned? && TryParse(text).value.Some?
    ensures TryParse(ToString(TryParse(text).value.value)) == TryParse(text)
  {
    ParseToString(TryParse(text).value.value);
  }

  // ---------------------------------------------------------------------
  // Strings the pattern refuses.

  /** A fourth dotted number is a mismatch, not a fourth field. */
  lemma FourthComponentRejected(major: string, minor: string, patch: string, extra: string)
    requires |major| > 0 && |minor| > 0 && |patch| > 0 && |extra| > 0
    requires AllDigits(major) && AllDigits(minor) && AllDigits(patch) && AllDigits(extra)
    ensures TryParse(major + "." + minor + "." + patch + "." + extra) == Returned(None)
  {
    var c := Captures(major, minor, patch, "", "");
    var s := major + "." + minor + "." + patch + "." + extra;
    assert s == major + Opt('.', minor) + Opt('.', patch) + ("." + extra);
    NumericStages(s, c, "." + extra);
  }

  /** A '-' or '+' with nothing after it is a mismatch. */
  lemma EmptySuffixRejected(c: Captures)
    requires WellFormed(c) && c.prerelease == "" && c.build == ""
    ensures TryParse(Render(c) + "-") == Returned(None)
    ensures TryParse(Render(c) + "+") == Returned(None)
  {
    DanglingLead(c, '-');
    DanglingLead(c, '+');
  }

  lemma DanglingLead(c: Captures, lead: char)
    requires WellFormed(c) && c.prerelease == "" && c.build == ""
    requires lead == '-' || lead == '+'
    ensures MatchSemVer(Render(c) + [lead]) == None
  {
    var s := Render(c) + [lead];
    assert Render(c) == c.major + Opt('.', c.minor) + Opt('.', c.patch);
    NumericStages(s, c, [lead]);
  }

  /** Every matched string starts with a digit, ends with a class character
      (so a trailing '+' is refused) and uses no character outside the class
      but '+'. White space is not trimmed. */
  lemma MatchedShape(s: string)
    requires MatchSemVer(s).Some?
    ensures |s| > 0 && IsDigit(s[0]) && IsIdentifierChar(s[|s| - 1])
    ensures forall k :: 0 <= k < |s| ==> IsIdentifierChar(s[k]) || s[k] == '+'
  {
    var c := MatchSemVer(s).value;
    var n := BeforeBuild(c);
    var b := Opt('+', c.build);
    assert s == n + b;
    assert s[0] == n[0];
    if b == "" {
      assert s[|s| - 1] == n[|n| - 1];
    } else {
      assert s[|s| - 1] == c.build[|c.build| - 1];
    }
    forall k | 0 <= k < |s|
      ensures IsIdentifierChar(s[k]) || s[k] == '+'
    {
      if k < |n| {
        assert s[k] == n[k];
      } else if k > |n| {
        assert s[k] == c.build[k - |n| - 1];
      }
    }
  }

  /** Everything a match spans before its build group: non-empty, led by a
      digit and made of class characters only. */
  function BeforeBuild(c: Captures): (n: string)
    requires WellFormed(c)
    ensures Render(c) == n + Opt('+', c.build)
    ensures |n| > 0 && IsDigit(n[0]) && AllIdentifierChars(n)
  {
    var n := c.major + Opt('.', c.minor) + Opt('.', c.patch) + Opt('-', c.prerelease);
    assert AllIdentifierChars(c.major);
    assert n[0] == c.major[0];
    ClassConcat(c.major, Opt('.', c.minor));
    ClassConcat(c.major + Opt('.', c.minor), Opt('.', c.patch));
    ClassConcat(c.major + Opt('.', c.minor) + Opt('.', c.patch), Opt('-', c.prerelease));
    n
  }

  /** A class string followed by an optional group whose lead and text are
      class characters is a class string. */
  lemma ClassConcat(a: string, b: string)
    requires AllIdentifierChars(a)
    requires b == "" || (IsIdentifierChar(b[0]) && AllIdentifierChars(b[1..]))
    ensures AllIdentifierChars(a + b)
  {
    forall k | 0 <= k < |a + b|
      ensures IsIdentifierChar((a + b)[k])
    {
      if k >= |a| + 1 {
        assert (a + b)[k] == b[1..][k - |a| - 1];
      }
    }
  }
}

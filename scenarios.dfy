/** Worked examples: concrete cases of the library's own test suite, derived
    from the model. */
module Scenarios {
  import opened Wrappers
  import opened Numbers
  import opened Ascii
  import opened Identifiers
  import opened Validation
  import opened Versions
  import opened Ordering
  import opened Parsing
  import opened Formatting

  /** "1.0" parses as 1.0.0 and prints as "1.0.0". */
  lemma ParseFillsMinorAndPatch(text: string)
    requires text == "1.0"
    ensures TryParse(text) == Returned(Some(Version(1, 0, 0, "", "")))
    ensures ToString(Version(1, 0, 0, "", "")) == "1.0.0"
  {
    var c := Captures("1", "0", "", "", "");
    assert Render(c) == text;
    MatchComplete(c);
    assert Value("1") == 1 && Value("0") == 0;
    CapturesRead(c);
  }

  /** "-1" is not a version: the text must start with a digit. */
  lemma NegativeMajorRejected()
    ensures TryParse("-1") == Returned(None)
  {
  }

  /** "alpha.01" is refused: its second identifier is numeric with a leading zero. */
  lemma LeadingZeroIdentifierRejected()
    ensures !ValidPrerelease("alpha.01")
    ensures New(1, 0, 0, "alpha.01", "") == Thrown(Argument("Prerelease"))
  {
    SplitJoin(["alpha", "01"], '.');
    assert Join(["alpha", "01"], '.') == "alpha.01";
    var id: string := "01";
    assert Value(id) == 1 by {
      assert id[..1] == "0";
    }
    assert HasLeadingZero(id);
    assert Split("alpha.01", '.')[1] == id;
  }

  /** "001" is acceptable build metadata but not a prerelease. */
  lemma LeadingZeroOnlyInPrerelease()
    ensures IsValidBuild("001") && !ValidPrerelease("001")
  {
    SplitWhole("001", '.');
    var id: string := "001";
    var zeros: string := "00";
    assert Value(zeros) == 0 by {
      assert zeros[..1] == "0";
    }
    assert id[..2] == zeros;
    assert Value(id) == 1;
    assert HasLeadingZero(id);
    assert Split("001", '.')[0] == id;
  }

  /** "alpha..1" is refused for its empty identifier. */
  lemma DoubleDotRejected()
    ensures !ValidPrerelease("alpha..1") && !IsValidBuild("alpha..1")
  {
    assert "alpha..1"[5] == '.' && "alpha..1"[6] == '.';
  }

  /** "rc" and "RC" are the same prerelease to comparison and equality. */
  lemma PrereleaseCaseIgnored()
    ensures PrereleaseOrder("rc", "RC") == 0
  {
    SplitWhole("rc", '.');
    SplitWhole("RC", '.');
    assert Upper("rc") == "RC" == Upper("RC");
    CompareOrdinalZero(Upper("rc"), Upper("RC"));
    assert NumericValue("rc") == None by {
      assert !IsDigit("rc"[0]);
    }
    assert NumericValue("RC") == None by {
      assert !IsDigit("RC"[0]);
    }
  }

  /** "alpha" ranks below "alpha.1": the identifiers tie until the shorter
      list runs out, and the longer text wins. */
  lemma ShorterPrereleaseFirst()
    ensures PrereleaseOrder("alpha", "alpha.1") < 0
  {
    SplitWhole("alpha", '.');
    SplitAlphaOne();
    AlphaWalk();
  }

  lemma SplitAlphaOne()
    ensures Split("alpha.1", '.') == ["alpha", "1"]
  {
    var ids: seq<string> := ["alpha", "1"];
    SplitJoin(ids, '.');
    assert Join(ids, '.') == "alpha.1";
  }

  /** The walk over alpha and alpha.1 ties once, then the lengths decide. */
  lemma AlphaWalk()
    ensures CompareIdentifierLists(["alpha"], ["alpha", "1"], 5, 7) < 0
  {
    var ids, otherIds: seq<string> := ["alpha"], ["alpha", "1"];
    assert NumericValue("alpha") == None by {
      assert !IsDigit("alpha"[0]);
    }
    CompareOrdinalZero(Upper("alpha"), Upper("alpha"));
    assert CompareIdentifiers(ids[0], otherIds[0]) == 0;
    assert ids[1..] == [];
  }

  /** "beta.2" ranks below "beta.11": numeric identifiers compare by value. */
  lemma NumericIdentifiersByValue()
    ensures PrereleaseOrder("beta.2", "beta.11") < 0
  {
    SplitsBeta();
    BetaWalk();
  }

  lemma SplitsBeta()
    ensures Split("beta.2", '.') == ["beta", "2"]
    ensures Split("beta.11", '.') == ["beta", "11"]
  {
    var two, eleven: seq<string> := ["beta", "2"], ["beta", "11"];
    SplitJoin(two, '.');
    assert Join(two, '.') == "beta.2";
    SplitJoin(eleven, '.');
    assert Join(eleven, '.') == "beta.11";
  }

  /** The walk over beta.2 and beta.11 ties once, then 2 < 11 decides. */
  lemma BetaWalk()
    ensures CompareIdentifierLists(["beta", "2"], ["beta", "11"], 6, 7) < 0
  {
    var ids, otherIds: seq<string> := ["beta", "2"], ["beta", "11"];
    assert NumericValue("beta") == None by {
      assert !IsDigit("beta"[0]);
    }
    var eleven: string := "11";
    assert Value(eleven) == 11 by {
      assert eleven[..1] == "1";
    }
    assert NumericValue("2") == Some(2);
    assert NumericValue(eleven) == Some(11);
    CompareOrdinalZero(Upper("beta"), Upper("beta"));
    assert CompareIdentifiers(ids[0], otherIds[0]) == 0;
    assert CompareIdentifiers(ids[1], otherIds[1]) == -1;
    assert ids[1..][0] == "2" && otherIds[1..][0] == eleven;
  }

  /** "rc.1.a" ranks above "rc.1.1": a non-numeric identifier ranks above a
      numeric one. */
  lemma AlphanumericAboveNumeric()
    ensures PrereleaseOrder("rc.1.a", "rc.1.1") > 0
  {
    SplitsRc();
    RcWalk();
  }

  lemma SplitsRc()
    ensures Split("rc.1.a", '.') == ["rc", "1", "a"]
    ensures Split("rc.1.1", '.') == ["rc", "1", "1"]
  {
    var ids, otherIds: seq<string> := ["rc", "1", "a"], ["rc", "1", "1"];
    SplitJoin(ids, '.');
    assert Join(ids, '.') == "rc.1.a";
    SplitJoin(otherIds, '.');
    assert Join(otherIds, '.') == "rc.1.1";
  }

  /** The walk over rc.1.a and rc.1.1 ties twice, then "a" beats "1". */
  lemma RcWalk()
    ensures CompareIdentifierLists(["rc", "1", "a"], ["rc", "1", "1"], 6, 6) > 0
  {
    var ids, otherIds: seq<string> := ["rc", "1", "a"], ["rc", "1", "1"];
    assert NumericValue("rc") == None by {
      assert !IsDigit("rc"[0]);
    }
    assert NumericValue("a") == None by {
      assert !IsDigit("a"[0]);
    }
    assert NumericValue("1") == Some(1);
    CompareOrdinalZero(Upper("rc"), Upper("rc"));
    assert CompareIdentifiers(ids[0], otherIds[0]) == 0;
    assert CompareIdentifiers(ids[1], otherIds[1]) == 0;
    assert CompareIdentifiers(ids[2], otherIds[2]) == 1;
    assert ids[1..][1..] == ["a"] && otherIds[1..][1..] == ["1"];
  }

  /** IsStable: 0.1.0 and 1.0.0-alpha are not stable; 1.0.0 and
      1.0.0+exp.sha.5114f85 are. */
  lemma StabilityExamples()
    ensures !Version(0, 1, 0, "", "").IsStable()
    ensures !Version(1, 0, 0, "alpha", "").IsStable()
    ensures Version(1, 0, 0, "", "").IsStable()
    ensures Version(1, 0, 0, "", "exp.sha.5114f85").IsStable()
  {
  }

  /** The "N" format drops the prerelease; a lower-case "n" is refused, as is
      an argument that is not a version. */
  lemma NumericFormatExamples(v: SemanticVersion)
    requires v == Version(1, 0, 0, "alpha", "")
    ensures Format(Some("N"), VersionArgument(v), None) == Returned("1.0.0")
    ensures Format(Some("n"), VersionArgument(v), None) == Thrown(FormatError)
    ensures Format(Some(""), OtherArgument, None) == Thrown(FormatError)
  {
    assert NatToString(1) == "1" && NatToString(0) == "0";
    assert NumericText(v) == "1" + "." + "0" + "." + "0" == "1.0.0";
  }

  /** GetFormat answers only for ICustomFormatter. */
  lemma GetFormatExamples()
    ensures GetFormat(CustomFormatterType) == Some(SemanticVersionFormat)
    ensures GetFormat(OtherType) == None
  {
  }
}

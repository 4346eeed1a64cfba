/** The grammar checks that construction applies to prerelease and build text
    (SemanticVersion.IsValidPrerelease, IsValidBuild and IsNumericString). */
module Validation {
  import opened Wrappers
  import opened Numbers
  import opened Ascii
  import opened Identifiers

  /** IsNumericString: the Int32 value of an identifier made only of ASCII
      digits, or None for anything else, including a digit run too large for
      Int32. */
  function NumericValue(segment: string): Option<Int32> {
    var parsed := TryParseInt32(segment);
    if parsed.Some? && parsed.value >= 0 then parsed else None
  }

  /** The leading-zero rule for one prerelease identifier, as the code words it:
      a numeric identifier is refused when its value is not zero yet it starts
      with '0', or when its value is zero yet it is longer than one digit. */
  predicate HasLeadingZero(segment: string) {
    match NumericValue(segment)
    case Some(value) =>
      (value != 0 && |segment| > 0 && segment[0] == '0') || (value == 0 && |segment| != 1)
    case None => false
  }

  /** The anchored class match ^[0-9A-Za-z\-\.]+$ used for both suffixes. */
  predicate MatchesPreOrBuild(s: string) {
    |s| > 0 && AllIdentifierChars(s)
  }

  /** A valid prerelease: empty, or free of "..", drawn from the identifier
      class, and without a numeric identifier that has a leading zero.
      A leading or trailing '.' is not refused. */
  predicate ValidPrerelease(prerelease: string) {
    || |prerelease| == 0
    || (&& !ContainsDoubleDot(prerelease)
        && MatchesPreOrBuild(prerelease)
        && forall i :: 0 <= i < |Split(prerelease, '.')| ==> !HasLeadingZero(Split(prerelease, '.')[i]))
  }

  /** IsValidBuild: the prerelease rules without the leading-zero rule. */
  predicate IsValidBuild(build: string) {
    || build == ""
    || (!ContainsDoubleDot(build) && MatchesPreOrBuild(build))
  }

  /** IsValidPrerelease: the checks in the code's order, with the identifiers
      (the caller's split of the text) walked one at a time. */
  method IsValidPrerelease(prerelease: string, identifiers: seq<string>) returns (valid: bool)
    requires identifiers == Split(prerelease, '.')
    ensures valid == ValidPrerelease(prerelease)
  {
    if |prerelease| == 0 {
      return true;
    }
    if ContainsDoubleDot(prerelease) {
      return false;
    }
    if !MatchesPreOrBuild(prerelease) {
      return false;
    }
    for i := 0 to |identifiers|
      invariant forall j :: 0 <= j < i ==> !HasLeadingZero(identifiers[j])
    {
      var segment := identifiers[i];
      var value := NumericValue(segment);
      if value.Some? &&
         ((value.value != 0 && |segment| > 0 && segment[0] == '0') ||
          (value.value == 0 && |segment| != 1)) {
        return false;
      }
    }
    return true;
  }

  /** The leading-zero rule refuses exactly the numeric identifiers that are
      not the decimal text of their own value: "0" passes, "00" and "01" do not. */
  lemma LeadingZeroRule(segment: string)
    ensures HasLeadingZero(segment) <==>
      NumericValue(segment).Some? && segment != NatToString(NumericValue(segment).value)
  {
    if NumericValue(segment).Some? {
      CanonicalIffPrinted(segment);
      if segment[0] == '0' && |segment| > 1 {
        ValueAtLeastLeadingDigit(segment[1..]);
        assert Value(segment) == Value(segment[1..]) by {
          LeadingZeroValue(segment);
        }
      }
    }
  }

  lemma {:induction false} LeadingZeroValue(s: string)
    requires |s| > 0 && AllDigits(s) && s[0] == '0'
    ensures Value(s) == Value(s[1..])
    decreases |s|
  {
    if |s| > 1 {
      LeadingZeroValue(s[..|s| - 1]);
      assert s[..|s| - 1][1..] == s[1..][..|s[1..]| - 1];
    }
  }

  /** A valid prerelease is a valid build: the build rules are the prerelease
      rules without the leading-zero rule. */
  lemma PrereleaseRulesIncludeBuildRules(text: string)
    ensures ValidPrerelease(text) ==> IsValidBuild(text)
    ensures IsValidBuild(text) <==> ValidPrerelease(text) || (text != "" && !ContainsDoubleDot(text) && MatchesPreOrBuild(text))
  {
  }

  /** Every numeric identifier of a valid prerelease is the decimal text of
      its value, and no identifier holds a '.' or a character outside the class. */
  lemma ValidPrereleaseIdentifiers(prerelease: string)
    requires ValidPrerelease(prerelease)
    ensures forall i :: 0 <= i < |Split(prerelease, '.')| ==>
      var id := Split(prerelease, '.')[i];
      && AllIdentifierChars(id)
      && '.' !in id
      && (NumericValue(id).Some? ==> id == NatToString(NumericValue(id).value))
  {
    var ids := Split(prerelease, '.');
    forall i | 0 <= i < |ids|
      ensures AllIdentifierChars(ids[i])
      ensures NumericValue(ids[i]).Some? ==> ids[i] == NatToString(NumericValue(ids[i]).value)
    {
      if prerelease != "" {
        LeadingZeroRule(ids[i]);
        PiecesOfClassText(prerelease, i);
      }
    }
  }

  /** The pieces of text drawn from the identifier class are drawn from it too. */
  lemma {:induction false} PiecesOfClassText(s: string, i: nat)
    requires AllIdentifierChars(s) && i < |Split(s, '.')|
    ensures AllIdentifierChars(Split(s, '.')[i])
    decreases |s|
  {
    if s != [] {
      var rest := Split(s[1..], '.');
      if s[0] == '.' {
        if i > 0 {
          PiecesOfClassText(s[1..], i - 1);
        }
      } else if i == 0 {
        PiecesOfClassText(s[1..], 0);
      } else {
        PiecesOfClassText(s[1..], i);
      }
    }
  }

  /** Non-empty class identifiers without leading zeros, joined with '.',
      make a valid prerelease whose identifiers are those pieces again. */
  lemma ValidPrereleaseFromIdentifiers(ids: seq<string>)
    requires |ids| >= 1
    requires forall i :: 0 <= i < |ids| ==>
      ids[i] != "" && AllIdentifierChars(ids[i]) && '.' !in ids[i] && !HasLeadingZero(ids[i])
    ensures Split(Join(ids, '.'), '.') == ids
    ensures ValidPrerelease(Join(ids, '.'))
  {
    SplitJoin(ids, '.');
    JoinOfIdentifiers(ids);
  }

  /** A join of non-empty dot-free class pieces is class text, starts with
      its first piece's first character, and has no "..". */
  lemma {:induction false} JoinOfIdentifiers(ids: seq<string>)
    requires |ids| >= 1
    requires forall i :: 0 <= i < |ids| ==> ids[i] != "" && AllIdentifierChars(ids[i]) && '.' !in ids[i]
    ensures var s := Join(ids, '.');
      |s| > 0 && s[0] == ids[0][0] && AllIdentifierChars(s) && !ContainsDoubleDot(s)
    decreases |ids|
  {
    if |ids| > 1 {
      JoinOfIdentifiers(ids[1..]);
      var head, rest := ids[0], Join(ids[1..], '.');
      var s := head + ['.'] + rest;
      assert Join(ids, '.') == s;
      forall k | 0 <= k < |s|
        ensures IsIdentifierChar(s[k])
      {
        if k > |head| {
          assert s[k] == rest[k - |head| - 1];
        }
      }
    }
  }
}

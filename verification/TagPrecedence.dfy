/** Whether the order of release tags in `scripts/resolve-previous-release-tag.ts` is that of Semantic
    Versioning 2.0.0, which compares identifiers in ASCII order where the code uses a collation. */
module TagPrecedence {
  import opened ReleaseTags
  import opened Text
  import opened Wrappers

  /** The order of section 11.4.2: by the first characters that differ. */
  function Ascii(a: string, b: string): int {
    if a == b then 0 else if StringLe(a, b) then -1 else 1
  }

  lemma AsciiOrdered()
    ensures IsPreorder(Ascii)
  {
    hide StringLe;
    forall a, b ensures Ascii(a, b) < 0 <==> Ascii(b, a) > 0 {
      StringLeTotal(a, b);
    }
    forall a, b, c | Ascii(a, b) <= 0 && Ascii(b, c) <= 0 ensures Ascii(a, c) <= 0 {
      if a != b && b != c {
        StringLeTransitive(a, b, c);
      }
    }
  }

  predicate IsNumeric(identifier: string) {
    ParseNumericIdentifier(identifier).Some?
  }

  /** `[0-9A-Za-z-]*`: what stands between the dots of a prerelease. */
  predicate IsTagIdentifier(x: string) {
    forall c :: c in x ==> IsIdentifierChar(c) && c != '.'
  }

  /** The collation orders the non-numeric identifiers of tags as the standard does. */
  ghost predicate AgreesWithAscii(locale: Collation) {
    forall x, y :: IsTagIdentifier(x) && IsTagIdentifier(y) && !IsNumeric(x) && !IsNumeric(y) ==>
      (locale(x, y) < 0 <==> Ascii(x, y) < 0)
  }

  ghost predicate OrdersTagsByStandard(locale: Collation) {
    forall t, u :: ParseStableTag(t).Some? && ParseStableTag(u).Some? ==>
      (CompareStable(locale, ParseStableTag(t).value, ParseStableTag(u).value) < 0 <==>
       HasLowerPrecedence(Ascii, ParseStableTag(t).value, ParseStableTag(u).value))
  }

  /** The code orders all stable tags by the precedence of the standard exactly when the collation
      agrees with the standard on the non-numeric identifiers that tags can have. */
  lemma ComparisonIsStandardExactly(locale: Collation)
    requires IsPreorder(locale)
    ensures OrdersTagsByStandard(locale) <==> AgreesWithAscii(locale)
  {
    hide AgreesWithAscii, Ascii, CompareStable, IsPreorder, HasLowerPrecedence, ParseStableTag;
    hide IsNumeric, IsTagIdentifier;
    if AgreesWithAscii(locale) {
      forall t, u | ParseStableTag(t).Some? && ParseStableTag(u).Some?
        ensures CompareStable(locale, ParseStableTag(t).value, ParseStableTag(u).value) < 0 <==>
                HasLowerPrecedence(Ascii, ParseStableTag(t).value, ParseStableTag(u).value)
      {
        ParsedIdentifiers(t);
        ParsedIdentifiers(u);
        ComparisonIsPrecedence(locale, ParseStableTag(t).value, ParseStableTag(u).value);
        SamePrecedence(locale, ParseStableTag(t).value, ParseStableTag(u).value);
      }
    }
    IdentifiersInOrder(locale);
  }

  lemma IdentifiersInOrder(locale: Collation)
    requires IsPreorder(locale)
    ensures OrdersTagsByStandard(locale) ==> AgreesWithAscii(locale)
  {
    hide Ascii, CompareStable, IsPreorder, HasLowerPrecedence, ParseStableTag, IsNumeric, IsTagIdentifier;
    forall x, y |
      && OrdersTagsByStandard(locale)
      && IsTagIdentifier(x) && IsTagIdentifier(y) && !IsNumeric(x) && !IsNumeric(y)
      ensures locale(x, y) < 0 <==> Ascii(x, y) < 0
    {
      TagAfterA(x);
      TagAfterA(y);
      AfterTheSame(locale, ["a"], x, y);
      assert ["a"] + [x] == ["a", x] && ["a"] + [y] == ["a", y];
      var t, u := "v1.0.0-" + ("a." + x), "v1.0.0-" + ("a." + y);
      assert CompareStable(locale, ParseStableTag(t).value, ParseStableTag(u).value) < 0 <==>
          HasLowerPrecedence(Ascii, ParseStableTag(t).value, ParseStableTag(u).value);
    }
  }

  lemma ParsedIdentifiers(tag: string)
    requires ParseStableTag(tag).Some?
    ensures forall x :: x in ParseStableTag(tag).value.prerelease ==> IsTagIdentifier(x)
  {
    var g := MatchStable(tag).value;
    MatchStableExact(tag, g);
    hide MatchStable;
    if g.prerelease.Some? {
      SplitPieces(g.prerelease.value, '.');
    }
  }

  /** Version 1.0.0 with prerelease identifiers. */
  function Prerelease(identifiers: seq<string>): StableVersion {
    StableVersion(1, 0, 0, identifiers)
  }

  lemma PrereleaseTag(prerelease: string)
    requires IsIdentifiers(prerelease) && SplitOn(prerelease, '.')[0] != "nightly"
    ensures ParseStableTag("v1.0.0-" + prerelease) == Some(Prerelease(SplitOn(prerelease, '.')))
  {
    hide MatchStable, SplitOn, IsIdentifiers;
    var core := Core("1", "0", "0");
    var g := StableGroups(core, Some(prerelease), None);
    SmallNumbers();
    hide ToNat;
    assert core.Print() == "v1.0.0";
    assert g.Print() == "v1.0.0-" + prerelease;
    MatchStableExact("v1.0.0-" + prerelease, g);
  }

  lemma SmallNumbers()
    ensures IsNumber("0") && IsNumber("1") && IsNumber("9")
    ensures ToNat("0") == 0 && ToNat("1") == 1 && ToNat("9") == 9
  {
    assert "0"[..0] == "" && "1"[..0] == "" && "9"[..0] == "";
  }

  lemma TagAfterA(x: string)
    requires IsTagIdentifier(x)
    ensures ParseStableTag("v1.0.0-" + ("a." + x)) == Some(Prerelease(["a", x]))
  {
    var prerelease := "a." + x;
    assert IsIdentifiers(prerelease) by {
      assert forall k :: 2 <= k < |prerelease| ==> prerelease[k] == x[k - 2] && prerelease[k] in x;
    }
    assert "a" + ['.'] + x == prerelease;
    SplitHead("a", '.', x);
    SplitHead(x, '.', "");
    hide SplitOn, IsIdentifiers, ParseStableTag;
    assert SplitOn(prerelease, '.') == ["a", x];
    PrereleaseTag(prerelease);
  }

  lemma SamePrecedence(locale: Collation, a: StableVersion, b: StableVersion)
    requires forall x :: x in a.prerelease || x in b.prerelease ==> IsTagIdentifier(x)
    ensures AgreesWithAscii(locale) ==> (HasLowerPrecedence(locale, a, b) <==> HasLowerPrecedence(Ascii, a, b))
  {
    hide Ascii, BelowAt, ParseNumericIdentifier, IsTagIdentifier, AgreesWithAscii;
    forall k: nat | AgreesWithAscii(locale)
      ensures BelowAt(locale, a.prerelease, b.prerelease, k) <==> BelowAt(Ascii, a.prerelease, b.prerelease, k)
    {
      SameBelow(locale, a.prerelease, b.prerelease, k);
    }
  }

  lemma SameBelow(locale: Collation, a: seq<string>, b: seq<string>, k: nat)
    requires forall x :: x in a || x in b ==> IsTagIdentifier(x)
    ensures AgreesWithAscii(locale) ==> (BelowAt(locale, a, b, k) <==> BelowAt(Ascii, a, b, k))
  {
    hide IdentifierBelow, IdentifierSame, AgreesWithAscii, Ascii, IsTagIdentifier;
    forall i | 0 <= i < |a| && i < |b| && AgreesWithAscii(locale)
      ensures IdentifierBelow(locale, a[i], b[i]) <==> IdentifierBelow(Ascii, a[i], b[i])
      ensures IdentifierSame(locale, a[i], b[i]) <==> IdentifierSame(Ascii, a[i], b[i])
    {
      assert a[i] in a && b[i] in b;
      SameIdentifiers(locale, a[i], b[i]);
    }
  }

  lemma SameIdentifiers(locale: Collation, x: string, y: string)
    requires IsTagIdentifier(x) && IsTagIdentifier(y)
    ensures AgreesWithAscii(locale) ==>
              && (IdentifierBelow(locale, x, y) <==> IdentifierBelow(Ascii, x, y))
              && (IdentifierSame(locale, x, y) <==> IdentifierSame(Ascii, x, y))
  {
    hide Ascii, AllDigits, ToNat, IsTagIdentifier;
  }

  /** After the same identifiers, two non-numeric ones decide. */
  lemma AfterTheSame(locale: Collation, before: seq<string>, x: string, y: string)
    requires IsPreorder(locale) && !IsNumeric(x) && !IsNumeric(y)
    requires before == [] || before == ["a"]
    ensures CompareStable(locale, Prerelease(before + [x]), Prerelease(before + [y])) < 0 <==> locale(x, y) < 0
    ensures HasLowerPrecedence(Ascii, Prerelease(before + [x]), Prerelease(before + [y])) <==> Ascii(x, y) < 0
  {
    AsciiOrdered();
    ComparisonIsPrecedence(Ascii, Prerelease(before + [x]), Prerelease(before + [y]));
    hide StringLe, Ascii, HasLowerPrecedence;
    OneIdentifier(locale, before, x, y);
    OneIdentifier(Ascii, before, x, y);
  }

  lemma OneIdentifier(locale: Collation, before: seq<string>, x: string, y: string)
    requires IsPreorder(locale) && !IsNumeric(x) && !IsNumeric(y)
    requires before == [] || before == ["a"]
    ensures CompareStable(locale, Prerelease(before + [x]), Prerelease(before + [y])) == locale(x, y)
  {
    hide ToNat, AllDigits;
    LastIdentifier(locale, x, y);
    if before == [] {
      assert [] + [x] == [x] && [] + [y] == [y];
    } else {
      IdentifiersFlip(locale, "a", "a");
      assert ["a", x][1..] == [x] && ["a", y][1..] == [y];
      assert ["a"] + [x] == ["a", x] && ["a"] + [y] == ["a", y];
      assert CompareLists(locale, ["a", x], ["a", y]) == CompareLists(locale, [x], [y]);
    }
  }

  lemma LastIdentifier(locale: Collation, x: string, y: string)
    requires !IsNumeric(x) && !IsNumeric(y)
    ensures CompareLists(locale, [x], [y]) == locale(x, y)
  {
    hide ToNat, AllDigits;
    assert [x][1..] == [] && [y][1..] == [];
    assert CompareIdentifiers(locale, x, y) == locale(x, y);
    assert CompareLists(locale, [], []) == 0;
  }

  /** A collation that ignores letter case, as ordinary locales do before they look at it. */
  function CaseBlind(a: string, b: string): int {
    Ascii(ToLower(a), ToLower(b))
  }

  lemma CaseBlindOrdered()
    ensures IsPreorder(CaseBlind)
  {
    AsciiOrdered();
    hide Ascii, ToLower;
    assert forall a, b :: CaseBlind(a, b) < 0 <==> CaseBlind(b, a) > 0;
  }

  lemma FirstCharactersDecide(a: string, b: string)
    requires a != "" && b != "" && b[0] < a[0] && LowerChar(a[0]) < LowerChar(b[0])
    ensures CaseBlind(a, b) < 0 && Ascii(b, a) < 0 && Ascii(a, b) > 0
  {
    assert ToLower(a)[0] == LowerChar(a[0]) && ToLower(b)[0] == LowerChar(b[0]);
    assert !StringLe(a, b) && a != b;
    assert Ascii(a, b) == 1;
  }

  lemma EarlierTag()
    ensures ParseStableTag("v0.9.0") == Some(StableVersion(0, 9, 0, []))
  {
    SmallNumbers();
    hide ToNat, MatchStable;
    var g := StableGroups(Core("0", "9", "0"), None, None);
    assert g.Print() == "v0.9.0";
    MatchStableExact("v0.9.0", g);
  }

  lemma OnePrereleaseTag(x: string)
    requires IsTagIdentifier(x) && x != "" && x != "nightly"
    ensures ParseStableTag("v1.0.0-" + x) == Some(Prerelease([x]))
  {
    hide ParseStableTag, SplitOn;
    assert forall k :: 0 <= k < |x| ==> x[k] in x;
    SplitHead(x, '.', "");
    PrereleaseTag(x);
  }

  lemma ThreeTags()
    ensures ParseStableTag("v0.9.0") == Some(StableVersion(0, 9, 0, []))
    ensures ParseStableTag("v1.0.0-beta") == Some(Prerelease(["beta"]))
    ensures ParseStableTag("v1.0.0-RC") == Some(Prerelease(["RC"]))
  {
    hide ParseStableTag;
    EarlierTag();
    assert "v1.0.0-beta" == "v1.0.0-" + "beta" && "v1.0.0-RC" == "v1.0.0-" + "RC";
    OnePrereleaseTag("beta");
    OnePrereleaseTag("RC");
  }

  /** An input on which the two differ: with a collation that ignores letter case, 1.0.0-beta comes
      before 1.0.0-RC, and by the standard after it. */
  lemma CollationsDisagree()
    ensures IsPreorder(CaseBlind)
    ensures CompareStable(CaseBlind, Prerelease(["beta"]), Prerelease(["RC"])) < 0
    ensures HasLowerPrecedence(Ascii, Prerelease(["RC"]), Prerelease(["beta"]))
    ensures !HasLowerPrecedence(Ascii, Prerelease(["beta"]), Prerelease(["RC"]))
  {
    CaseBlindOrdered();
    AsciiOrdered();
    assert !IsNumeric("beta") && !IsNumeric("RC") by {
      assert !IsDigit("beta"[0]) && !IsDigit("RC"[0]);
    }
    FirstCharactersDecide("beta", "RC");
    hide Ascii, IsNumeric, CompareStable, HasLowerPrecedence, IsPreorder;
    assert [] + ["beta"] == ["beta"] && [] + ["RC"] == ["RC"];
    AfterTheSame(CaseBlind, [], "beta", "RC");
    AfterTheSame(CaseBlind, [], "RC", "beta");
  }

  lemma PreviousOfTwo(locale: Collation, current: string, t: string, u: string)
    requires IsPreorder(locale) && IsRelease(Stable, current) && Precedes(locale, Stable, t, current)
    ensures !Precedes(locale, Stable, u, current) ==>
              ResolvePreviousReleaseTag(locale, Stable, current, [t, u]) == Ok(Some(t))
    ensures Precedes(locale, Stable, u, current) && Precedes(locale, Stable, t, u) ==>
              ResolvePreviousReleaseTag(locale, Stable, current, [t, u]) == Ok(Some(u))
  {
    hide ResolvePreviousReleaseTag, Precedes, IsRelease, IsPreorder;
    var tags := [t, u];
    assert tags[0] == t && tags[1] == u && t in tags;
    ResolveMeaning(locale, Stable, current, tags);
    var result := ResolvePreviousReleaseTag(locale, Stable, current, tags);
    var i: nat :| IsPreviousRelease(locale, Stable, current, tags, i) && result.value.value == tags[i];
    assert i == 0 || i == 1;
  }

  /** ... which shows in the answer: the release before v1.0.0-RC is then v1.0.0-beta, and by the
      standard v0.9.0. */
  lemma CollationsResolveDifferently()
    ensures var tags := ["v0.9.0", "v1.0.0-beta"];
            && ResolvePreviousReleaseTag(CaseBlind, Stable, "v1.0.0-RC", tags) == Ok(Some("v1.0.0-beta"))
            && ResolvePreviousReleaseTag(Ascii, Stable, "v1.0.0-RC", tags) == Ok(Some("v0.9.0"))
  {
    ThreeTags();
    AsciiOrdered();
    CollationsDisagree();
    ComparisonIsPrecedence(CaseBlind, Prerelease(["beta"]), Prerelease(["RC"]));
    hide ParseStableTag, CompareStable, Ascii, CaseBlind, IsPreorder, ResolvePreviousReleaseTag;
    PreviousOfTwo(CaseBlind, "v1.0.0-RC", "v0.9.0", "v1.0.0-beta");
    PreviousOfTwo(Ascii, "v1.0.0-RC", "v0.9.0", "v1.0.0-beta");
  }
}

/** Which release tag precedes a given one (`scripts/resolve-previous-release-tag.ts`): the two tag
    formats, the order of versions on each channel, and the choice among a listing of tags. The
    collation of strings, `localeCompare`, is a parameter. */
module ReleaseTags {
  import opened Text
  import opened Wrappers

  // ---------- comparisons ----------

  /** `compare` orders its arguments: it changes sign when they are swapped and is transitive.
      Different values may compare as equal. */
  ghost predicate IsPreorder<V(!new)>(compare: (V, V) -> int) {
    && (forall a, b :: compare(a, b) < 0 <==> compare(b, a) > 0)
    && (forall a, b, c :: compare(a, b) <= 0 && compare(b, c) <= 0 ==> compare(a, c) <= 0)
  }

  datatype StableVersion = StableVersion(major: nat, minor: nat, patch: nat, prerelease: seq<string>)

  datatype NightlyVersion = NightlyVersion(major: nat, minor: nat, patch: nat, date: nat, runNumber: nat)

  type Collation = (string, string) -> int

  function ParseNumericIdentifier(identifier: string): Option<nat> {
    if identifier != "" && AllDigits(identifier) then Some(ToNat(identifier)) else None
  }

  function CompareIdentifiers(locale: Collation, left: string, right: string): int {
    var l, r := ParseNumericIdentifier(left), ParseNumericIdentifier(right);
    if l.Some? && r.Some? then l.value - r.value
    else if l.Some? then -1
    else if r.Some? then 1
    else locale(left, right)
  }

  function CompareLists(locale: Collation, left: seq<string>, right: seq<string>): int {
    if left == [] && right == [] then 0
    else if left == [] then -1
    else if right == [] then 1
    else
      var comparison := CompareIdentifiers(locale, left[0], right[0]);
      if comparison != 0 then comparison else CompareLists(locale, left[1..], right[1..])
  }

  function CompareStable(locale: Collation, left: StableVersion, right: StableVersion): int {
    if left.major != right.major then left.major - right.major
    else if left.minor != right.minor then left.minor - right.minor
    else if left.patch != right.patch then left.patch - right.patch
    else if left.prerelease == [] && right.prerelease == [] then 0
    else if left.prerelease == [] then 1
    else if right.prerelease == [] then -1
    else CompareLists(locale, left.prerelease, right.prerelease)
  }

  method CompareStableVersions(locale: Collation, left: StableVersion, right: StableVersion)
    returns (result: int)
    ensures result == CompareStable(locale, left, right)
  {
    if left.major != right.major { return left.major - right.major; }
    if left.minor != right.minor { return left.minor - right.minor; }
    if left.patch != right.patch { return left.patch - right.patch; }
    if left.prerelease == [] && right.prerelease == [] { return 0; }
    if left.prerelease == [] { return 1; }
    if right.prerelease == [] { return -1; }
    var l, r := left.prerelease, right.prerelease;
    var maxLength := if |l| > |r| then |l| else |r|;
    var index := 0;
    while index < maxLength
      invariant index <= |l| && index <= |r|
      invariant CompareLists(locale, l, r) == CompareLists(locale, l[index..], r[index..])
    {
      if index >= |l| { return -1; }
      if index >= |r| { return 1; }
      var comparison := CompareIdentifiers(locale, l[index], r[index]);
      if comparison != 0 { return comparison; }
      assert l[index..][1..] == l[index + 1..] && r[index..][1..] == r[index + 1..];
      index := index + 1;
    }
    return 0;
  }

  function CompareNightly(left: NightlyVersion, right: NightlyVersion): int {
    if left.major != right.major then left.major - right.major
    else if left.minor != right.minor then left.minor - right.minor
    else if left.patch != right.patch then left.patch - right.patch
    else if left.date != right.date then left.date - right.date
    else left.runNumber - right.runNumber
  }

  // ---------- the comparisons are orders ----------

  lemma {:induction false} ListsFlip(locale: Collation, a: seq<string>, b: seq<string>)
    requires IsPreorder(locale)
    ensures CompareLists(locale, a, b) < 0 <==> CompareLists(locale, b, a) > 0
    ensures CompareLists(locale, a, b) == 0 <==> CompareLists(locale, b, a) == 0
    decreases |a|
  {
    if a == [] || b == [] {
    } else {
      IdentifiersFlip(locale, a[0], b[0]);
      ListsFlip(locale, a[1..], b[1..]);
    }
  }

  lemma IdentifiersFlip(locale: Collation, a: string, b: string)
    requires IsPreorder(locale)
    ensures CompareIdentifiers(locale, a, b) < 0 <==> CompareIdentifiers(locale, b, a) > 0
    ensures CompareIdentifiers(locale, b, a) < 0 <==> CompareIdentifiers(locale, a, b) > 0
  {
    hide ToNat, AllDigits;
  }

  lemma IdentifiersTransitive(locale: Collation, a: string, b: string, c: string)
    requires IsPreorder(locale)
    requires CompareIdentifiers(locale, a, b) <= 0 && CompareIdentifiers(locale, b, c) <= 0
    ensures CompareIdentifiers(locale, a, c) <= 0
    ensures CompareIdentifiers(locale, a, c) == 0 ==>
              CompareIdentifiers(locale, a, b) == 0 && CompareIdentifiers(locale, b, c) == 0
  {
    hide ToNat, AllDigits;
    assert locale(c, a) <= 0 && locale(a, b) <= 0 ==> locale(c, b) <= 0;
    assert locale(b, c) <= 0 && locale(c, a) <= 0 ==> locale(b, a) <= 0;
  }

  lemma {:induction false} ListsTransitive(locale: Collation, a: seq<string>, b: seq<string>, c: seq<string>)
    requires IsPreorder(locale)
    requires CompareLists(locale, a, b) <= 0 && CompareLists(locale, b, c) <= 0
    ensures CompareLists(locale, a, c) <= 0
    decreases |a|
  {
    hide IsPreorder, CompareIdentifiers;
    if a == [] || b == [] || c == [] {
    } else {
      IdentifiersTransitive(locale, a[0], b[0], c[0]);
      if CompareIdentifiers(locale, a[0], c[0]) == 0 {
        ListsTransitive(locale, a[1..], b[1..], c[1..]);
      }
    }
  }

  lemma StableOrdered(locale: Collation)
    requires IsPreorder(locale)
    ensures IsPreorder((l: StableVersion, r: StableVersion) => CompareStable(locale, l, r))
  {
    forall a: StableVersion, b: StableVersion
      ensures CompareStable(locale, a, b) < 0 <==> CompareStable(locale, b, a) > 0
    {
      ListsFlip(locale, a.prerelease, b.prerelease);
    }
    forall a: StableVersion, b: StableVersion, c: StableVersion
      | CompareStable(locale, a, b) <= 0 && CompareStable(locale, b, c) <= 0
      ensures CompareStable(locale, a, c) <= 0
    {
      if CompareLists(locale, a.prerelease, b.prerelease) <= 0
         && CompareLists(locale, b.prerelease, c.prerelease) <= 0
      {
        ListsTransitive(locale, a.prerelease, b.prerelease, c.prerelease);
      }
    }
  }

  /** Nightly versions come in the order of their numbers, then of their dates, then of their runs. */
  predicate IsEarlierNightly(a: NightlyVersion, b: NightlyVersion) {
    || a.major < b.major
    || (a.major == b.major && a.minor < b.minor)
    || (a.major == b.major && a.minor == b.minor && a.patch < b.patch)
    || (a.major == b.major && a.minor == b.minor && a.patch == b.patch && a.date < b.date)
    || (a.major == b.major && a.minor == b.minor && a.patch == b.patch && a.date == b.date
        && a.runNumber < b.runNumber)
  }

  /** Nightly versions are totally ordered: only equal ones compare as equal, and earlier ones below. */
  lemma NightlyOrdered()
    ensures IsPreorder(CompareNightly)
    ensures forall a, b :: CompareNightly(a, b) == 0 <==> a == b
    ensures forall a, b :: CompareNightly(a, b) < 0 <==> IsEarlierNightly(a, b)
  {
  }

  // ---------- precedence as Semantic Versioning 2.0.0 defines it, section 11 ----------

  /** Section 11.4.1 to 11.4.3: numeric identifiers by value and below all others, the others in
      the order of strings. The standard fixes that order; here it is a parameter. */
  ghost predicate IdentifierBelow(locale: Collation, a: string, b: string) {
    var l, r := ParseNumericIdentifier(a), ParseNumericIdentifier(b);
    || (l.Some? && r.Some? && l.value < r.value)
    || (l.Some? && r.None?)
    || (l.None? && r.None? && locale(a, b) < 0)
  }

  ghost predicate IdentifierSame(locale: Collation, a: string, b: string) {
    !IdentifierBelow(locale, a, b) && !IdentifierBelow(locale, b, a)
  }

  /** Section 11.4: the first `k` identifiers have the same precedence, and the next one is lower
      or, section 11.4.4, missing. */
  ghost predicate BelowAt(locale: Collation, a: seq<string>, b: seq<string>, k: nat) {
    && k <= |a| && k < |b|
    && (forall i :: 0 <= i < k ==> IdentifierSame(locale, a[i], b[i]))
    && (k == |a| || IdentifierBelow(locale, a[k], b[k]))
  }

  ghost predicate HasLowerPrecedence(locale: Collation, a: StableVersion, b: StableVersion) {
    || a.major < b.major
    || (a.major == b.major && a.minor < b.minor)
    || (a.major == b.major && a.minor == b.minor && a.patch < b.patch)
    || (a.major == b.major && a.minor == b.minor && a.patch == b.patch && a.prerelease != [] &&
        (b.prerelease == [] || exists k: nat :: BelowAt(locale, a.prerelease, b.prerelease, k)))
  }

  lemma IdentifierMeaning(locale: Collation, a: string, b: string)
    requires IsPreorder(locale)
    ensures CompareIdentifiers(locale, a, b) < 0 <==> IdentifierBelow(locale, a, b)
    ensures CompareIdentifiers(locale, a, b) == 0 <==> IdentifierSame(locale, a, b)
  {
    hide ToNat, AllDigits;
  }

  lemma {:induction false} ListsMeaning(locale: Collation, a: seq<string>, b: seq<string>)
    requires IsPreorder(locale)
    ensures CompareLists(locale, a, b) < 0 <==> exists k: nat :: BelowAt(locale, a, b, k)
    decreases |a|
  {
    hide IsPreorder, CompareIdentifiers, IdentifierBelow, IdentifierSame;
    if a == [] {
      assert b != [] ==> BelowAt(locale, a, b, 0);
    } else if b != [] {
      IdentifierMeaning(locale, a[0], b[0]);
      ListsMeaning(locale, a[1..], b[1..]);
      BelowAtFront(locale, a, b);
      assert !(IdentifierBelow(locale, a[0], b[0]) && IdentifierSame(locale, a[0], b[0]));
      if CompareLists(locale, a[1..], b[1..]) < 0 {
        var k: nat :| BelowAt(locale, a[1..], b[1..], k);
        BelowShift(locale, a, b, k);
      }
      if k: nat :| BelowAt(locale, a, b, k) && k > 0 {
        BelowShift(locale, a, b, k - 1);
      }
    }
  }

  lemma BelowAtFront(locale: Collation, a: seq<string>, b: seq<string>)
    requires a != [] && b != []
    ensures BelowAt(locale, a, b, 0) <==> IdentifierBelow(locale, a[0], b[0])
  {
  }

  lemma BelowShift(locale: Collation, a: seq<string>, b: seq<string>, k: nat)
    requires a != [] && b != []
    ensures BelowAt(locale, a, b, k + 1) <==>
            IdentifierSame(locale, a[0], b[0]) && BelowAt(locale, a[1..], b[1..], k)
  {
    hide IdentifierSame, IdentifierBelow;
    var x, y := a[1..], b[1..];
    assert k < |x| && k < |y| ==> a[k + 1] == x[k] && b[k + 1] == y[k];
    if BelowAt(locale, x, y, k) && IdentifierSame(locale, a[0], b[0]) {
      forall i | 0 <= i < k + 1
        ensures IdentifierSame(locale, a[i], b[i])
      {
        assert i > 0 ==> a[i] == x[i - 1] && b[i] == y[i - 1];
      }
    }
    if BelowAt(locale, a, b, k + 1) {
      forall i | 0 <= i < k
        ensures IdentifierSame(locale, x[i], y[i])
      {
        assert a[i + 1] == x[i] && b[i + 1] == y[i];
      }
    }
  }

  /** The comparison is the precedence that uses the order of strings that the code uses. */
  lemma ComparisonIsPrecedence(locale: Collation, a: StableVersion, b: StableVersion)
    requires IsPreorder(locale)
    ensures CompareStable(locale, a, b) < 0 <==> HasLowerPrecedence(locale, a, b)
    ensures CompareStable(locale, a, b) > 0 <==> HasLowerPrecedence(locale, b, a)
  {
    hide IsPreorder, CompareLists, BelowAt;
    ListsMeaning(locale, a.prerelease, b.prerelease);
    ListsMeaning(locale, b.prerelease, a.prerelease);
    ListsFlip(locale, a.prerelease, b.prerelease);
  }

  // ---------- the tag formats ----------

  /** `[0-9A-Za-z.-]` */
  predicate IsIdentifierChar(c: char) {
    IsDigit(c) || 'A' <= c <= 'Z' || 'a' <= c <= 'z' || c == '.' || c == '-'
  }

  predicate IsIdentifiers(s: string) {
    s != "" && forall k :: 0 <= k < |s| ==> IsIdentifierChar(s[k])
  }

  predicate IsNumber(s: string) {
    s != "" && AllDigits(s)
  }

  /** How many characters at the front of `s` are identifier characters. */
  function IdentifierRun(s: string): (k: nat)
    ensures k <= |s| && forall j :: 0 <= j < k ==> IsIdentifierChar(s[j])
    ensures k < |s| ==> !IsIdentifierChar(s[k])
  {
    if s == "" || !IsIdentifierChar(s[0]) then 0 else 1 + IdentifierRun(s[1..])
  }

  /** The capture groups of `v(\d+)\.(\d+)\.(\d+)`. */
  datatype Core = Core(major: string, minor: string, patch: string) {
    predicate Valid() {
      IsNumber(major) && IsNumber(minor) && IsNumber(patch)
    }

    function Print(): string {
      "v" + (major + ("." + (minor + ("." + patch))))
    }
  }

  function TakeNumber(s: string): Option<(string, string)> {
    var k := DigitRun(s);
    if k == 0 then None else Some((s[..k], s[k..]))
  }

  function TakeDot(s: string): Option<string> {
    if s != "" && s[0] == '.' then Some(s[1..]) else None
  }

  function TakeNumberDot(s: string): Option<(string, string)> {
    var number := TakeNumber(s);
    if number.None? then None
    else
      var rest := TakeDot(number.value.1);
      if rest.None? then None else Some((number.value.0, rest.value))
  }

  /** The core at the front of a tag, and what follows it. */
  function TakeCore(tag: string): Option<(Core, string)> {
    if tag == "" || tag[0] != 'v' then None
    else
      var major := TakeNumberDot(tag[1..]);
      if major.None? then None
      else
        var minor := TakeNumberDot(major.value.1);
        if minor.None? then None
        else
          var patch := TakeNumber(minor.value.1);
          if patch.None? then None
          else Some((Core(major.value.0, minor.value.0, patch.value.0), patch.value.1))
  }

  /** The groups of a stable tag: the core, the prerelease after `-`, the build after `+`. */
  datatype StableGroups = StableGroups(core: Core, prerelease: Option<string>, build: Option<string>) {
    predicate Valid() {
      && core.Valid()
      && (prerelease.Some? ==> IsIdentifiers(prerelease.value))
      && (build.Some? ==> IsIdentifiers(build.value))
    }

    function Suffix(): string {
      (if prerelease.Some? then "-" + prerelease.value else "")
      + (if build.Some? then "+" + build.value else "")
    }

    function Print(): string {
      core.Print() + Suffix()
    }
  }

  /** `mark` and at least one identifier character. */
  function TakeIdentifiers(s: string, mark: char): (Option<string>, string) {
    if s == "" || s[0] != mark then (None, s)
    else
      var k := IdentifierRun(s[1..]);
      if k == 0 then (None, s) else (Some(s[1..k + 1]), s[k + 1..])
  }

  function MatchStable(tag: string): Option<StableGroups> {
    var core := TakeCore(tag);
    if core.None? then None
    else
      var (prerelease, afterPrerelease) := TakeIdentifiers(core.value.1, '-');
      var (build, rest) := TakeIdentifiers(afterPrerelease, '+');
      if rest == "" then Some(StableGroups(core.value.0, prerelease, build)) else None
  }

  function ParseStableTag(tag: string): Option<StableVersion> {
    var groups := MatchStable(tag);
    if groups.None? then None
    else StableOf(groups.value)
  }

  function StableOf(groups: StableGroups): Option<StableVersion> {
    var identifiers := if groups.prerelease.Some? then SplitOn(groups.prerelease.value, '.') else [];
    if identifiers != [] && identifiers[0] == "nightly" then None
    else if !groups.core.Valid() then None
    else Some(StableVersion(
           ToNat(groups.core.major), ToNat(groups.core.minor), ToNat(groups.core.patch), identifiers))
  }

  const LEGACY := "nightly-"
  const NIGHTLY := "-nightly."

  datatype NightlyGroups = NightlyGroups(legacy: bool, core: Core, date: string, runNumber: string) {
    predicate Valid() {
      core.Valid() && |date| == 8 && AllDigits(date) && IsNumber(runNumber)
    }

    function Print(): string {
      (if legacy then LEGACY else "") + (core.Print() + (NIGHTLY + (date + ("." + runNumber))))
    }
  }

  function MatchNightly(tag: string): Option<NightlyGroups> {
    var legacy := StartsWith(tag, LEGACY);
    var core := TakeCore(if legacy then tag[|LEGACY|..] else tag);
    if core.None? || !StartsWith(core.value.1, NIGHTLY) then None
    else
      var rest := core.value.1[|NIGHTLY|..];
      if |rest| < 10 || !AllDigits(rest[..8]) || rest[8] != '.' || !AllDigits(rest[9..]) then None
      else Some(NightlyGroups(legacy, core.value.0, rest[..8], rest[9..]))
  }

  function ParseNightlyTag(tag: string): Option<NightlyVersion> {
    var groups := MatchNightly(tag);
    if groups.None? || !groups.value.Valid() then None
    else
      var g := groups.value;
      Some(NightlyVersion(ToNat(g.core.major), ToNat(g.core.minor), ToNat(g.core.patch),
                          ToNat(g.date), ToNat(g.runNumber)))
  }

  lemma TakeNumberExact(s: string, number: string, rest: string)
    requires rest == "" || !IsDigit(rest[0])
    ensures TakeNumber(s) == Some((number, rest)) <==> IsNumber(number) && s == number + rest
  {
    if IsNumber(number) && s == number + rest {
      DigitRunIs(number, rest);
    }
    assert s == s[..DigitRun(s)] + s[DigitRun(s)..];
  }

  lemma TakeNumberParts(s: string)
    ensures TakeNumber(s).Some? ==>
              var (number, rest) := TakeNumber(s).value;
              IsNumber(number) && s == number + rest && (rest == "" || !IsDigit(rest[0]))
  {
  }

  lemma TakeNumberDotExact(s: string, number: string, rest: string)
    ensures TakeNumberDot(s) == Some((number, rest)) <==> IsNumber(number) && s == number + ("." + rest)
  {
    TakeNumberExact(s, number, "." + rest);
    TakeNumberParts(s);
    hide TakeNumber;
  }

  lemma TakeCoreExact(tag: string, core: Core, rest: string)
    requires rest == "" || !IsDigit(rest[0])
    ensures TakeCore(tag) == Some((core, rest)) <==> core.Valid() && tag == core.Print() + rest
  {
    var afterMinor := core.patch + rest;
    var afterMajor := core.minor + ("." + afterMinor);
    var afterV := core.major + ("." + afterMajor);
    assert core.Print() + rest == "v" + afterV;
    hide Core.Print, TakeNumber, TakeNumberDot, IsNumber;
    var t := if tag == "" then "" else tag[1..];
    TakeNumberDotExact(t, core.major, afterMajor);
    TakeNumberDotExact(afterMajor, core.minor, afterMinor);
    TakeNumberExact(afterMinor, core.patch, rest);
    assert tag == "v" + afterV <==> tag != "" && tag[0] == 'v' && t == afterV;
    if TakeCore(tag) == Some((core, rest)) {
      var major := TakeNumberDot(t).value;
      var minor := TakeNumberDot(major.1).value;
      TakeNumberExact(minor.1, core.patch, rest);
      TakeNumberDotExact(major.1, core.minor, minor.1);
      TakeNumberDotExact(t, core.major, major.1);
    }
  }

  lemma {:induction false} IdentifierRunIs(identifiers: string, rest: string)
    requires forall k :: 0 <= k < |identifiers| ==> IsIdentifierChar(identifiers[k])
    requires rest == "" || !IsIdentifierChar(rest[0])
    ensures IdentifierRun(identifiers + rest) == |identifiers|
    decreases |identifiers|
  {
    if identifiers == "" {
      assert identifiers + rest == rest;
    } else {
      assert (identifiers + rest)[1..] == identifiers[1..] + rest;
      IdentifierRunIs(identifiers[1..], rest);
    }
  }

  lemma TakeIdentifiersOf(mark: char, identifiers: string, rest: string)
    requires IsIdentifiers(identifiers) && (rest == "" || !IsIdentifierChar(rest[0]))
    ensures TakeIdentifiers("" + [mark] + identifiers + rest, mark) == (Some(identifiers), rest)
  {
    var s := "" + [mark] + identifiers + rest;
    assert s[1..] == identifiers + rest;
    IdentifierRunIs(identifiers, rest);
    assert s[1..|identifiers| + 1] == identifiers && s[|identifiers| + 1..] == rest;
  }

  lemma TakeIdentifiersParts(s: string, mark: char)
    ensures var (identifiers, rest) := TakeIdentifiers(s, mark);
            && (identifiers.None? ==> rest == s)
            && (identifiers.Some? ==>
                  IsIdentifiers(identifiers.value) && s == "" + [mark] + identifiers.value + rest)
  {
  }

  function BuildSuffix(build: Option<string>): string {
    if build.Some? then "+" + build.value else ""
  }

  lemma TakeSuffix(g: StableGroups)
    requires g.Valid()
    ensures TakeIdentifiers(g.Suffix(), '-') == (g.prerelease, BuildSuffix(g.build))
    ensures TakeIdentifiers(BuildSuffix(g.build), '+') == (g.build, "")
  {
    hide IsIdentifiers;
    var rest := BuildSuffix(g.build);
    if g.prerelease.Some? {
      TakeIdentifiersOf('-', g.prerelease.value, rest);
      assert g.Suffix() == "" + ['-'] + g.prerelease.value + rest;
    } else {
      assert g.Suffix() == rest;
    }
    if g.build.Some? {
      TakeIdentifiersOf('+', g.build.value, "");
      assert rest == "" + ['+'] + g.build.value + "";
    }
  }

  /** The stable format is unambiguous: a tag matches with exactly the groups that print it. */
  lemma MatchStableExact(tag: string, g: StableGroups)
    ensures MatchStable(tag) == Some(g) <==> g.Valid() && tag == g.Print()
  {
    hide TakeCore, Core.Valid, Core.Print, TakeIdentifiers, IsIdentifiers;
    if g.Valid() && tag == g.Print() {
      TakeSuffix(g);
      TakeCoreExact(tag, g.core, g.Suffix());
    }
    if MatchStable(tag) == Some(g) {
      var (core, suffix) := TakeCore(tag).value;
      TakeIdentifiersParts(suffix, '-');
      TakeIdentifiersParts(TakeIdentifiers(suffix, '-').1, '+');
      assert suffix == g.Suffix();
      TakeCoreExact(tag, core, suffix);
    }
  }

  lemma MatchNightlyFound(g: NightlyGroups)
    requires g.Valid()
    ensures MatchNightly(g.Print()) == Some(g)
  {
    hide AllDigits, TakeCore;
    var rest := g.date + ("." + g.runNumber);
    var tail := NIGHTLY + rest;
    var body := g.core.Print() + tail;
    var tag := g.Print();
    assert tail[0] == '-' && tail[..9] == NIGHTLY && tail[9..] == rest;
    assert rest[..8] == g.date && rest[8] == '.' && rest[9..] == g.runNumber;
    TakeCoreExact(body, g.core, tail);
    if g.legacy {
      assert tag == LEGACY + body && tag[..8] == LEGACY && tag[8..] == body;
    } else {
      assert tag == body && tag[0] == 'v' && LEGACY[0] == 'n';
      StartsWithHead(tag, LEGACY);
    }
  }

  /** The nightly format, with and without its legacy prefix, is unambiguous too. */
  lemma MatchNightlyExact(tag: string, g: NightlyGroups)
    ensures MatchNightly(tag) == Some(g) <==> g.Valid() && tag == g.Print()
  {
    if g.Valid() && tag == g.Print() {
      MatchNightlyFound(g);
    }
    if MatchNightly(tag) == Some(g) {
      MatchNightlyParts(tag, g);
    }
  }

  lemma MatchNightlyParts(tag: string, g: NightlyGroups)
    requires MatchNightly(tag) == Some(g)
    ensures g.Valid() && tag == g.Print()
  {
    hide AllDigits, TakeCore, Core.Print, Core.Valid;
    var body := if g.legacy then tag[8..] else tag;
    var (core, tail) := TakeCore(body).value;
    var rest := tail[9..];
    StartsWithHead(tail, NIGHTLY);
    assert NIGHTLY[0] == '-';
    assert tail == NIGHTLY + rest;
    assert g.legacy ==> tag == LEGACY + body;
    hide NIGHTLY, LEGACY, StartsWith;
    TakeCoreExact(body, core, tail);
    assert rest == g.date + ("." + g.runNumber);
  }

  /** No tag is on both channels. */
  lemma ChannelsAreDisjoint(tag: string)
    ensures ParseNightlyTag(tag).None? || ParseStableTag(tag).None?
  {
    if ParseNightlyTag(tag).Some? {
      var g := MatchNightly(tag).value;
      MatchNightlyExact(tag, g);
      if g.legacy {
        assert tag[0] == LEGACY[0];
        assert ParseStableTag(tag).None?;
      } else {
        NightlyLooksStable(tag, g);
      }
    }
  }

  lemma NightlyLooksStable(tag: string, g: NightlyGroups)
    requires g.Valid() && !g.legacy && tag == g.Print()
    ensures ParseStableTag(tag).None?
  {
    hide MatchStable, Core.Valid, Core.Print;
    var name := "nightly";
    var rest := g.date + ("." + g.runNumber);
    var prerelease := name + ['.'] + rest;
    var groups := StableGroups(g.core, Some(prerelease), None);
    assert IsIdentifiers(prerelease) by {
      assert forall k :: 0 <= k < 7 ==> IsIdentifierChar(name[k]);
      assert forall k :: 0 <= k < |rest| ==> IsIdentifierChar(rest[k]);
    }
    hide IsIdentifiers;
    assert groups.Print() == tag by {
      assert "-" + prerelease + "" == NIGHTLY + rest;
    }
    MatchStableExact(tag, groups);
    SplitHead(name, '.', rest);
  }

  // ---------- the versions of tags ----------

  /** `v`, three numbers with dots between them, and what follows. */
  function VersionText(major: string, minor: string, patch: string, rest: string): string {
    "v" + major + "." + minor + "." + patch + rest
  }

  lemma CoreText(core: Core, rest: string)
    ensures core.Print() + rest == VersionText(core.major, core.minor, core.patch, rest)
  {
  }

  /** Every stable tag has the version that is written in it: the three numbers and the prerelease
      identifiers between dots; what follows a plus says nothing, and `nightly` is no prerelease. */
  lemma VersionOfStableTag(major: string, minor: string, patch: string, prerelease: Option<string>,
                           build: Option<string>)
    requires IsNumber(major) && IsNumber(minor) && IsNumber(patch)
    requires prerelease.Some? ==> IsIdentifiers(prerelease.value)
    requires build.Some? ==> IsIdentifiers(build.value)
    ensures var identifiers := if prerelease.Some? then SplitOn(prerelease.value, '.') else [];
            ParseStableTag(VersionText(major, minor, patch,
              (if prerelease.Some? then "-" + prerelease.value else "")
              + (if build.Some? then "+" + build.value else ""))) ==
            if identifiers != [] && identifiers[0] == "nightly" then None
            else Some(StableVersion(ToNat(major), ToNat(minor), ToNat(patch), identifiers))
  {
    hide IsIdentifiers, IsNumber, ToNat, SplitOn, MatchStable, VersionText, Core.Print;
    var g := StableGroups(Core(major, minor, patch), prerelease, build);
    CoreText(g.core, g.Suffix());
    MatchStableExact(g.Print(), g);
  }

  /** ... and so has every nightly tag, with its date of eight digits and its run number. */
  lemma VersionOfNightlyTag(legacy: bool, major: string, minor: string, patch: string, date: string, run: string)
    requires IsNumber(major) && IsNumber(minor) && IsNumber(patch) && IsNumber(run)
    requires |date| == 8 && AllDigits(date)
    ensures ParseNightlyTag((if legacy then "nightly-" else "")
              + VersionText(major, minor, patch, "-nightly." + (date + ("." + run)))) ==
            Some(NightlyVersion(ToNat(major), ToNat(minor), ToNat(patch), ToNat(date), ToNat(run)))
  {
    hide IsNumber, ToNat, MatchNightly, VersionText, Core.Print, AllDigits;
    var g := NightlyGroups(legacy, Core(major, minor, patch), date, run);
    CoreText(g.core, NIGHTLY + (date + ("." + run)));
    MatchNightlyExact(g.Print(), g);
  }

  // ---------- choosing the previous tag ----------

  function Insert<E>(x: E, sorted: seq<E>, compare: (E, E) -> int): (r: seq<E>)
    ensures r != []
    ensures r[0] == if sorted == [] || compare(x, sorted[0]) <= 0 then x else sorted[0]
  {
    if sorted == [] || compare(x, sorted[0]) <= 0 then [x] + sorted
    else [sorted[0]] + Insert(x, sorted[1..], compare)
  }

  /** A stable sort. */
  function Sorted<E>(s: seq<E>, compare: (E, E) -> int): (r: seq<E>)
    ensures r == [] <==> s == []
  {
    if s == [] then [] else Insert(s[0], Sorted(s[1..], compare), compare)
  }

  ghost predicate Ordered<E(!new)>(s: seq<E>, compare: (E, E) -> int) {
    s == [] || (Ordered(s[1..], compare) && forall e :: e in multiset(s[1..]) ==> compare(s[0], e) <= 0)
  }

  lemma Chain<E(!new)>(compare: (E, E) -> int, a: E, b: E)
    requires IsPreorder(compare)
    ensures compare(a, b) > 0 ==> compare(b, a) <= 0
    ensures compare(a, b) <= 0 ==> forall e :: compare(b, e) <= 0 ==> compare(a, e) <= 0
  {
  }

  lemma {:induction false} InsertAdds<E>(x: E, sorted: seq<E>, compare: (E, E) -> int)
    ensures multiset(Insert(x, sorted, compare)) == multiset(sorted) + multiset{x}
    decreases |sorted|
  {
    if sorted == [] || compare(x, sorted[0]) <= 0 {
    } else {
      InsertAdds(x, sorted[1..], compare);
      assert sorted == [sorted[0]] + sorted[1..];
    }
  }

  lemma {:induction false} InsertOrdered<E(!new)>(x: E, sorted: seq<E>, compare: (E, E) -> int)
    requires IsPreorder(compare) && Ordered(sorted, compare)
    ensures Ordered(Insert(x, sorted, compare), compare)
    decreases |sorted|
  {
    hide IsPreorder;
    var r := Insert(x, sorted, compare);
    if sorted == [] {
    } else {
      var rest := sorted[1..];
      Chain(compare, x, sorted[0]);
      if compare(x, sorted[0]) <= 0 {
        assert r[1..] == sorted;
        assert sorted == [sorted[0]] + rest;
      } else {
        InsertOrdered(x, rest, compare);
        InsertAdds(x, rest, compare);
        assert r[1..] == Insert(x, rest, compare);
      }
    }
  }

  lemma {:induction false} SortedIsSorted<E(!new)>(s: seq<E>, compare: (E, E) -> int)
    requires IsPreorder(compare)
    ensures Ordered(Sorted(s, compare), compare) && multiset(Sorted(s, compare)) == multiset(s)
    decreases |s|
  {
    hide IsPreorder, Insert;
    if s == [] {
    } else {
      SortedIsSorted(s[1..], compare);
      InsertOrdered(s[0], Sorted(s[1..], compare), compare);
      InsertAdds(s[0], Sorted(s[1..], compare), compare);
      assert s == [s[0]] + s[1..];
    }
  }

  /** The tags that parse and compare below `current`, with their versions, in listing order. */
  function Candidates<V>(parse: string -> Option<V>, compare: (V, V) -> int, current: V,
                         tags: seq<string>): seq<(string, V)> {
    if tags == [] then []
    else
      var rest := Candidates(parse, compare, current, tags[1..]);
      var version := parse(tags[0]);
      if version.Some? && compare(version.value, current) < 0 then [(tags[0], version.value)] + rest
      else rest
  }

  /** The order that puts greater versions first. */
  function Descending<V>(compare: (V, V) -> int): ((string, V), (string, V)) -> int {
    (left: (string, V), right: (string, V)) => compare(right.1, left.1)
  }

  function PickPrevious<V>(parse: string -> Option<V>, compare: (V, V) -> int, current: V,
                           tags: seq<string>): Option<string> {
    var candidates := Sorted(Candidates(parse, compare, current, tags), Descending(compare));
    if candidates == [] then None else Some(candidates[0].0)
  }

  datatype Channel = Stable | Nightly

  datatype Error = InvalidReleaseTag(channel: Channel, tag: string)

  function ResolvePreviousReleaseTag(locale: Collation, channel: Channel, currentTag: string,
                                     tags: seq<string>): Result<Option<string>, Error> {
    match channel
    case Stable =>
      var current := ParseStableTag(currentTag);
      if current.None? then Err(InvalidReleaseTag(channel, currentTag))
      else Ok(PickPrevious(ParseStableTag,
                           (l: StableVersion, r: StableVersion) => CompareStable(locale, l, r),
                           current.value, tags))
    case Nightly =>
      var current := ParseNightlyTag(currentTag);
      if current.None? then Err(InvalidReleaseTag(channel, currentTag))
      else Ok(PickPrevious(ParseNightlyTag, CompareNightly, current.value, tags))
  }

  ghost predicate IsCandidate<V>(parse: string -> Option<V>, compare: (V, V) -> int, current: V, tag: string) {
    parse(tag).Some? && compare(parse(tag).value, current) < 0
  }

  /** The i-th tag is a greatest candidate, and the first of those in the listing. */
  ghost predicate IsPrevious<V>(parse: string -> Option<V>, compare: (V, V) -> int, current: V,
                                tags: seq<string>, i: nat) {
    && i < |tags| && IsCandidate(parse, compare, current, tags[i])
    && forall j :: 0 <= j < |tags| && IsCandidate(parse, compare, current, tags[j]) ==>
         var c := compare(parse(tags[j]).value, parse(tags[i]).value);
         c <= 0 && (j < i ==> c < 0)
  }

  /** What is picked is decided by the listing alone: nothing exactly when there is no candidate,
      else the first of the greatest candidates. */
  lemma {:induction false} PickMeaning<V(!new)>(parse: string -> Option<V>, compare: (V, V) -> int, current: V,
                                          tags: seq<string>)
    requires IsPreorder(compare)
    ensures PickPrevious(parse, compare, current, tags).None? <==>
            forall t :: t in tags ==> !IsCandidate(parse, compare, current, t)
    ensures PickPrevious(parse, compare, current, tags).Some? ==>
              exists i: nat :: IsPrevious(parse, compare, current, tags, i)
                               && PickPrevious(parse, compare, current, tags) == Some(tags[i])
    decreases |tags|
  {
    var i := PickIndex(parse, compare, current, tags);
  }

  lemma {:induction false} PickIndex<V(!new)>(parse: string -> Option<V>, compare: (V, V) -> int, current: V,
                                        tags: seq<string>) returns (i: nat)
    requires IsPreorder(compare)
    ensures Candidates(parse, compare, current, tags) == [] <==>
            forall t :: t in tags ==> !IsCandidate(parse, compare, current, t)
    ensures Candidates(parse, compare, current, tags) != [] ==>
              && IsPrevious(parse, compare, current, tags, i)
              && Sorted(Candidates(parse, compare, current, tags), Descending(compare))[0]
                 == (tags[i], parse(tags[i]).value)
    decreases |tags|
  {
    hide IsPreorder, IsPrevious;
    i := 0;
    if tags == [] {
    } else {
      var j := PickIndex(parse, compare, current, tags[1..]);
      var rest := Candidates(parse, compare, current, tags[1..]);
      assert forall t :: t in tags <==> t == tags[0] || t in tags[1..];
      assert tags[0] in tags;
      var all := Candidates(parse, compare, current, tags);
      assert all != rest ==> all[1..] == rest;
      if rest == [] {
        PreviousIsFirst(parse, compare, current, tags);
        i := 0;
      } else {
        PreviousInRest(parse, compare, current, tags, j);
        i := if IsCandidate(parse, compare, current, tags[0])
                && compare(parse(tags[j + 1]).value, parse(tags[0]).value) <= 0 then 0 else j + 1;
        var best := Sorted(rest, Descending(compare))[0];
        assert IsCandidate(parse, compare, current, tags[0]) ==>
            && all[0] == (tags[0], parse(tags[0]).value)
            && Descending(compare)(all[0], best) == compare(best.1, all[0].1);
      }
    }
  }

  lemma PreviousIsFirst<V(!new)>(parse: string -> Option<V>, compare: (V, V) -> int, current: V, tags: seq<string>)
    requires IsPreorder(compare) && tags != []
    requires forall t :: t in tags[1..] ==> !IsCandidate(parse, compare, current, t)
    ensures IsCandidate(parse, compare, current, tags[0]) ==> IsPrevious(parse, compare, current, tags, 0)
  {
    hide IsCandidate;
    assert forall k :: 1 <= k < |tags| ==> tags[k] == tags[1..][k - 1];
    assert IsCandidate(parse, compare, current, tags[0]) ==> parse(tags[0]).Some? by {
      CandidateParses(parse, compare, current, tags[0]);
    }
  }

  lemma CandidateParses<V>(parse: string -> Option<V>, compare: (V, V) -> int, current: V, tag: string)
    ensures IsCandidate(parse, compare, current, tag) ==> parse(tag).Some?
  {
  }

  lemma PreviousInRest<V(!new)>(parse: string -> Option<V>, compare: (V, V) -> int, current: V,
                                tags: seq<string>, j: nat)
    requires IsPreorder(compare) && tags != []
    requires IsPrevious(parse, compare, current, tags[1..], j)
    ensures j + 1 < |tags| && parse(tags[j + 1]).Some?
    ensures if IsCandidate(parse, compare, current, tags[0])
               && compare(parse(tags[j + 1]).value, parse(tags[0]).value) <= 0
            then IsPrevious(parse, compare, current, tags, 0)
            else IsPrevious(parse, compare, current, tags, j + 1)
  {
    var rest := tags[1..];
    var best := if IsCandidate(parse, compare, current, tags[0])
                   && compare(parse(rest[j]).value, parse(tags[0]).value) <= 0 then 0 else j + 1;
    forall k | 0 <= k < |tags| && IsCandidate(parse, compare, current, tags[k])
      ensures var c := compare(parse(tags[k]).value, parse(tags[best]).value);
              c <= 0 && (k < best ==> c < 0)
    {
      assert k > 0 ==> tags[k] == rest[k - 1];
      var v, w := parse(tags[k]).value, parse(rest[j]).value;
      assert compare(w, v) < 0 <==> compare(v, w) > 0;
      assert compare(v, w) < 0 <==> compare(w, v) > 0;
    }
  }

  // ---------- the previous release ----------

  /** `tag` is a release of the channel before `other`. */
  ghost predicate Precedes(locale: Collation, channel: Channel, tag: string, other: string) {
    match channel
    case Stable =>
      && ParseStableTag(tag).Some? && ParseStableTag(other).Some?
      && HasLowerPrecedence(locale, ParseStableTag(tag).value, ParseStableTag(other).value)
    case Nightly =>
      && ParseNightlyTag(tag).Some? && ParseNightlyTag(other).Some?
      && IsEarlierNightly(ParseNightlyTag(tag).value, ParseNightlyTag(other).value)
  }

  predicate IsRelease(channel: Channel, tag: string) {
    match channel
    case Stable => ParseStableTag(tag).Some?
    case Nightly => ParseNightlyTag(tag).Some?
  }

  /** The i-th tag precedes the current one, no other tag lies between the two, and the tags
      listed before it that precede the current one precede it too. */
  ghost predicate IsPreviousRelease(locale: Collation, channel: Channel, current: string, tags: seq<string>, i: nat) {
    && i < |tags| && Precedes(locale, channel, tags[i], current)
    && forall j :: 0 <= j < |tags| && Precedes(locale, channel, tags[j], current) ==>
         && !Precedes(locale, channel, tags[i], tags[j])
         && (j < i ==> Precedes(locale, channel, tags[j], tags[i]))
  }

  /** On both channels the answer is an error exactly for a current tag of another format, nothing
      exactly when no tag precedes it, and otherwise the release right before it. */
  lemma ResolveMeaning(locale: Collation, channel: Channel, current: string, tags: seq<string>)
    requires IsPreorder(locale)
    ensures var result := ResolvePreviousReleaseTag(locale, channel, current, tags);
            && (result.Err? <==> !IsRelease(channel, current))
            && (result == Ok(None) <==>
                IsRelease(channel, current) && forall t :: t in tags ==> !Precedes(locale, channel, t, current))
            && (result.Ok? && result.value.Some? ==>
                  exists i: nat :: IsPreviousRelease(locale, channel, current, tags, i)
                                   && result.value.value == tags[i])
  {
    if IsRelease(channel, current) {
      match channel
      case Stable => ResolveStable(locale, current, tags);
      case Nightly => ResolveNightly(locale, current, tags);
    }
  }

  lemma ResolveStable(locale: Collation, current: string, tags: seq<string>)
    requires IsPreorder(locale) && ParseStableTag(current).Some?
    ensures var result := ResolvePreviousReleaseTag(locale, Stable, current, tags);
            && result.Ok?
            && (result.value.None? <==> forall t :: t in tags ==> !Precedes(locale, Stable, t, current))
            && (result.value.Some? ==>
                  exists i: nat :: IsPreviousRelease(locale, Stable, current, tags, i)
                                   && result.value.value == tags[i])
  {
    hide ParseStableTag, CompareStable, HasLowerPrecedence, IsPreorder, PickPrevious;
    var compare := (l: StableVersion, r: StableVersion) => CompareStable(locale, l, r);
    var v := ParseStableTag(current).value;
    StableOrdered(locale);
    PickMeaning(ParseStableTag, compare, v, tags);
    forall a, b
      ensures compare(a, b) < 0 <==> HasLowerPrecedence(locale, a, b)
      ensures compare(a, b) > 0 <==> HasLowerPrecedence(locale, b, a)
    {
      ComparisonIsPrecedence(locale, a, b);
    }
    forall t
      ensures IsCandidate(ParseStableTag, compare, v, t) <==> Precedes(locale, Stable, t, current)
    {
    }
    if i: nat :| IsPrevious(ParseStableTag, compare, v, tags, i) {
      assert IsPreviousRelease(locale, Stable, current, tags, i);
    }
  }

  lemma ResolveNightly(locale: Collation, current: string, tags: seq<string>)
    requires ParseNightlyTag(current).Some?
    ensures var result := ResolvePreviousReleaseTag(locale, Nightly, current, tags);
            && result.Ok?
            && (result.value.None? <==> forall t :: t in tags ==> !Precedes(locale, Nightly, t, current))
            && (result.value.Some? ==>
                  exists i: nat :: IsPreviousRelease(locale, Nightly, current, tags, i)
                                   && result.value.value == tags[i])
  {
    NightlyOrdered();
    hide ParseNightlyTag, PickPrevious, IsPreorder, CompareNightly, IsEarlierNightly;
    var v := ParseNightlyTag(current).value;
    PickMeaning(ParseNightlyTag, CompareNightly, v, tags);
    forall t
      ensures IsCandidate(ParseNightlyTag, CompareNightly, v, t) <==> Precedes(locale, Nightly, t, current)
    {
    }
  }
}

/** Merging two update manifests (scripts/lib/update-manifest.ts). */
module ManifestMerge {
  import opened Wrappers
  import opened Selections
  import opened UpdateManifest
  import Text

  /** Names that every plain object answers to although it has no such entry of its own. */
  predicate IsInherited(key: string) {
    key in {"constructor", "hasOwnProperty", "isPrototypeOf", "propertyIsEnumerable", "toLocaleString",
            "toString", "valueOf", "__defineGetter__", "__defineSetter__", "__lookupGetter__",
            "__lookupSetter__", "__proto__"}
  }

  // ---------- Extras ----------

  /** What stops an extra of the second manifest: another value of that name in the first one,
      be it an entry or something inherited. */
  predicate Clashes(primary: map<string, Scalar>, key: string, value: Scalar) {
    if key in primary then primary[key] != value else IsInherited(key)
  }

  function MergedExtras(primary: map<string, Scalar>, secondary: map<string, Scalar>): Option<map<string, Scalar>> {
    if exists key :: key in secondary && Clashes(primary, key, secondary[key]) then None
    else Some(primary + secondary)
  }

  method MergeExtras(primary: map<string, Scalar>, secondary: map<string, Scalar>)
    returns (result: Option<map<string, Scalar>>)
    ensures result == MergedExtras(primary, secondary)
  {
    hide IsInherited;
    var merged := primary;
    var rest := secondary.Keys;
    while rest != {}
      invariant rest <= secondary.Keys
      invariant merged == primary + (map key | key in secondary && key !in rest :: secondary[key])
      invariant forall key :: key in secondary && key !in rest ==> !Clashes(primary, key, secondary[key])
    {
      var key :| key in rest;
      var value := secondary[key];
      if Clashes(merged, key, value) {
        assert Clashes(primary, key, secondary[key]);
        return None;
      }
      merged := merged[key := value];
      rest := rest - {key};
    }
    assert merged == primary + secondary;
    return Some(merged);
  }

  // ---------- Files ----------

  /** No url has two different entries. */
  predicate IsConsistent(files: seq<File>) {
    forall f, g :: f in files && g in files && f.url == g.url ==> f == g
  }

  /** The files without repetitions, each where it occurs first. */
  function FirstOccurrences(files: seq<File>): (r: seq<File>)
    ensures |r| <= |files| && forall f :: f in r <==> f in files
  {
    if files == [] then []
    else
      var init, last := files[..|files| - 1], files[|files| - 1];
      assert forall f :: f in files <==> f in init || f == last;
      if last in init then FirstOccurrences(init) else FirstOccurrences(init) + [last]
  }

  function NewOnes(files: seq<File>): set<nat> {
    set i: nat | i < |files| && files[i] !in files[..i]
  }

  lemma {:induction false} FirstOccurrencesMeaning(files: seq<File>)
    ensures IsSelection(files, NewOnes(files), FirstOccurrences(files))
    decreases |files|
  {
    hide IsSelection;
    if files == [] {
      NothingSelected(files);
      assert NewOnes(files) == {};
    } else {
      var init, last := files[..|files| - 1], files[|files| - 1];
      FirstOccurrencesMeaning(init);
      SelectNext(init, NewOnes(init), FirstOccurrences(init), last, last !in init);
      assert init + [last] == files;
      assert forall i: nat :: i < |init| ==> files[..i] == init[..i];
      assert NewOnes(files) == if last !in init then NewOnes(init) + {|init|} else NewOnes(init);
    }
  }

  predicate HaveDistinctUrls(files: seq<File>) {
    forall i, j :: 0 <= i < j < |files| ==> files[i].url != files[j].url
  }

  lemma {:induction false} FirstOccurrencesAreDistinct(files: seq<File>)
    requires IsConsistent(files)
    ensures HaveDistinctUrls(FirstOccurrences(files))
    decreases |files|
  {
    if files == [] {
    } else {
      var init, last := files[..|files| - 1], files[|files| - 1];
      assert forall f :: f in init ==> f in files;
      FirstOccurrencesAreDistinct(init);
      var r := FirstOccurrences(init);
      if last !in init {
        forall i | 0 <= i < |r| ensures r[i].url != last.url {
          assert r[i] in r;
        }
      }
    }
  }

  predicate AreDistinct(files: seq<File>) {
    forall i, j :: 0 <= i < j < |files| ==> files[i] != files[j]
  }

  lemma DistinctWithLast(init: seq<File>, last: File)
    ensures AreDistinct(init + [last]) <==> AreDistinct(init) && last !in init
  {
    var files := init + [last];
    if last in init {
      var i :| 0 <= i < |init| && init[i] == last;
      assert files[i] == files[|init|];
    }
    assert forall i, j :: 0 <= i < j < |init| ==> files[i] == init[i] && files[j] == init[j];
    assert forall i :: 0 <= i < |init| ==> files[i] == init[i] && init[i] in init;
  }

  lemma {:induction false} DistinctStaySame(files: seq<File>)
    ensures FirstOccurrences(files) == files <==> AreDistinct(files)
    decreases |files|
  {
    if files == [] {
    } else {
      var init, last := files[..|files| - 1], files[|files| - 1];
      DistinctStaySame(init);
      DistinctWithLast(init, last);
      hide AreDistinct;
      assert files == init + [last];
      SameBeforeLast(FirstOccurrences(init), init, last);
    }
  }

  lemma SameBeforeLast(x: seq<File>, y: seq<File>, last: File)
    ensures x + [last] == y + [last] <==> x == y
  {
    assert (x + [last])[..|x|] == x && (y + [last])[..|y|] == y;
    assert x + [last] == y + [last] ==> |x| + 1 == |y| + 1;
  }

  lemma FirstOccurrencesOfMore(files: seq<File>, last: File)
    ensures FirstOccurrences(files + [last]) ==
            if last in files then FirstOccurrences(files) else FirstOccurrences(files) + [last]
  {
    assert (files + [last])[..|files|] == files;
  }

  lemma {:induction false} FirstOccurrencesLeft(x: seq<File>, y: seq<File>)
    ensures FirstOccurrences(FirstOccurrences(x) + y) == FirstOccurrences(x + y)
    decreases |y|
  {
    hide FirstOccurrences;
    if y == [] {
      assert x + y == x && FirstOccurrences(x) + y == FirstOccurrences(x);
      AlreadyFirst(x);
    } else {
      var init, last := y[..|y| - 1], y[|y| - 1];
      FirstOccurrencesLeft(x, init);
      FirstOccurrencesOfMore(FirstOccurrences(x) + init, last);
      FirstOccurrencesOfMore(x + init, last);
      assert FirstOccurrences(x) + y == FirstOccurrences(x) + init + [last] && x + y == x + init + [last];
      assert last in FirstOccurrences(x) <==> last in x;
    }
  }

  lemma {:induction false} AlreadyFirst(x: seq<File>)
    ensures FirstOccurrences(FirstOccurrences(x)) == FirstOccurrences(x)
    decreases |x|
  {
    if x == [] {
    } else {
      var init, last := x[..|x| - 1], x[|x| - 1];
      AlreadyFirst(init);
      FirstOccurrencesOfMore(FirstOccurrences(init), last);
    }
  }

  lemma {:induction false} FirstOccurrencesRight(x: seq<File>, y: seq<File>)
    ensures FirstOccurrences(x + FirstOccurrences(y)) == FirstOccurrences(x + y)
    decreases |y|
  {
    hide FirstOccurrences;
    if y == [] {
      assert FirstOccurrences(y) == [];
    } else {
      var init, last := y[..|y| - 1], y[|y| - 1];
      FirstOccurrencesRight(x, init);
      assert init + [last] == y;
      FirstOccurrencesOfMore(init, last);
      FirstOccurrencesOfMore(x + init, last);
      FirstOccurrencesOfMore(x + FirstOccurrences(init), last);
      assert x + y == x + init + [last];
      assert x + (FirstOccurrences(init) + [last]) == x + FirstOccurrences(init) + [last];
      assert last in FirstOccurrences(init) <==> last in init;
    }
  }

  /** The value a url maps to in an insertion-ordered map, kept as the list of its values. */
  function FindUrl(files: seq<File>, url: string): (r: Option<File>)
    ensures r.Some? ==> r.value in files && r.value.url == url
    ensures r.None? ==> forall f :: f in files ==> f.url != url
  {
    if files == [] then None
    else if files[0].url == url then Some(files[0])
    else FindUrl(files[1..], url)
  }

  method MergeFiles(files: seq<File>) returns (result: Option<seq<File>>)
    ensures result == if IsConsistent(files) then Some(FirstOccurrences(files)) else None
  {
    hide IsConsistent, FirstOccurrences, FindUrl;
    var filesByUrl: seq<File> := [];
    NoFiles();
    for i := 0 to |files|
      invariant IsConsistent(files[..i]) && filesByUrl == FirstOccurrences(files[..i])
    {
      var file := files[i];
      var existing := FindUrl(filesByUrl, file.url);
      NextFile(files, i);
      if existing.Some? && (existing.value.sha512 != file.sha512 || existing.value.size != file.size) {
        return None;
      }
      if existing.None? {
        filesByUrl := filesByUrl + [file];
      }
    }
    assert files[..|files|] == files;
    return Some(filesByUrl);
  }

  lemma NoFiles()
    ensures IsConsistent([]) && FirstOccurrences([]) == []
  {
  }

  /** What the next file adds to the map, or that it conflicts. */
  lemma NextFile(files: seq<File>, i: nat)
    requires i < |files| && IsConsistent(files[..i])
    ensures var file, existing := files[i], FindUrl(FirstOccurrences(files[..i]), files[i].url);
            && (existing.Some? && existing.value != file ==> !IsConsistent(files))
            && (existing == Some(file) ==>
                  IsConsistent(files[..i + 1]) && FirstOccurrences(files[..i + 1]) == FirstOccurrences(files[..i]))
            && (existing.None? ==>
                  && IsConsistent(files[..i + 1])
                  && FirstOccurrences(files[..i + 1]) == FirstOccurrences(files[..i]) + [file])
            && (existing.Some? ==> existing.value.url == file.url)
  {
    var file, before := files[i], files[..i];
    assert files[..i + 1][..i] == before && files[..i + 1] == before + [file];
    var existing := FindUrl(FirstOccurrences(before), file.url);
    assert existing.Some? ==> existing.value in before && existing.value in files && file in files;
    hide FindUrl;
  }

  // ---------- Merge ----------

  datatype Conflict = DifferentVersions | ConflictingFile | ConflictingExtra

  function Later(a: string, b: string): string {
    if Text.StringLe(b, a) then a else b
  }

  function Merge(a: Manifest, b: Manifest): Result<Manifest, Conflict> {
    if a.version != b.version then Err(DifferentVersions)
    else if !IsConsistent(a.files + b.files) then Err(ConflictingFile)
    else
      var extras := MergedExtras(a.extras, b.extras);
      if extras.None? then Err(ConflictingExtra)
      else
        Ok(Manifest(a.version, Later(a.releaseDate, b.releaseDate),
                    FirstOccurrences(a.files + b.files), extras.value))
  }

  method MergeUpdateManifests(primary: Manifest, secondary: Manifest) returns (result: Result<Manifest, Conflict>)
    ensures result == Merge(primary, secondary)
  {
    if primary.version != secondary.version {
      return Err(DifferentVersions);
    }
    var files := MergeFiles(primary.files + secondary.files);
    if files.None? {
      return Err(ConflictingFile);
    }
    var releaseDate :=
      if Text.StringLe(secondary.releaseDate, primary.releaseDate) then primary.releaseDate else secondary.releaseDate;
    var extras := MergeExtras(primary.extras, secondary.extras);
    if extras.None? {
      return Err(ConflictingExtra);
    }
    return Ok(Manifest(primary.version, releaseDate, files.value, extras.value));
  }

  /** No url and no extra key has two different values. */
  predicate Agree(a: Manifest, b: Manifest) {
    && a.version == b.version && IsConsistent(a.files + b.files)
    && forall key :: key in a.extras && key in b.extras ==> a.extras[key] == b.extras[key]
  }

  /** Inherited names that `b` has as extras, `a` has too. */
  predicate CoversInherited(a: map<string, Scalar>, b: map<string, Scalar>) {
    forall key :: key in b && IsInherited(key) ==> key in a
  }

  /** When a merge succeeds, and what it is: each url once in order of first occurrence, the union of
      the extras, the later date. */
  lemma MergeMeaning(a: Manifest, b: Manifest)
    ensures Merge(a, b).Ok? <==> Agree(a, b) && CoversInherited(a.extras, b.extras)
    ensures Merge(a, b).Ok? ==>
              var m := Merge(a, b).value;
              && HaveDistinctUrls(m.files)
              && (forall f :: f in m.files <==> f in a.files || f in b.files)
              && IsSelection(a.files + b.files, NewOnes(a.files + b.files), m.files)
              && m.extras.Keys == a.extras.Keys + b.extras.Keys
              && (forall key :: key in a.extras ==> m.extras[key] == a.extras[key])
              && (forall key :: key in b.extras ==> m.extras[key] == b.extras[key])
              && m.version == a.version == b.version
              && m.releaseDate in {a.releaseDate, b.releaseDate}
              && Text.StringLe(a.releaseDate, m.releaseDate) && Text.StringLe(b.releaseDate, m.releaseDate)
  {
    hide IsInherited, IsSelection;
    FirstOccurrencesMeaning(a.files + b.files);
    if Agree(a, b) && CoversInherited(a.extras, b.extras) {
      assert forall key :: key in b.extras ==> !Clashes(a.extras, key, b.extras[key]);
    } else if Agree(a, b) {
      var key :| key in b.extras && IsInherited(key) && key !in a.extras;
      assert Clashes(a.extras, key, b.extras[key]);
    } else if a.version == b.version && IsConsistent(a.files + b.files) {
      var key :| key in a.extras && key in b.extras && a.extras[key] != b.extras[key];
      assert Clashes(a.extras, key, b.extras[key]);
    }
    if Merge(a, b).Ok? {
      FirstOccurrencesAreDistinct(a.files + b.files);
      Text.StringLeTotal(a.releaseDate, b.releaseDate);
      Text.StringLeTotal(a.releaseDate, a.releaseDate);
      Text.StringLeTotal(b.releaseDate, b.releaseDate);
    }
  }

  function Then(a: Result<Manifest, Conflict>, b: Result<Manifest, Conflict>): Option<Manifest> {
    if a.Err? || b.Err? then None
    else
      var m := Merge(a.value, b.value);
      if m.Err? then None else Some(m.value)
  }

  function LeftFirst(a: Manifest, b: Manifest, c: Manifest): Option<Manifest> {
    Then(Merge(a, b), Ok(c))
  }

  function RightFirst(a: Manifest, b: Manifest, c: Manifest): Option<Manifest> {
    Then(Ok(a), Merge(b, c))
  }

  lemma LaterAssociative(x: string, y: string, z: string)
    ensures Later(Later(x, y), z) == Later(x, Later(y, z))
  {
    hide Text.StringLe;
    Text.StringLeTotal(x, y);
    Text.StringLeTotal(y, z);
    Text.StringLeTotal(x, z);
    if Text.StringLe(z, y) && Text.StringLe(y, x) {
      Text.StringLeTransitive(z, y, x);
    }
    if Text.StringLe(x, y) && Text.StringLe(y, z) {
      Text.StringLeTransitive(x, y, z);
    }
  }

  /** Consistency depends on the files only, not on their order or repetition. */
  lemma ConsistencyOfThree(x: seq<File>, y: seq<File>, z: seq<File>)
    ensures IsConsistent(x + y) && IsConsistent(FirstOccurrences(x + y) + z) <==> IsConsistent(x + y + z)
    ensures IsConsistent(y + z) && IsConsistent(x + FirstOccurrences(y + z)) <==> IsConsistent(x + y + z)
  {
    assert forall f :: f in FirstOccurrences(x + y) + z <==> f in x + y + z;
    assert forall f :: f in x + FirstOccurrences(y + z) <==> f in x + y + z;
    assert forall f :: f in x + y ==> f in x + y + z;
    assert forall f :: f in y + z ==> f in x + y + z;
  }

  /** All three agree, and every inherited name among the later extras is in the first ones. */
  predicate AllAgree(a: Manifest, b: Manifest, c: Manifest) {
    && a.version == b.version == c.version && IsConsistent(a.files + b.files + c.files)
    && Agree(a, b) && Agree(b, c) && Agree(a, c)
    && CoversInherited(a.extras, b.extras) && CoversInherited(a.extras, c.extras)
  }

  function MergedThree(a: Manifest, b: Manifest, c: Manifest): Manifest {
    Manifest(a.version, Later(a.releaseDate, Later(b.releaseDate, c.releaseDate)),
             FirstOccurrences(a.files + b.files + c.files), a.extras + b.extras + c.extras)
  }

  lemma LeftFirstMeaning(a: Manifest, b: Manifest, c: Manifest)
    ensures LeftFirst(a, b, c) == if AllAgree(a, b, c) then Some(MergedThree(a, b, c)) else None
  {
    hide IsInherited, IsConsistent, Later, HaveDistinctUrls, FirstOccurrences;
    MergeMeaning(a, b);
    ConsistencyOfThree(a.files, b.files, c.files);
    PairsConsistent(a.files, b.files, c.files);
    if Merge(a, b).Ok? {
      var ab := Merge(a, b).value;
      MergeMeaning(ab, c);
      FirstOccurrencesLeft(a.files + b.files, c.files);
      LaterAssociative(a.releaseDate, b.releaseDate, c.releaseDate);
      if AllAgree(a, b, c) {
        assert Agree(ab, c) && CoversInherited(ab.extras, c.extras);
      }
      if Merge(ab, c).Ok? {
        assert CoversInherited(a.extras, c.extras);
        assert Agree(a, c) && Agree(b, c);
      }
    }
  }

  lemma PairsConsistent(x: seq<File>, y: seq<File>, z: seq<File>)
    ensures IsConsistent(x + y + z) ==> IsConsistent(x + y) && IsConsistent(y + z) && IsConsistent(x + z)
  {
    assert forall f :: f in x + y ==> f in x + y + z;
    assert forall f :: f in y + z ==> f in x + y + z;
    assert forall f :: f in x + z ==> f in x + y + z;
  }

  lemma RightFirstMeaning(a: Manifest, b: Manifest, c: Manifest)
    ensures RightFirst(a, b, c) ==
            if AllAgree(a, b, c) && CoversInherited(b.extras, c.extras) then Some(MergedThree(a, b, c)) else None
  {
    hide IsInherited, IsConsistent, Later, HaveDistinctUrls, FirstOccurrences;
    MergeMeaning(b, c);
    ConsistencyOfThree(a.files, b.files, c.files);
    PairsConsistent(a.files, b.files, c.files);
    if Merge(b, c).Ok? {
      RightFirstAgreement(a, b, c, Merge(b, c).value);
      if Merge(a, Merge(b, c).value).Ok? {
        RightFirstValue(a, b, c, Merge(b, c).value);
      }
    }
  }

  lemma RightFirstAgreement(a: Manifest, b: Manifest, c: Manifest, bc: Manifest)
    requires Merge(b, c) == Ok(bc)
    ensures Merge(a, bc).Ok? <==> AllAgree(a, b, c)
  {
    hide IsInherited, IsConsistent, Later, HaveDistinctUrls, FirstOccurrences, Merge;
    MergeMeaning(b, c);
    MergeMeaning(a, bc);
    ConsistencyOfThree(a.files, b.files, c.files);
    PairsConsistent(a.files, b.files, c.files);
    assert bc.files == FirstOccurrences(b.files + c.files) by {
      MergedFiles(b, c);
    }
    if AllAgree(a, b, c) {
      assert Agree(a, bc) && CoversInherited(a.extras, bc.extras);
    }
    if Merge(a, bc).Ok? {
      assert CoversInherited(a.extras, b.extras) && CoversInherited(a.extras, c.extras);
      assert Agree(a, b) && Agree(a, c);
    }
  }

  lemma MergedFiles(a: Manifest, b: Manifest)
    requires Merge(a, b).Ok?
    ensures Merge(a, b).value.files == FirstOccurrences(a.files + b.files)
  {
  }

  lemma RightFirstValue(a: Manifest, b: Manifest, c: Manifest, bc: Manifest)
    requires Merge(b, c) == Ok(bc) && Merge(a, bc).Ok?
    ensures Merge(a, bc).value == MergedThree(a, b, c)
  {
    hide Clashes, IsConsistent, Later, FirstOccurrences;
    FirstOccurrencesRight(a.files, b.files + c.files);
    assert a.files + (b.files + c.files) == a.files + b.files + c.files;
    assert a.extras + (b.extras + c.extras) == a.extras + b.extras + c.extras;
  }

  /** Merging is associative, in its result, its file order and in whether it fails, exactly unless
      all three agree and the third manifest has an inherited name that the second lacks. */
  lemma MergeAssociative(a: Manifest, b: Manifest, c: Manifest)
    ensures LeftFirst(a, b, c) == RightFirst(a, b, c) <==>
            (AllAgree(a, b, c) ==> CoversInherited(b.extras, c.extras))
  {
    hide MergedThree, AllAgree, CoversInherited, LeftFirst, RightFirst;
    LeftFirstMeaning(a, b, c);
    RightFirstMeaning(a, b, c);
  }

  /** Merging the other way round gives the same manifest up to the order of files; it fails in the
      same cases when both have the same inherited names. */
  lemma MergeCommutative(a: Manifest, b: Manifest)
    ensures Merge(a, b).Ok? && Merge(b, a).Ok? ==>
              var m, n := Merge(a, b).value, Merge(b, a).value;
              && m.version == n.version && m.releaseDate == n.releaseDate && m.extras == n.extras
              && forall f :: f in m.files <==> f in n.files
    ensures CoversInherited(a.extras, b.extras) && CoversInherited(b.extras, a.extras) ==>
              (Merge(a, b).Ok? <==> Merge(b, a).Ok?)
    ensures Merge(a, b).Ok? ==> (Merge(b, a).Ok? <==> CoversInherited(b.extras, a.extras))
  {
    hide IsInherited;
    MergeMeaning(a, b);
    MergeMeaning(b, a);
    assert forall f :: f in a.files + b.files <==> f in b.files + a.files;
    if Merge(a, b).Ok? && Merge(b, a).Ok? {
      Text.StringLeTotal(a.releaseDate, b.releaseDate);
      assert Merge(a, b).value.extras == Merge(b, a).value.extras;
    }
  }

  /** A manifest merged with itself is itself exactly when its urls are distinct. */
  lemma MergeIdempotent(m: Manifest)
    ensures Merge(m, m) == Ok(m) <==> HaveDistinctUrls(m.files)
  {
    hide IsInherited;
    MergeMeaning(m, m);
    FirstOccurrencesRight([], m.files);
    assert forall f :: f in m.files + m.files <==> f in m.files;
    if HaveDistinctUrls(m.files) {
      SelfAppend(m.files, m.files);
      DistinctStaySame(m.files);
      Text.StringLeTotal(m.releaseDate, m.releaseDate);
      assert m.extras + m.extras == m.extras;
      DistinctIsConsistent(m.files);
    }
  }

  lemma DistinctIsConsistent(files: seq<File>)
    requires HaveDistinctUrls(files)
    ensures IsConsistent(files + files)
  {
    forall f, g | f in files + files && g in files + files && f.url == g.url ensures f == g {
      var i :| 0 <= i < |files| && files[i] == f;
      var j :| 0 <= j < |files| && files[j] == g;
    }
  }

  lemma {:induction false} SelfAppend(x: seq<File>, y: seq<File>)
    requires forall f :: f in y ==> f in x
    ensures FirstOccurrences(x + y) == FirstOccurrences(x)
    decreases |y|
  {
    if y == [] {
      assert x + y == x;
    } else {
      assert (x + y)[..|x + y| - 1] == x + y[..|y| - 1];
      SelfAppend(x, y[..|y| - 1]);
      assert y[|y| - 1] in x + y[..|y| - 1];
    }
  }

  /** Manifests that agree on everything can still fail to merge: an extra called `constructor` that
      only the second one has meets the inherited property of that name. */
  lemma InheritedNamesConflict()
    ensures exists a, b :: Agree(a, b) && Merge(a, b).Err? && Merge(b, a).Ok?
  {
    var files := [File("app.zip", "abc", 1)];
    DistinctIsConsistent(files);
    InheritedNameConflicts(Manifest("1.0.0", "2024", files, map[]), "constructor", Bool(true));
  }

  lemma InheritedNameConflicts(a: Manifest, key: string, value: Scalar)
    requires IsConsistent(a.files + a.files) && key !in a.extras && IsInherited(key)
    ensures var b := a.(extras := a.extras[key := value]);
            Agree(a, b) && Merge(a, b).Err? && Merge(b, a).Ok?
  {
    hide Merge, IsConsistent, IsInherited;
    var b := a.(extras := a.extras[key := value]);
    MergeMeaning(a, b);
    MergeMeaning(b, a);
    assert key in b.extras;
  }
}

/** The managed media section of a pull request body (`scripts/lib/prMedia.ts`): how it is written,
    how it is put into a body, what the check of a published body accepts, and the upload loop. */
module PrMedia {
  import opened Selections
  import opened Text
  import opened Wrappers

  const START := "<!-- t3-pr-media:start -->"
  const END := "<!-- t3-pr-media:end -->"

  datatype Error =
    | AmbiguousSection
    | NoCaptures
    | NotUploaded
    | HeadChanged
    | StaleEvidence
    | ArtifactMissing
    | SectionChanged
    | OperationFailed

  // ---------- putting a section into a body ----------

  function Managed(section: string): string {
    START + ("\n" + (section + ("\n" + END)))
  }

  function Placed(before: string, section: string, after: string): string {
    before + Managed(section) + after
  }

  function ReplaceSection(body: string, section: string): Result<string, Error> {
    var first, last := IndexOf(body, START, 0), IndexOf(body, END, 0);
    if || first.None? != last.None?
       || (first.Some? && last.value < first.value)
       || (first.Some? && IndexOf(body, START, first.value + |START|).Some?)
       || (last.Some? && IndexOf(body, END, last.value + |END|).Some?)
    then Err(AmbiguousSection)
    else if first.None? then Ok(TrimEnd(body) + "\n\n" + Managed(section) + "\n")
    else Ok(body[..first.value] + Managed(section) + body[last.value + |END|..])
  }

  // ---------- where markers occur ----------

  ghost predicate IsMarker(p: string) {
    p == START || p == END
  }

  ghost predicate MarkerFree(s: string) {
    forall k: nat :: !OccursAt(s, START, k) && !OccursAt(s, END, k)
  }

  /** The one start marker is at `i`, the one end marker at `j`, in this order. */
  ghost predicate ManagedAt(body: string, i: nat, j: nat) {
    && i < j
    && OccursAt(body, START, i) && (forall k: nat :: OccursAt(body, START, k) ==> k == i)
    && OccursAt(body, END, j) && (forall k: nat :: OccursAt(body, END, k) ==> k == j)
  }

  ghost predicate HasManaged(body: string) {
    exists i: nat, j: nat :: ManagedAt(body, i, j)
  }

  /** What the proofs use of the two markers: `<` stands at their front and nowhere else, the
      characters that surround spliced text occur in neither, and neither begins the other. */
  lemma MarkerShape(p: string)
    requires IsMarker(p)
    ensures |START| == 26 && |END| == 24 && START[17] != END[17]
    ensures forall k :: 0 <= k < |p| ==> (p[k] == '<' <==> k == 0)
    ensures forall k :: 0 <= k < |p| ==> p[k] !in "\n`()"
  {
    assert forall k :: 0 <= k < 26 ==> (START[k] == '<' <==> k == 0) && START[k] !in "\n`()";
    assert forall k :: 0 <= k < 24 ==> (END[k] == '<' <==> k == 0) && END[k] !in "\n`()";
  }

  lemma OccursChars(s: string, p: string, i: nat)
    ensures OccursAt(s, p, i) ==> forall j :: 0 <= j < |p| ==> i + j < |s| && s[i + j] == p[j]
  {
    assert OccursAt(s, p, i) ==> forall j :: 0 <= j < |p| ==> p[j] == s[i..i + |p|][j];
  }

  /** No marker runs over the seam of `a + b` when `b` starts with a character that is in no
      marker, or only at a marker's front. */
  lemma Seam(a: string, b: string, p: string, k: nat)
    requires IsMarker(p) && (b == "" || b[0] in "<\n`()")
    ensures OccursAt(a + b, p, k) <==> OccursAt(a, p, k) || (k >= |a| && OccursAt(b, p, k - |a|))
  {
    MarkerShape(p);
    hide START, END, IsMarker;
    var s := a + b;
    if k + |p| <= |a| {
      assert s[k..k + |p|] == a[k..k + |p|];
    } else if k >= |a| {
      assert k + |p| <= |s| ==> s[k..k + |p|] == b[k - |a|..k - |a| + |p|];
    } else if b != "" {
      OccursChars(s, p, k);
      assert s[|a|] == b[0] && b[0] != p[|a| - k];
    }
  }

  /** Text without `<` in front only moves the markers of what follows. */
  lemma Shift(a: string, b: string, p: string, k: nat)
    requires IsMarker(p) && '<' !in a
    ensures OccursAt(a + b, p, k) <==> k >= |a| && OccursAt(b, p, k - |a|)
  {
    MarkerShape(p);
    hide START, END, IsMarker;
    var s := a + b;
    if k < |a| {
      OccursChars(s, p, k);
      assert s[k] == a[k] && a[k] in a && p[0] == '<';
    } else if k + |p| <= |s| {
      assert b[k - |a|..k - |a| + |p|] == s[k..k + |p|];
    }
  }

  /** A marker followed by `rest` adds its own occurrence and nothing else. */
  lemma HeadMarker(m: string, rest: string, p: string, k: nat)
    requires IsMarker(m) && IsMarker(p)
    ensures OccursAt(m + rest, p, k) <==>
            (k == 0 && p == m) || (k >= |m| && OccursAt(rest, p, k - |m|))
  {
    MarkerShape(p);
    MarkerShape(m);
    var s := m + rest;
    if k >= |m| {
      assert k + |p| <= |s| ==> s[k..k + |p|] == rest[k - |m|..k - |m| + |p|];
    } else if k > 0 {
      OccursChars(s, p, k);
      assert s[k] == m[k] && p[0] == '<';
    } else if p == m {
      assert s[0..|p|] == p;
    } else {
      OccursChars(s, p, 0);
      assert s[0 + 17] == m[17] && m[17] != p[17];
    }
  }

  // ---------- what replacing does ----------

  function AfterStart(section: string, after: string): string {
    "\n" + (section + ("\n" + (END + after)))
  }

  lemma AfterStartMarkers(section: string, after: string, p: string, k: nat)
    requires MarkerFree(after) && IsMarker(p)
    ensures OccursAt(AfterStart(section, after), p, k) <==>
            || (k == |section| + 2 && p == END)
            || (k >= 1 && OccursAt(section, p, k - 1))
  {
    MarkerShape(END);
    hide START, END, OccursAt, IsMarker;
    var tail := END + after;
    var rest := "\n" + tail;
    Shift("\n", section + rest, p, k);
    if k >= 1 {
      Seam(section, rest, p, k - 1);
    }
    var k1 := k - 1 - |section|;
    if k1 >= 0 {
      Shift("\n", tail, p, k1);
    }
    if k1 >= 1 {
      assert IsMarker(END) by { TheMarkers(); }
      HeadMarker(END, after, p, k1 - 1);
      assert k1 >= 25 ==> !OccursAt(after, p, k1 - 25) by { FreeMeans(after, p); }
    }
  }

  lemma TheMarkers()
    ensures IsMarker(START) && IsMarker(END)
    ensures |START| == 26 && START[0] == '<'
  {
  }

  lemma FreeMeans(s: string, p: string)
    requires MarkerFree(s) && IsMarker(p)
    ensures forall k: nat :: !OccursAt(s, p, k)
  {
  }

  /** The markers of a body with a managed section: the two that delimit it, and those that the
      section itself contains. */
  lemma PlacedMarkers(before: string, section: string, after: string, p: string, k: nat)
    requires MarkerFree(before) && MarkerFree(after) && IsMarker(p)
    ensures OccursAt(Placed(before, section, after), p, k) <==>
            || (k == |before| && p == START)
            || (k == |before| + 28 + |section| && p == END)
            || (k >= |before| + 27 && OccursAt(section, p, k - |before| - 27))
  {
    TheMarkers();
    FreeMeans(before, p);
    hide START, END, OccursAt, IsMarker, MarkerFree;
    var rest := AfterStart(section, after);
    var block := START + rest;
    assert Placed(before, section, after) == before + block;
    Seam(before, block, p, k);
    if k >= |before| {
      HeadMarker(START, rest, p, k - |before|);
    }
    if k >= |before| + 26 {
      AfterStartMarkers(section, after, p, k - |before| - 26);
    }
  }

  /** The body around a managed section is unmanaged text: the part before the start marker, the
      part after the end marker, and any body without markers once its trailing space is cut. */
  lemma Outside(body: string, i: nat, j: nat)
    requires ManagedAt(body, i, j)
    ensures j + |END| <= |body|
    ensures MarkerFree(body[..i]) && MarkerFree(body[j + |END|..])
  {
    var after := body[j + |END|..];
    forall k: nat, p | IsMarker(p)
      ensures !OccursAt(body[..i], p, k) && !OccursAt(after, p, k)
    {
      assert k + |p| <= i ==> body[..i][k..k + |p|] == body[k..k + |p|];
      assert OccursAt(body[..i], p, k) ==> OccursAt(body, p, k);
      var m := j + |END| + k;
      assert m + |p| <= |body| ==> after[k..k + |p|] == body[m..m + |p|];
      assert OccursAt(after, p, k) ==> OccursAt(body, p, m);
    }
  }

  lemma Trimmed(body: string)
    requires MarkerFree(body)
    ensures MarkerFree(TrimEnd(body) + "\n\n")
  {
    var t := TrimEnd(body);
    forall k: nat, p | IsMarker(p)
      ensures !OccursAt(t + "\n\n", p, k)
    {
      Seam(t, "\n\n", p, k);
      MarkerShape(p);
      assert k + |p| <= |t| ==> t[k..k + |p|] == body[k..k + |p|];
      assert OccursAt(t, p, k) ==> OccursAt(body, p, k);
    }
  }

  /** A body is accepted exactly when it holds no marker or one managed section. */
  lemma AcceptedBodies(body: string, section: string)
    ensures ReplaceSection(body, section).Ok? <==> MarkerFree(body) || HasManaged(body)
  {
    hide Managed, TrimEnd, IndexOf, OccursAt;
    var first, last := IndexOf(body, START, 0), IndexOf(body, END, 0);
    MarkerShape(START);
    if first.Some? && last.Some? {
      var i, j := first.value, last.value;
      Alone(body, START, i);
      Alone(body, END, j);
      Apart(body, i, j);
      assert ManagedAt(body, i, j) <==> ReplaceSection(body, section).Ok?;
    }
  }

  lemma Apart(body: string, i: nat, j: nat)
    requires OccursAt(body, START, i) && OccursAt(body, END, j)
    ensures i != j
  {
    OccursChars(body, START, i);
    OccursChars(body, END, j);
    MarkerShape(START);
    assert START[17] == body[i + 17] && END[17] == body[j + 17];
  }

  lemma ReplaceUnmanaged(body: string, section: string)
    requires MarkerFree(body)
    ensures ReplaceSection(body, section) == Ok(Placed(TrimEnd(body) + "\n\n", section, "\n"))
  {
    hide Managed, TrimEnd;
  }

  lemma ReplaceManaged(body: string, section: string, i: nat, j: nat)
    requires ManagedAt(body, i, j)
    ensures j + |END| <= |body|
    ensures ReplaceSection(body, section) == Ok(Placed(body[..i], section, body[j + |END|..]))
  {
    hide Managed, TrimEnd;
    assert IndexOf(body, START, 0) == Some(i) && IndexOf(body, END, 0) == Some(j);
    Alone(body, START, i);
    Alone(body, END, j);
  }

  /** The second search of the code finds nothing exactly when the first hit is the only one. */
  lemma Alone(body: string, p: string, i: nat)
    requires IsMarker(p) && IndexOf(body, p, 0) == Some(i)
    ensures IndexOf(body, p, i + |p|).None? <==> forall k: nat :: OccursAt(body, p, k) ==> k == i
  {
    MarkerShape(p);
    OccursChars(body, p, i);
    forall k: nat | i < k < i + |p|
      ensures !OccursAt(body, p, k)
    {
      OccursChars(body, p, k);
      assert body[i + (k - i)] == p[k - i];
      assert p[0] == '<' && p[k - i] != '<';
    }
  }

  /** A replaced body holds exactly one managed section when the section itself contains no
      marker, and is refused from then on when it does. */
  lemma PlacedShape(before: string, section: string, after: string)
    requires MarkerFree(before) && MarkerFree(after)
    ensures MarkerFree(section) ==>
              ManagedAt(Placed(before, section, after), |before|, |before| + 28 + |section|)
    ensures !MarkerFree(section) ==>
              var body := Placed(before, section, after);
              !MarkerFree(body) && !HasManaged(body)
  {
    hide Placed;
    var body := Placed(before, section, after);
    forall k: nat, p | IsMarker(p)
      ensures OccursAt(body, p, k) <==>
              || (k == |before| && p == START)
              || (k == |before| + 28 + |section| && p == END)
              || (k >= |before| + 27 && OccursAt(section, p, k - |before| - 27))
    {
      PlacedMarkers(before, section, after, p, k);
    }
    if !MarkerFree(section) {
      var k: nat :| OccursAt(section, START, k) || OccursAt(section, END, k);
      assert k + 24 <= |section|;
      assert OccursAt(body, START, |before|) && OccursAt(body, END, |before| + 28 + |section|);
      assert IsMarker(START) && IsMarker(END);
      assert OccursAt(section, START, k) ==> OccursAt(body, START, |before| + 27 + k);
      assert OccursAt(section, END, k) ==> OccursAt(body, END, |before| + 27 + k);
    }
  }

  /** Replacing writes one section between exactly one start and one end marker and leaves the
      text outside as it was; a second replacement is accepted exactly when the first section is
      free of markers, and then the first one leaves no trace. */
  lemma ReplaceTwice(body: string, first: string, second: string)
    requires ReplaceSection(body, first).Ok?
    ensures var once := ReplaceSection(body, first).value;
            && (ReplaceSection(once, second).Ok? <==> MarkerFree(first))
            && (MarkerFree(first) ==> ReplaceSection(once, second) == ReplaceSection(body, second))
    ensures MarkerFree(first) ==> HasManaged(ReplaceSection(body, first).value)
  {
    AcceptedBodies(body, first);
    hide ReplaceSection, OccursAt, TrimEnd;
    if MarkerFree(body) {
      ReplaceUnmanaged(body, first);
      ReplaceUnmanaged(body, second);
      Trimmed(body);
      NewlineIsFree();
      PlacedAgain(TrimEnd(body) + "\n\n", first, second, "\n");
    } else {
      var i: nat, j: nat :| ManagedAt(body, i, j);
      ReplaceManaged(body, first, i, j);
      ReplaceManaged(body, second, i, j);
      Outside(body, i, j);
      PlacedAgain(body[..i], first, second, body[j + |END|..]);
    }
  }

  lemma NewlineIsFree()
    ensures MarkerFree("\n")
  {
    MarkerShape(START);
  }

  lemma PlacedAgain(before: string, first: string, second: string, after: string)
    requires MarkerFree(before) && MarkerFree(after)
    ensures var once := Placed(before, first, after);
            && (ReplaceSection(once, second).Ok? <==> MarkerFree(first))
            && (MarkerFree(first) ==>
                  && ReplaceSection(once, second) == Ok(Placed(before, second, after))
                  && HasManaged(once))
  {
    hide ReplaceSection, OccursAt;
    var once := Placed(before, first, after);
    PlacedShape(before, first, after);
    AcceptedBodies(once, second);
    var i, j := |before|, |before| + 28 + |first|;
    if MarkerFree(first) {
      ReplaceManaged(once, second, i, j);
      assert once[..i] == before;
      MarkerShape(START);
      assert once[j + |END|..] == after;
    }
  }

  // ---------- the section of a publication ----------

  const ATTACHMENTS := "https://github.com/user-attachments/assets/"
  const HEADING := "## Feature captures"
  const HEAD_BEFORE := "PR head at upload: `"
  const HEAD_NOTES := "`. See the testing notes for "
  const HEAD_SCOPE := "exercised behavior and limitations; "
  const HEAD_DISCLAIMER := "uploading media is not a test result."
  const HEAD_AFTER := HEAD_NOTES + HEAD_SCOPE + HEAD_DISCLAIMER

  datatype ContentType = ImagePng | ImageJpeg | VideoWebm | VideoMp4 {
    function MimeType(): string {
      match this
      case ImagePng => "image/png"
      case ImageJpeg => "image/jpeg"
      case VideoWebm => "video/webm"
      case VideoMp4 => "video/mp4"
    }

    predicate IsImage() {
      StartsWith(MimeType(), "image/")
    }
  }

  datatype Asset = Asset(
    file: string, contentType: ContentType, sha256: string, sizeBytes: nat, url: Option<string>)
  {
    predicate IsUploaded() {
      url.Some? && StartsWith(url.value, ATTACHMENTS)
    }

    /** No url, or the empty one, which the upload loop treats alike. */
    predicate NeedsUrl() {
      url.None? || url.value == ""
    }
  }

  datatype Publication = Publication(headSha: string, media: seq<Asset>)

  /** Every run of white space becomes one space. */
  function CollapseSpaces(s: string): string {
    if s == "" then ""
    else
      var init, last := CollapseSpaces(s[..|s| - 1]), s[|s| - 1];
      if !IsSpace(last) then init + [last] else if |s| > 1 && IsSpace(s[|s| - 2]) then init else init + " "
  }

  function RemoveMarkup(s: string): (r: string)
    ensures '<' !in r
  {
    if s == "" then ""
    else RemoveMarkup(s[..|s| - 1]) + if s[|s| - 1] in "\\[]<>`" then "" else [s[|s| - 1]]
  }

  function Label(file: string): string {
    RemoveMarkup(CollapseSpaces(file))
  }

  function Paragraph(item: Asset): string
    requires item.url.Some?
  {
    var caption := Label(item.file);
    if item.contentType.IsImage() then ("![" + caption + "](") + (item.url.value + ")")
    else (caption + "\n\n") + item.url.value
  }

  // ---------- what a section says ----------

  /** PNG and JPEG captures are embedded as images, videos are given by their label and a bare url. */
  lemma ImagesAreEmbedded(item: Asset)
    requires item.url.Some?
    ensures Paragraph(item) ==
            if item.contentType == ImagePng || item.contentType == ImageJpeg
            then "![" + Label(item.file) + "](" + item.url.value + ")"
            else Label(item.file) + "\n\n" + item.url.value
  {
    assert StartsWith("image/png", "image/") && StartsWith("image/jpeg", "image/");
    assert "video/webm"[0] == 'v' && "video/mp4"[0] == 'v';
    StartsWithHead("video/webm", "image/");
    StartsWithHead("video/mp4", "image/");
    hide Label, StartsWith;
  }

  /** Everything but white space, and the first of every run of white space. */
  function KeptSpaces(s: string): set<nat> {
    set i: nat | i < |s| && IsKeptAt(s, i)
  }

  predicate IsKeptAt(s: string, i: nat)
    requires i < |s|
  {
    !IsSpace(s[i]) || i == 0 || !IsSpace(s[i - 1])
  }

  predicate IsSpaced(kept: string, r: string) {
    |kept| == |r| && forall k :: 0 <= k < |kept| ==> r[k] == if IsSpace(kept[k]) then ' ' else kept[k]
  }

  lemma {:induction false} CollapsedMeaning(s: string)
    ensures exists kept :: IsSelection(s, KeptSpaces(s), kept) && IsSpaced(kept, CollapseSpaces(s))
    decreases |s|
  {
    hide IsSelection, IsSpace;
    if s == "" {
      NothingSelected(s);
      assert KeptSpaces(s) == {} && IsSpaced("", CollapseSpaces(s));
    } else {
      var init, last := s[..|s| - 1], s[|s| - 1];
      CollapsedMeaning(init);
      var kept :| IsSelection(init, KeptSpaces(init), kept) && IsSpaced(kept, CollapseSpaces(init));
      assert init + [last] == s;
      var keep := !IsSpace(last) || init == "" || !IsSpace(init[|init| - 1]);
      SelectNext(init, KeptSpaces(init), kept, last, keep);
      assert forall i: nat :: i < |init| ==> (IsKeptAt(s, i) <==> IsKeptAt(init, i));
      assert IsKeptAt(s, |init|) <==> keep;
      assert KeptSpaces(s) == if keep then KeptSpaces(init) + {|init|} else KeptSpaces(init);
      assert keep ==> IsSpaced(kept + [last], CollapseSpaces(s));
    }
  }

  function WithoutMarkup(s: string): set<nat> {
    set i: nat | i < |s| && s[i] !in "\\[]<>`"
  }

  lemma {:induction false} MarkupMeaning(s: string)
    ensures IsSelection(s, WithoutMarkup(s), RemoveMarkup(s))
    decreases |s|
  {
    hide IsSelection;
    if s == "" {
      NothingSelected(s);
      assert WithoutMarkup(s) == {};
    } else {
      var init, last := s[..|s| - 1], s[|s| - 1];
      MarkupMeaning(init);
      var keep := last !in "\\[]<>`";
      SelectNext(init, WithoutMarkup(init), RemoveMarkup(init), last, keep);
      assert init + [last] == s && RemoveMarkup(init) + "" == RemoveMarkup(init);
      assert WithoutMarkup(s) == if keep then WithoutMarkup(init) + {|init|} else WithoutMarkup(init);
    }
  }

  /** A label is the file name with one space for every run of white space, and then without the
      characters of markup, everything else in order. */
  lemma LabelMeaning(file: string)
    ensures exists kept, spaced ::
              && IsSelection(file, KeptSpaces(file), kept) && IsSpaced(kept, spaced)
              && IsSelection(spaced, WithoutMarkup(spaced), Label(file))
  {
    CollapsedMeaning(file);
    MarkupMeaning(CollapseSpaces(file));
    hide IsSelection, IsSpaced;
  }

  function HeadLine(sha: string): string {
    HEAD_BEFORE + (sha + HEAD_AFTER)
  }

  function JoinParagraphs(parts: seq<string>): string {
    if parts == [] then ""
    else if |parts| == 1 then parts[0]
    else parts[0] + ("\n\n" + JoinParagraphs(parts[1..]))
  }

  function Paragraphs(media: seq<Asset>): (parts: seq<string>)
    requires forall m :: m in media ==> m.url.Some?
    ensures |parts| == |media| && forall i :: 0 <= i < |media| ==> parts[i] == Paragraph(media[i])
  {
    seq(|media|, i requires 0 <= i < |media| => Paragraph(media[i]))
  }

  function MediaSection(p: Publication): Result<string, Error> {
    if p.media == [] then Err(NoCaptures)
    else if exists m :: m in p.media && !m.IsUploaded() then Err(NotUploaded)
    else Ok(JoinParagraphs([HEADING, HeadLine(p.headSha)] + Paragraphs(p.media)))
  }

  /** The paragraphs of the captures, each after a blank line. */
  function Appended(media: seq<Asset>): string
    requires forall m :: m in media ==> m.url.Some?
  {
    if media == [] then "" else Appended(media[..|media| - 1]) + ("\n\n" + Paragraph(media[|media| - 1]))
  }

  lemma {:induction false} JoinMore(parts: seq<string>, last: string)
    requires parts != []
    ensures JoinParagraphs(parts + [last]) == JoinParagraphs(parts) + ("\n\n" + last)
    decreases |parts|
  {
    var all := parts + [last];
    assert all[1..] == parts[1..] + [last];
    if |parts| == 1 {
      assert all[1..] == [last];
    } else {
      JoinMore(parts[1..], last);
      var rest := JoinParagraphs(parts[1..]);
      hide JoinParagraphs;
      assert parts[0] + ("\n\n" + (rest + ("\n\n" + last))) == parts[0] + ("\n\n" + rest) + ("\n\n" + last);
    }
  }

  lemma {:induction false} JoinIsAppended(head: seq<string>, media: seq<Asset>)
    requires head != [] && forall m :: m in media ==> m.url.Some?
    ensures JoinParagraphs(head + Paragraphs(media)) == JoinParagraphs(head) + Appended(media)
    decreases |media|
  {
    hide JoinParagraphs, Paragraph;
    if media == [] {
      assert head + Paragraphs(media) == head && JoinParagraphs(head) + "" == JoinParagraphs(head);
    } else {
      var init, last := media[..|media| - 1], media[|media| - 1];
      assert forall m :: m in init ==> m in media;
      JoinIsAppended(head, init);
      var parts := head + Paragraphs(init);
      assert head + Paragraphs(media) == parts + [Paragraph(last)];
      JoinMore(parts, Paragraph(last));
    }
  }

  lemma HeadText(sha: string)
    ensures JoinParagraphs([HEADING, HeadLine(sha)]) ==
            HEADING + "\n\n" + HEAD_BEFORE + sha + HEAD_NOTES + HEAD_SCOPE + HEAD_DISCLAIMER
  {
    hide HEADING, HEAD_BEFORE, HEAD_NOTES, HEAD_SCOPE, HEAD_DISCLAIMER;
    assert [HEADING, HeadLine(sha)][1..] == [HeadLine(sha)];
    assert JoinParagraphs([HeadLine(sha)]) == HeadLine(sha);
  }

  /** A section is made exactly when there are captures and all are uploaded; then it is the heading, the
      line about the head, and one paragraph for each capture, in order. */
  lemma SectionMeaning(p: Publication)
    ensures MediaSection(p).Ok? <==> p.media != [] && forall m :: m in p.media ==> m.IsUploaded()
    ensures MediaSection(p).Ok? ==>
              MediaSection(p).value ==
              "## Feature captures" + "\n\n" + "PR head at upload: `" + p.headSha + "`. See the testing notes for "
              + "exercised behavior and limitations; " + "uploading media is not a test result." + Appended(p.media)
  {
    hide JoinParagraphs, Paragraph, HeadLine, Appended, Asset.IsUploaded;
    if MediaSection(p).Ok? {
      UploadedHaveUrls(p.media);
      JoinIsAppended([HEADING, HeadLine(p.headSha)], p.media);
      HeadText(p.headSha);
    }
  }

  lemma UploadedHaveUrls(media: seq<Asset>)
    requires forall m :: m in media ==> m.IsUploaded()
    ensures forall m :: m in media ==> m.url.Some?
  {
  }

  lemma FreeSeam(a: string, b: string)
    requires b == "" || b[0] in "<\n`()"
    ensures MarkerFree(a + b) <==> MarkerFree(a) && MarkerFree(b)
  {
    forall k: nat, p | IsMarker(p)
      ensures OccursAt(a + b, p, k) <==> OccursAt(a, p, k) || (k >= |a| && OccursAt(b, p, k - |a|))
    {
      Seam(a, b, p, k);
    }
    assert IsMarker(START) && IsMarker(END);
    hide IsMarker, OccursAt;
    forall k: nat
      ensures OccursAt(b, START, k) ==> OccursAt(a + b, START, k + |a|)
      ensures OccursAt(b, END, k) ==> OccursAt(a + b, END, k + |a|)
    {
      assert k + |a| - |a| == k;
    }
  }

  lemma FreeShift(a: string, b: string)
    requires '<' !in a
    ensures MarkerFree(a + b) <==> MarkerFree(b)
  {
    forall k: nat, p | IsMarker(p)
      ensures OccursAt(a + b, p, k) <==> k >= |a| && OccursAt(b, p, k - |a|)
    {
      Shift(a, b, p, k);
    }
    assert IsMarker(START) && IsMarker(END);
    hide IsMarker, OccursAt;
    forall k: nat
      ensures OccursAt(b, START, k) ==> OccursAt(a + b, START, k + |a|)
      ensures OccursAt(b, END, k) ==> OccursAt(a + b, END, k + |a|)
    {
      assert k + |a| - |a| == k;
    }
  }

  lemma FreeWithout(a: string)
    requires '<' !in a
    ensures MarkerFree(a)
  {
    FreeShift(a, "");
    assert a + "" == a;
    MarkerShape(START);
  }

  lemma FreeParagraph(item: Asset)
    requires item.url.Some?
    ensures MarkerFree(Paragraph(item)) <==> MarkerFree(item.url.value)
  {
    hide MarkerFree, RemoveMarkup, CollapseSpaces;
    var caption := Label(item.file);
    var url := item.url.value;
    FreeShift("![" + caption + "](", url + ")");
    FreeSeam(url, ")");
    FreeWithout(")");
    FreeShift(caption + "\n\n", url);
  }

  lemma HeadTextIsPlain()
    ensures '<' !in HEAD_BEFORE && '<' !in HEAD_AFTER
    ensures HEAD_AFTER != "" && HEAD_AFTER[0] == '`'
  {
    BeforeIsPlain();
    NotesArePlain();
    ScopeIsPlain();
    DisclaimerIsPlain();
    hide HEAD_BEFORE, HEAD_NOTES, HEAD_SCOPE, HEAD_DISCLAIMER;
  }

  lemma BeforeIsPlain()
    ensures '<' !in HEAD_BEFORE
  {
  }

  lemma NotesArePlain()
    ensures '<' !in HEAD_NOTES
    ensures HEAD_NOTES != "" && HEAD_NOTES[0] == '`'
  {
  }

  lemma ScopeIsPlain()
    ensures '<' !in HEAD_SCOPE
  {
  }

  lemma DisclaimerIsPlain()
    ensures '<' !in HEAD_DISCLAIMER
  {
  }

  lemma FreeHeadLine(sha: string)
    ensures MarkerFree(HeadLine(sha)) <==> MarkerFree(sha)
  {
    hide MarkerFree;
    HeadTextIsPlain();
    hide HEAD_BEFORE, HEAD_AFTER;
    FreeShift(HEAD_BEFORE, sha + HEAD_AFTER);
    FreeSeam(sha, HEAD_AFTER);
    FreeWithout(HEAD_AFTER);
  }

  lemma HeadingIsFree()
    ensures MarkerFree(HEADING)
  {
    hide MarkerFree;
    FreeWithout(HEADING);
  }

  lemma {:induction false} FreeJoin(parts: seq<string>)
    ensures MarkerFree(JoinParagraphs(parts)) <==> forall p :: p in parts ==> MarkerFree(p)
    decreases |parts|
  {
    hide MarkerFree;
    FreeWithout("");
    if |parts| <= 1 {
    } else {
      var rest := JoinParagraphs(parts[1..]);
      FreeSeam(parts[0], "\n\n" + rest);
      FreeShift("\n\n", rest);
      FreeJoin(parts[1..]);
      assert parts == [parts[0]] + parts[1..];
    }
  }

  lemma FreeParts(first: string, second: string, rest: seq<string>)
    ensures (forall q :: q in [first, second] + rest ==> MarkerFree(q)) <==>
            MarkerFree(first) && MarkerFree(second) && forall q :: q in rest ==> MarkerFree(q)
  {
    hide MarkerFree;
    assert forall q :: q in [first, second] + rest <==> q == first || q == second || q in rest;
  }

  lemma FreeParagraphs(media: seq<Asset>)
    requires forall m :: m in media ==> m.url.Some?
    ensures (forall q :: q in Paragraphs(media) ==> MarkerFree(q)) <==>
            forall m :: m in media ==> MarkerFree(m.url.value)
  {
    hide MarkerFree, Paragraph;
    var parts := Paragraphs(media);
    forall i | 0 <= i < |media|
      ensures parts[i] in parts && media[i] in media
      ensures MarkerFree(parts[i]) <==> MarkerFree(media[i].url.value)
    {
      FreeParagraph(media[i]);
    }
  }

  /** A section contains a marker only if the head or a url does: the file names cannot bring
      one in, and none forms where the pieces meet. */
  lemma SectionIsFree(p: Publication)
    requires MediaSection(p).Ok?
    ensures MarkerFree(MediaSection(p).value) <==>
            && MarkerFree(p.headSha)
            && forall m :: m in p.media ==> MarkerFree(m.url.value)
  {
    hide MarkerFree, Paragraph, HeadLine, JoinParagraphs, HEADING, StartsWith;
    var media := Paragraphs(p.media);
    FreeJoin([HEADING, HeadLine(p.headSha)] + media);
    FreeParts(HEADING, HeadLine(p.headSha), media);
    HeadingIsFree();
    FreeHeadLine(p.headSha);
    FreeParagraphs(p.media);
  }

  // ---------- checking a published body ----------

  datatype Snapshot = Snapshot(headSha: string, body: Option<string>)

  predicate IsMissing(item: Asset, body: Option<string>) {
    !item.IsUploaded() || body.None? || !Contains(body.value, item.url.value)
  }

  function VerifySnapshot(p: Publication, section: string, pr: Snapshot): Result<(), Error> {
    if pr.headSha != p.headSha then Err(StaleEvidence)
    else if exists m :: m in p.media && IsMissing(m, pr.body) then Err(ArtifactMissing)
    else if pr.body.None? || !Contains(pr.body.value, Managed(section)) then Err(SectionChanged)
    else Ok(())
  }

  lemma {:induction false} JoinContains(parts: seq<string>, k: nat)
    requires k < |parts|
    ensures Contains(JoinParagraphs(parts), parts[k])
  {
    hide IndexOf, Contains;
    var s := JoinParagraphs(parts);
    if k == 0 {
      var rest := if |parts| == 1 then "" else "\n\n" + JoinParagraphs(parts[1..]);
      assert s == "" + parts[0] + rest;
      ContainsPart("", parts[0], rest);
    } else {
      JoinContains(parts[1..], k - 1);
      var tail := JoinParagraphs(parts[1..]);
      assert s == (parts[0] + "\n\n") + tail + "";
      ContainsPart(parts[0] + "\n\n", tail, "");
      ContainsTrans(s, tail, parts[k]);
    }
  }

  lemma ParagraphContainsUrl(m: Asset)
    requires m.url.Some?
    ensures Contains(Paragraph(m), m.url.value)
  {
    hide IndexOf, Contains, Label;
    var caption := Label(m.file);
    var url := m.url.value;
    if m.contentType.IsImage() {
      assert Paragraph(m) == ("![" + caption + "](") + url + ")";
      ContainsPart("![" + caption + "](", url, ")");
    } else {
      assert Paragraph(m) == (caption + "\n\n") + url + "";
      ContainsPart(caption + "\n\n", url, "");
    }
  }

  lemma SectionContainsUrl(p: Publication, m: Asset)
    requires MediaSection(p).Ok? && m in p.media
    ensures Contains(MediaSection(p).value, m.url.value)
  {
    hide IndexOf, Contains, JoinParagraphs, HEADING, HeadLine, Paragraph, StartsWith;
    var parts := [HEADING, HeadLine(p.headSha)] + Paragraphs(p.media);
    var k :| 0 <= k < |p.media| && p.media[k] == m;
    assert parts[k + 2] == Paragraph(m);
    JoinContains(parts, k + 2);
    ParagraphContainsUrl(m);
    ContainsTrans(JoinParagraphs(parts), Paragraph(m), m.url.value);
  }

  /** A pull request passes the check exactly when its head is the recorded one and its body contains
      the section between its two markers; the urls of the captures then stand in it too. */
  lemma SnapshotsAccepted(p: Publication, section: string, pr: Snapshot)
    requires MediaSection(p) == Ok(section)
    ensures VerifySnapshot(p, section, pr).Ok? <==>
              && pr.headSha == p.headSha && pr.body.Some?
              && exists before, after :: pr.body.value == before + (Managed(section) + after)
  {
    hide IndexOf, Contains, JoinParagraphs, OccursAt, Managed;
    if pr.body.Some? {
      var block := Managed(section);
      if Contains(pr.body.value, block) {
        var before, after := PartsOfContained(pr.body.value, block);
        forall m | m in p.media
          ensures Contains(pr.body.value, m.url.value)
        {
          SectionContainsUrl(p, m);
          ManagedContainsSection(section);
          ContainsTrans(pr.body.value, block, section);
          ContainsTrans(pr.body.value, section, m.url.value);
        }
      }
      if before, after :| pr.body.value == before + (block + after) {
        assert pr.body.value == before + block + after;
        ContainsPart(before, block, after);
      }
    }
  }

  lemma PartsOfContained(s: string, part: string) returns (before: string, after: string)
    requires Contains(s, part)
    ensures s == before + (part + after)
  {
    var i := IndexOf(s, part, 0).value;
    before, after := s[..i], s[i + |part|..];
  }

  lemma ManagedContainsSection(section: string)
    ensures Contains(Managed(section), section)
  {
    hide IndexOf, Contains, START, END;
    assert Managed(section) == (START + "\n") + section + ("\n" + END);
    ContainsPart(START + "\n", section, "\n" + END);
  }

  /** A body that replacing produced passes the check for the section that was put into it, and,
      when that section is free of markers, for no other one. */
  lemma VerifiesExactlyWhatWasWritten(p: Publication, body: string, section: string, written: string)
    requires MediaSection(p) == Ok(section)
    requires ReplaceSection(body, written).Ok?
    ensures var pr := Snapshot(p.headSha, Some(ReplaceSection(body, written).value));
            && (written == section ==> VerifySnapshot(p, section, pr).Ok?)
            && (MarkerFree(written) ==> (VerifySnapshot(p, section, pr).Ok? <==> written == section))
  {
    AcceptedBodies(body, written);
    hide IndexOf, Contains, JoinParagraphs, ReplaceSection, OccursAt, TrimEnd;
    var before, after;
    if MarkerFree(body) {
      ReplaceUnmanaged(body, written);
      Trimmed(body);
      NewlineIsFree();
      before, after := TrimEnd(body) + "\n\n", "\n";
    } else {
      var i: nat, j: nat :| ManagedAt(body, i, j);
      ReplaceManaged(body, written, i, j);
      Outside(body, i, j);
      before, after := body[..i], body[j + |END|..];
    }
    var new_body := Placed(before, written, after);
    ContainsPart(before, Managed(written), after);
    if MarkerFree(written) {
      OnlyThatSection(before, written, after, section);
    }
    if written == section {
      forall m | m in p.media
        ensures Contains(new_body, m.url.value)
      {
        SectionContainsUrl(p, m);
        assert Managed(section) == (START + "\n") + section + ("\n" + END);
        ContainsPart(START + "\n", section, "\n" + END);
        ContainsTrans(new_body, Managed(section), section);
        ContainsTrans(new_body, section, m.url.value);
      }
    }
  }

  lemma OnlyThatSection(before: string, written: string, after: string, section: string)
    requires MarkerFree(before) && MarkerFree(after) && MarkerFree(written)
    ensures Contains(Placed(before, written, after), Managed(section)) <==> section == written
  {
    hide MarkerFree, OccursAt;
    var body := Placed(before, written, after);
    ContainsPart(before, Managed(written), after);
    if Contains(body, Managed(section)) {
      var k := IndexOf(body, Managed(section), 0).value;
      PlacedShape(before, written, after);
      InsideManaged(body, section, k);
      assert k == |before| && |section| == |written|;
      SameBlock(before, written, after, section);
    }
  }

  lemma ManagedParts(section: string)
    ensures |START| == 26 && |END| == 24 && |Managed(section)| == |section| + 52
    ensures Managed(section)[..26] == START && Managed(section)[28 + |section|..] == END
    ensures Managed(section)[27..27 + |section|] == section
  {
    MarkerShape(START);
    hide START, END;
    assert Managed(section) == START + "\n" + section + "\n" + END;
  }

  lemma InsideManaged(body: string, section: string, k: nat)
    requires OccursAt(body, Managed(section), k)
    ensures OccursAt(body, START, k) && OccursAt(body, END, k + 28 + |section|)
  {
    var block := Managed(section);
    ManagedParts(section);
    hide START, END, Managed;
    assert body[k..k + 26] == body[k..k + |block|][..26];
    var j := 28 + |section|;
    assert body[k + j..k + j + 24] == body[k..k + |block|][j..];
  }

  lemma SameBlock(before: string, written: string, after: string, section: string)
    requires OccursAt(Placed(before, written, after), Managed(section), |before|)
    requires |section| == |written|
    ensures section == written
  {
    var body := Placed(before, written, after);
    var n := |Managed(section)|;
    assert body[|before|..|before| + n] == Managed(written);
    ManagedParts(section);
    ManagedParts(written);
  }

  // ---------- downloading what was published ----------

  type Bytes = seq<bv8>

  const MAX_ATTEMPTS := 6

  /** What a body yields: its chunks, and whether reading got to the end without an error. */
  datatype Content = Content(chunks: seq<Bytes>, complete: bool)

  datatype Response = Response(status: int, content: Option<Content>) {
    predicate IsOk() {
      200 <= status <= 299
    }
  }

  function Concat(chunks: seq<Bytes>): Bytes {
    if chunks == [] then [] else Concat(chunks[..|chunks| - 1]) + chunks[|chunks| - 1]
  }

  lemma {:induction false} ConcatGrows(chunks: seq<Bytes>, k: nat)
    requires k <= |chunks|
    ensures |Concat(chunks[..k])| <= |Concat(chunks)|
    decreases |chunks|
  {
    if k == |chunks| {
      assert chunks[..k] == chunks;
    } else {
      var init := chunks[..|chunks| - 1];
      assert chunks[..k] == init[..k];
      ConcatGrows(init, k);
    }
  }

  predicate IsMissingYet(response: Option<Response>) {
    response.Some? && response.value.status == 404
  }

  /** The content of the first answer that is not a 404 among at most six is good, complete, of the
      recorded size and of the recorded digest. */
  ghost predicate IsVerified(item: Asset, fetch: nat -> Option<Response>, digest: Bytes -> string) {
    item.IsUploaded() && exists n: nat :: n < MAX_ATTEMPTS && DeliversAt(item, fetch, digest, n)
  }

  ghost predicate DeliversAt(item: Asset, fetch: nat -> Option<Response>, digest: Bytes -> string, n: nat) {
    && (forall k: nat :: k < n ==> IsMissingYet(fetch(k)))
    && fetch(n).Some? && fetch(n).value.IsOk() && fetch(n).value.content.Some?
    && Delivers(item, fetch(n).value.content.value, digest)
  }

  ghost predicate Delivers(item: Asset, content: Content, digest: Bytes -> string) {
    && content.complete
    && |Concat(content.chunks)| == item.sizeBytes
    && digest(Concat(content.chunks)) == item.sha256
  }

  /** Read chunk by chunk, and stop as soon as there is more than was recorded. */
  method VerifyContent(item: Asset, content: Content, digest: Bytes -> string) returns (ok: bool)
    ensures ok <==> Delivers(item, content, digest)
  {
    var hashed: Bytes, size := [], 0;
    for k := 0 to |content.chunks|
      invariant hashed == Concat(content.chunks[..k]) && size == |hashed|
    {
      var chunk := content.chunks[k];
      assert content.chunks[..k + 1][..k] == content.chunks[..k];
      size := size + |chunk|;
      if size > item.sizeBytes {
        ConcatGrows(content.chunks, k + 1);
        return false;
      }
      hashed := hashed + chunk;
    }
    assert content.chunks[..|content.chunks|] == content.chunks;
    return content.complete && size == item.sizeBytes && digest(hashed) == item.sha256;
  }

  method VerifyPrMedia(item: Asset, fetch: nat -> Option<Response>, digest: Bytes -> string) returns (ok: bool)
    ensures ok <==> IsVerified(item, fetch, digest)
  {
    if !item.IsUploaded() {
      return false;
    }
    hide Delivers, Asset.IsUploaded;
    var attempt: nat := 0;
    var response := fetch(attempt);
    while response.Some? && response.value.status == 404 && attempt != MAX_ATTEMPTS - 1
      invariant attempt < MAX_ATTEMPTS && response == fetch(attempt)
      invariant forall k: nat :: k < attempt ==> IsMissingYet(fetch(k))
      decreases MAX_ATTEMPTS - attempt
    {
      attempt := attempt + 1;
      response := fetch(attempt);
    }
    OnlyAttempt(item, fetch, digest, attempt);
    if response.None? || !response.value.IsOk() || response.value.content.None? {
      return false;
    }
    ok := VerifyContent(item, response.value.content.value, digest);
  }

  /** The attempt that the loop ends with is the only one that can deliver. */
  lemma OnlyAttempt(item: Asset, fetch: nat -> Option<Response>, digest: Bytes -> string, last: nat)
    requires last < MAX_ATTEMPTS && forall k: nat :: k < last ==> IsMissingYet(fetch(k))
    requires !IsMissingYet(fetch(last)) || last == MAX_ATTEMPTS - 1
    ensures IsVerified(item, fetch, digest) <==> item.IsUploaded() && DeliversAt(item, fetch, digest, last)
  {
    hide Delivers, Asset.IsUploaded;
    forall n: nat | n < MAX_ATTEMPTS && n != last
      ensures !DeliversAt(item, fetch, digest, n)
    {
      assert if n < last then IsMissingYet(fetch(n)) else !IsMissingYet(fetch(last));
    }
  }

  // ---------- uploading and publishing ----------

  /** The answers of the outside world: the url an upload yields, whether the k-th save works,
      what the k-th reading of the pull request shows, whether its body can be written, the k-th
      answer to fetching the i-th file, and the digest. `None` and `false` are thrown errors. */
  datatype Services = Services(
    upload: nat -> Option<string>,
    save: nat -> bool,
    pullRequest: nat -> Option<Snapshot>,
    updateBody: bool,
    fetch: (nat, nat) -> Option<Response>,
    digest: Bytes -> string)

  /** `p` with the urls that the uploads in `done` yielded. */
  ghost function Filled(p: Publication, done: seq<nat>, services: Services): Publication {
    p.(media := seq(|p.media|, i requires 0 <= i < |p.media| =>
      if i in done then p.media[i].(url := services.upload(i)) else p.media[i]))
  }

  ghost predicate Ascending(s: seq<nat>) {
    forall i, j :: 0 <= i < j < |s| ==> s[i] < s[j]
  }

  ghost predicate Uploads(p: Publication, uploaded: seq<nat>, services: Services) {
    && Ascending(uploaded)
    && forall i :: i in uploaded ==>
         i < |p.media| && p.media[i].NeedsUrl() && services.upload(i).Some?
  }

  /** The k-th successful save stored the publication after the first k uploads. */
  ghost predicate SavedAsUploaded(p: Publication, saved: seq<Publication>, uploaded: seq<nat>,
                                  services: Services) {
    && |uploaded| <= |saved| <= |uploaded| + 1
    && forall k :: 0 <= k < |saved| ==> saved[k] == Filled(p, uploaded[..k], services)
  }

  ghost predicate AllUploaded(p: Publication, uploaded: seq<nat>, below: nat) {
    forall i: nat :: i < below && i < |p.media| && p.media[i].NeedsUrl() ==> i in uploaded
  }

  ghost predicate Checks(p: Publication, services: Services, reading: nat) {
    && MediaSection(p).Ok? && services.pullRequest(reading).Some?
    && VerifySnapshot(p, MediaSection(p).value, services.pullRequest(reading).value).Ok?
  }

  /** What is written when the pull request reads `shown`. */
  function NewBody(p: Publication, shown: Option<Snapshot>): Result<string, Error> {
    if shown.None? then Err(OperationFailed)
    else if shown.value.headSha != p.headSha then Err(HeadChanged)
    else
      var section := MediaSection(p);
      if section.Err? then Err(section.error)
      else ReplaceSection(if shown.value.body.Some? then shown.value.body.value else "", section.value)
  }

  lemma NoneYet(p: Publication, services: Services)
    ensures Uploads(p, [], services)
    ensures SavedAsUploaded(p, [], [], services) && SavedAsUploaded(p, [p], [], services)
    ensures Filled(p, [], services) == p
  {
  }

  lemma OneMore(p: Publication, saved: seq<Publication>, uploaded: seq<nat>, services: Services,
                index: nat)
    requires Uploads(p, uploaded, services) && (forall i :: i in uploaded ==> i < index)
    requires SavedAsUploaded(p, saved, uploaded, services) && |saved| == |uploaded| + 1
    requires index < |p.media| && p.media[index].NeedsUrl() && services.upload(index).Some?
    ensures Uploads(p, uploaded + [index], services)
    ensures SavedAsUploaded(p, saved, uploaded + [index], services)
    ensures var before := Filled(p, uploaded, services);
            && before.media[index] == p.media[index]
            && Filled(p, uploaded + [index], services)
               == before.(media := before.media[index := p.media[index].(url := services.upload(index))])
  {
    assert forall k :: 0 <= k < |uploaded| ==> uploaded[k] in uploaded;
    assert forall k :: 0 <= k <= |uploaded| ==> (uploaded + [index])[..k] == uploaded[..k];
  }

  lemma OneSaved(p: Publication, saved: seq<Publication>, uploaded: seq<nat>, services: Services)
    requires SavedAsUploaded(p, saved, uploaded, services) && |saved| == |uploaded|
    ensures SavedAsUploaded(p, saved + [Filled(p, uploaded, services)], uploaded, services)
  {
    assert uploaded[..|uploaded|] == uploaded;
  }

  function FetchesOf(services: Services, i: nat): nat -> Option<Response> {
    (k: nat) => services.fetch(i, k)
  }

  ghost predicate AllVerified(p: Publication, services: Services, below: nat) {
    forall i: nat :: i < below && i < |p.media| ==>
      IsVerified(p.media[i], FetchesOf(services, i), services.digest)
  }

  /** Both readings of the pull request have to show the publication, and every file has to
      download as it was recorded. */
  method VerifyPrMediaPublication(p: Publication, services: Services) returns (ok: bool)
    ensures ok <==> Checks(p, services, 1) && AllVerified(p, services, |p.media|) && Checks(p, services, 2)
  {
    hide IsVerified, MediaSection, VerifySnapshot;
    var section := MediaSection(p);
    if section.Err? {
      return false;
    }
    var first := services.pullRequest(1);
    if first.None? || VerifySnapshot(p, section.value, first.value).Err? {
      return false;
    }
    for i := 0 to |p.media|
      invariant AllVerified(p, services, i)
    {
      var good := VerifyPrMedia(p.media[i], FetchesOf(services, i), services.digest);
      if !good {
        return false;
      }
    }
    var second := services.pullRequest(2);
    return second.Some? && VerifySnapshot(p, section.value, second.value).Ok?;
  }

  method UploadMissing(initial: Publication, services: Services)
    returns (publication: Publication, saved: seq<Publication>, ghost uploaded: seq<nat>, complete: bool)
    ensures Uploads(initial, uploaded, services)
    ensures SavedAsUploaded(initial, saved, uploaded, services)
    ensures complete <==> |saved| == |uploaded| + 1 && AllUploaded(initial, uploaded, |initial.media|)
    ensures complete ==> publication == saved[|saved| - 1]
    ensures !complete && |saved| == |uploaded| ==> !services.save(|saved|)
    ensures !complete && |saved| > |uploaded| ==>
              exists i: nat :: i < |initial.media| && initial.media[i].NeedsUrl()
                               && i !in uploaded && services.upload(i).None?
  {
    hide Uploads, SavedAsUploaded;
    publication, saved, uploaded, complete := initial, [], [], false;
    NoneYet(initial, services);
    if !services.save(0) {
      return;
    }
    saved := [publication];
    var index := 0;
    while index < |publication.media|
      invariant index <= |initial.media| == |publication.media|
      invariant Uploads(initial, uploaded, services)
      invariant forall i :: i in uploaded ==> i < index
      invariant AllUploaded(initial, uploaded, index)
      invariant |saved| == |uploaded| + 1 && SavedAsUploaded(initial, saved, uploaded, services)
      invariant publication == saved[|saved| - 1] == Filled(initial, uploaded, services)
    {
      var item := publication.media[index];
      if item.NeedsUrl() {
        var url := services.upload(index);
        if url.None? {
          return;
        }
        OneMore(initial, saved, uploaded, services, index);
        publication := publication.(media := publication.media[index := item.(url := url)]);
        uploaded := uploaded + [index];
        if !services.save(|saved|) {
          return;
        }
        OneSaved(initial, saved, uploaded, services);
        saved := saved + [publication];
      }
      index := index + 1;
    }
    complete := true;
  }

  /** Publishing writes the body exactly when every missing url was uploaded and saved and the
      head did not move, and reports success exactly when both checks of what the pull request
      then shows succeed too and every file downloads as recorded. */
  method PublishPrMedia(initial: Publication, services: Services)
    returns (published: bool, written: Option<string>, saved: seq<Publication>, ghost uploaded: seq<nat>)
    ensures Uploads(initial, uploaded, services)
    ensures SavedAsUploaded(initial, saved, uploaded, services)
    ensures written.Some? ==>
              && |saved| == |uploaded| + 1 && AllUploaded(initial, uploaded, |initial.media|)
              && NewBody(saved[|saved| - 1], services.pullRequest(0)) == Ok(written.value)
    ensures |saved| == |uploaded| + 1 && AllUploaded(initial, uploaded, |initial.media|)
            && NewBody(saved[|saved| - 1], services.pullRequest(0)).Ok? && services.updateBody
            ==> written.Some?
    ensures published <==>
              && written.Some?
              && Checks(saved[|saved| - 1], services, 1) && Checks(saved[|saved| - 1], services, 2)
              && AllVerified(saved[|saved| - 1], services, |initial.media|)
  {
    var publication, complete;
    published, written := false, None;
    publication, saved, uploaded, complete := UploadMissing(initial, services);
    if complete {
      var body := NewBody(publication, services.pullRequest(0));
      if body.Ok? && services.updateBody {
        written := Some(body.value);
        published := VerifyPrMediaPublication(publication, services);
      }
    }
  }

  /** A run that starts from any saved publication uploads exactly what was still missing there:
      nothing that was saved is uploaded again. */
  lemma ResumeUploadsTheRest(initial: Publication, saved: seq<Publication>, uploaded: seq<nat>,
                             services: Services, k: nat, i: nat)
    requires Uploads(initial, uploaded, services)
    requires SavedAsUploaded(initial, saved, uploaded, services)
    requires k < |saved| && i < |initial.media|
    ensures |saved[k].media| == |initial.media|
    ensures saved[k].media[i].NeedsUrl() <==>
            initial.media[i].NeedsUrl() && (i !in uploaded[..k] || services.upload(i) == Some(""))
  {
    assert saved[k] == Filled(initial, uploaded[..k], services);
    assert i in uploaded[..k] ==> i in uploaded;
  }

  /** After a successful write, a pull request that shows the written body passes the check. */
  lemma WrittenBodyChecks(p: Publication, shown: Snapshot)
    requires NewBody(p, Some(shown)).Ok?
    ensures VerifySnapshot(p, MediaSection(p).value,
                           Snapshot(shown.headSha, Some(NewBody(p, Some(shown)).value))).Ok?
  {
    var body := if shown.body.Some? then shown.body.value else "";
    var section := MediaSection(p).value;
    hide MediaSection, ReplaceSection, VerifySnapshot, MarkerFree;
    VerifiesExactlyWhatWasWritten(p, body, section, section);
  }
}

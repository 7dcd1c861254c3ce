/** Attachment ids (`apps/server/src/attachmentStore.ts`): a safe segment made from a thread id,
    joined with a UUID, and the parser that takes the segment out again. */
module Attachments {
  import opened Selections
  import opened Text
  import opened Wrappers

  const MAX_SEGMENT_CHARS := 80
  const UUID_CHARS := 36

  // ---------- the safe segment ----------

  /** `[a-z0-9_]` */
  predicate IsWord(c: char) {
    'a' <= c <= 'z' || IsDigit(c) || c == '_'
  }

  predicate IsSafe(c: char) {
    IsWord(c) || c == '-'
  }

  predicate IsEdge(c: char) {
    c == '-' || c == '_'
  }

  function DropWhile(s: string, p: char -> bool): (r: string)
    ensures |r| <= |s| && r == s[|s| - |r|..]
    ensures r == "" || !p(r[0])
    ensures forall k :: 0 <= k < |s| - |r| ==> p(s[k])
  {
    if s == "" || !p(s[0]) then s else DropWhile(s[1..], p)
  }

  function DropEndWhile(s: string, p: char -> bool): (r: string)
    ensures r <= s
    ensures r == "" || !p(r[|r| - 1])
    ensures forall k :: |r| <= k < |s| ==> p(s[k])
  {
    if s == "" || !p(s[|s| - 1]) then s else DropEndWhile(s[..|s| - 1], p)
  }

  predicate IsUnsafe(c: char) {
    !IsSafe(c)
  }

  predicate IsDash(c: char) {
    c == '-'
  }

  /** Every longest run of characters in `p` becomes one dash. */
  function DashRuns(s: string, p: char -> bool): string {
    if s == "" then ""
    else
      var init, last := DashRuns(s[..|s| - 1], p), s[|s| - 1];
      if !p(last) then init + [last] else if |s| > 1 && p(s[|s| - 2]) then init else init + "-"
  }

  /** First every run of unsafe characters becomes a dash, then every run of dashes. */
  function Dashed(s: string): string {
    DashRuns(DashRuns(s, IsUnsafe), IsDash)
  }

  function Truncate(s: string): string {
    if |s| <= MAX_SEGMENT_CHARS then s else s[..MAX_SEGMENT_CHARS]
  }

  /** Dashes and underscores off both ends, the length limit, and off the end once more. */
  function Strip(dashed: string): string {
    DropEndWhile(Truncate(DropEndWhile(DropWhile(dashed, IsEdge), IsEdge)), IsEdge)
  }

  function ToSafeThreadAttachmentSegment(threadId: string): Option<string> {
    var segment := Strip(Dashed(ToLower(Trim(threadId))));
    if segment == "" then None else Some(segment)
  }

  predicate NoDoubleDash(s: string) {
    forall k :: 1 <= k < |s| && s[k] == '-' ==> s[k - 1] != '-'
  }

  predicate AllSafe(s: string) {
    forall k :: 0 <= k < |s| ==> IsSafe(s[k])
  }

  /** The segments that thread ids are turned into. */
  predicate IsSegment(s: string) {
    && 0 < |s| <= MAX_SEGMENT_CHARS
    && AllSafe(s) && NoDoubleDash(s)
    && !IsEdge(s[0]) && !IsEdge(s[|s| - 1])
  }

  lemma DashRunsNext(s: string, c: char, p: char -> bool)
    ensures DashRuns(s + [c], p) ==
            if !p(c) then DashRuns(s, p) + [c]
            else if s != "" && p(s[|s| - 1]) then DashRuns(s, p) else DashRuns(s, p) + "-"
  {
    assert (s + [c])[..|s|] == s;
  }

  lemma {:induction false} DashRunsEnd(s: string)
    ensures DashRuns(s, IsUnsafe) == "" <==> s == ""
    ensures s != "" ==> var d := DashRuns(s, IsUnsafe); d[|d| - 1] == '-' <==> !IsWord(s[|s| - 1])
    decreases |s|
  {
    if s == "" {
    } else {
      DashRunsEnd(s[..|s| - 1]);
    }
  }

  /** A word character stays, and the first of a run of others becomes a dash. */
  lemma DashedNext(s: string, c: char)
    ensures Dashed(s + [c]) ==
            if IsWord(c) then Dashed(s) + [c] else if s != "" && !IsWord(s[|s| - 1]) then Dashed(s) else Dashed(s) + "-"
  {
    var safe := DashRuns(s, IsUnsafe);
    DashRunsEnd(s);
    DashRunsNext(s, c, IsUnsafe);
    DashRunsNext(safe, c, IsDash);
    DashRunsNext(safe, '-', IsDash);
    hide DashRuns;
    assert c == '-' ==> !IsWord(c);
    assert safe + "-" == safe + ['-'];
  }

  /** The word characters, and the first of every run of others. */
  function KeptOf(s: string): set<nat> {
    set i: nat | i < |s| && IsKeptAt(s, i)
  }

  predicate IsKeptAt(s: string, i: nat)
    requires i < |s|
  {
    IsWord(s[i]) || i == 0 || IsWord(s[i - 1])
  }

  ghost predicate IsDashed(s: string, d: string) {
    exists kept :: IsSelection(s, KeptOf(s), kept) && IsMarked(kept, d)
  }

  predicate IsMarked(kept: string, d: string) {
    |kept| == |d| && forall k :: 0 <= k < |kept| ==> d[k] == if IsWord(kept[k]) then kept[k] else '-'
  }

  /** Word characters are kept, in order, and every run of others becomes one dash. */
  lemma {:induction false} DashedMeaning(s: string)
    ensures IsDashed(s, Dashed(s))
    decreases |s|
  {
    hide IsSelection, Dashed, IsWord;
    if s == "" {
      NothingSelected(s);
      NothingDashed();
      assert KeptOf(s) == {} && IsMarked("", Dashed(s));
    } else {
      var init, last := s[..|s| - 1], s[|s| - 1];
      DashedMeaning(init);
      var kept :| IsSelection(init, KeptOf(init), kept) && IsMarked(kept, Dashed(init));
      assert init + [last] == s;
      DashedNext(init, last);
      var keep := IsWord(last) || init == "" || IsWord(init[|init| - 1]);
      SelectNext(init, KeptOf(init), kept, last, keep);
      assert forall i: nat :: i < |init| ==> (IsKeptAt(s, i) <==> IsKeptAt(init, i));
      assert IsKeptAt(s, |init|) <==> keep;
      assert KeptOf(s) == if keep then KeptOf(init) + {|init|} else KeptOf(init);
      assert keep ==> IsMarked(kept + [last], Dashed(s));
    }
  }

  lemma NothingDashed()
    ensures Dashed("") == ""
  {
  }

  lemma {:induction false} DashedEnd(s: string)
    ensures Dashed(s) == "" <==> s == ""
    ensures s != "" ==> (Dashed(s)[|Dashed(s)| - 1] == '-' <==> !IsWord(s[|s| - 1]))
    decreases |s|
  {
    if s == "" {
      NothingDashed();
    } else {
      var init, last := s[..|s| - 1], s[|s| - 1];
      DashedEnd(init);
      assert init + [last] == s;
      hide Dashed;
      DashedNext(init, last);
    }
  }

  lemma {:induction false} DashedIsSafe(s: string)
    ensures AllSafe(Dashed(s)) && NoDoubleDash(Dashed(s))
    decreases |s|
  {
    hide Dashed;
    if s == "" {
      NothingDashed();
    } else {
      var init, last := s[..|s| - 1], s[|s| - 1];
      DashedIsSafe(init);
      DashedEnd(init);
      assert init + [last] == s;
      DashedNext(init, last);
    }
  }

  lemma {:induction false} DashedKeepsWords(s: string, c: char)
    requires IsWord(c)
    ensures c in Dashed(s) <==> c in s
    decreases |s|
  {
    hide Dashed;
    if s == "" {
      NothingDashed();
    } else {
      var init, last := s[..|s| - 1], s[|s| - 1];
      DashedKeepsWords(init, c);
      assert init + [last] == s && c != '-';
      DashedNext(init, last);
    }
  }

  lemma {:induction false} SafeIsFixed(s: string)
    requires AllSafe(s) && NoDoubleDash(s)
    ensures Dashed(s) == s
    decreases |s|
  {
    if s == "" {
    } else {
      var init, last := s[..|s| - 1], s[|s| - 1];
      SafeIsFixed(init);
      assert init + [last] == s;
      hide Dashed;
      DashedNext(init, last);
      assert IsSafe(last) && (init != "" ==> IsSafe(s[|s| - 2]));
    }
  }

  lemma Suffix(s: string, rest: string)
    requires |rest| <= |s| && rest == s[|s| - |rest|..]
    ensures AllSafe(s) ==> AllSafe(rest)
    ensures NoDoubleDash(s) ==> NoDoubleDash(rest)
  {
    var d := |s| - |rest|;
    assert AllSafe(s) ==> forall k :: 0 <= k < |rest| ==> rest[k] == s[d + k];
    if NoDoubleDash(s) {
      forall k | 1 <= k < |rest| && rest[k] == '-'
        ensures rest[k - 1] != '-'
      {
        assert s[d + k] == '-' && rest[k - 1] == s[d + k - 1];
      }
    }
  }

  /** The result has at most 80 characters, all of them safe, no double dash, and no dash or
      underscore at its ends. */
  lemma SegmentIsSegment(threadId: string)
    ensures var r := ToSafeThreadAttachmentSegment(threadId); r.Some? ==> IsSegment(r.value)
  {
    var lower := ToLower(Trim(threadId));
    DashedIsSafe(lower);
    StripIsSegment(Dashed(lower));
    hide Dashed, ToLower, Trim, DropWhile, DropEndWhile, IsSegment, AllSafe, NoDoubleDash;
  }

  lemma StripEnds(dashed: string)
    ensures var front, segment := DropWhile(dashed, IsEdge), Strip(dashed);
            && segment <= front && |segment| <= MAX_SEGMENT_CHARS
            && (segment != "" ==> !IsEdge(segment[0]) && !IsEdge(segment[|segment| - 1]))
  {
    var front, segment := DropWhile(dashed, IsEdge), Strip(dashed);
    hide DropWhile, DropEndWhile, IsEdge;
    assert segment != "" ==> segment[0] == front[0];
  }

  lemma StripIsSegment(dashed: string)
    requires AllSafe(dashed) && NoDoubleDash(dashed)
    ensures Strip(dashed) != "" ==> IsSegment(Strip(dashed))
  {
    hide DropWhile, Strip, AllSafe, NoDoubleDash, IsEdge;
    StripEnds(dashed);
    Suffix(dashed, DropWhile(dashed, IsEdge));
    Prefix(DropWhile(dashed, IsEdge), Strip(dashed));
  }

  lemma Prefix(s: string, front: string)
    requires front <= s
    ensures AllSafe(s) ==> AllSafe(front)
    ensures NoDoubleDash(s) ==> NoDoubleDash(front)
  {
  }

  lemma StripFixed(s: string)
    requires IsSegment(s)
    ensures Strip(s) == s
  {
  }

  /** Segments, and nothing else, are left as they are; so making one again changes nothing. */
  lemma SegmentsAreFixed(s: string)
    ensures ToSafeThreadAttachmentSegment(s) == Some(s) <==> IsSegment(s)
  {
    SegmentIsSegment(s);
    if IsSegment(s) {
      SafeTextIsPlain(s);
      SafeIsFixed(s);
      StripFixed(s);
      hide Trim, ToLower, Dashed, DropWhile, DropEndWhile, AllSafe, NoDoubleDash;
    }
  }

  lemma SafeTextIsPlain(s: string)
    requires IsSegment(s)
    ensures ToLower(Trim(s)) == s
  {
    SegmentIsLower(s);
    TrimIsTrimmed(s);
    assert IsSafe(s[0]) && IsSafe(s[|s| - 1]);
    assert IsTrimmed(s);
    hide IsSegment, Trim, ToLower;
  }

  predicate AllEdges(s: string) {
    forall k :: 0 <= k < |s| ==> IsEdge(s[k])
  }

  /** `segment` is `dashed` from the first to the last character that is no dash or underscore, or as
      much of it as the limit allows, again without such characters at its end. */
  ghost predicate IsStripped(dashed: string, a: nat, b: nat, segment: string) {
    && a <= b <= |dashed| && AllEdges(dashed[..a]) && AllEdges(dashed[b..])
    && (a < b ==> !IsEdge(dashed[a]) && !IsEdge(dashed[b - 1]))
    && segment <= dashed[a..b]
    && (b - a <= MAX_SEGMENT_CHARS ==> segment == dashed[a..b])
    && (b - a > MAX_SEGMENT_CHARS ==>
          && 0 < |segment| <= MAX_SEGMENT_CHARS && !IsEdge(segment[|segment| - 1])
          && AllEdges(dashed[a + |segment|..a + MAX_SEGMENT_CHARS]))
  }

  lemma StripMeaning(dashed: string)
    ensures exists a: nat, b: nat :: IsStripped(dashed, a, b, Strip(dashed))
  {
    hide IsEdge, IsStripped, Truncate, DropWhile, DropEndWhile, AllEdges;
    var front := DropWhile(dashed, IsEdge);
    var core := DropEndWhile(front, IsEdge);
    var segment := Strip(dashed);
    assert segment == DropEndWhile(Truncate(core), IsEdge);
    hide Strip;
    var a := |dashed| - |front|;
    var b := a + |core|;
    EdgesDropped(dashed, front, core, a, b);
    CutMeaning(core);
    CoreThenCut(dashed, a, b, core, segment);
  }

  lemma EdgesDropped(dashed: string, front: string, core: string, a: nat, b: nat)
    requires front == DropWhile(dashed, IsEdge) && core == DropEndWhile(front, IsEdge)
    requires a == |dashed| - |front| && b == a + |core|
    ensures b <= |dashed| && dashed[a..b] == core && AllEdges(dashed[..a]) && AllEdges(dashed[b..])
    ensures core != "" ==> !IsEdge(core[0]) && !IsEdge(core[|core| - 1])
  {
    hide IsEdge, DropWhile, DropEndWhile;
    assert dashed[a..] == front;
    assert forall k :: 0 <= k < |dashed| - b ==> dashed[b..][k] == front[|core| + k];
    assert core != "" ==> core[0] == front[0];
  }

  lemma CoreThenCut(dashed: string, a: nat, b: nat, core: string, segment: string)
    requires a <= b <= |dashed| && dashed[a..b] == core && AllEdges(dashed[..a]) && AllEdges(dashed[b..])
    requires core != "" ==> !IsEdge(core[0]) && !IsEdge(core[|core| - 1])
    requires segment <= core && (|core| <= MAX_SEGMENT_CHARS ==> segment == core)
    requires |core| > MAX_SEGMENT_CHARS ==>
               && 0 < |segment| <= MAX_SEGMENT_CHARS && !IsEdge(segment[|segment| - 1])
               && AllEdges(core[|segment|..MAX_SEGMENT_CHARS])
    ensures IsStripped(dashed, a, b, segment)
  {
    hide IsEdge, AllEdges;
    assert core != "" ==> core[0] == dashed[a] && core[|core| - 1] == dashed[b - 1];
    if |core| > MAX_SEGMENT_CHARS {
      SliceOfSlice(dashed, a, b, |segment|, MAX_SEGMENT_CHARS);
    }
  }

  lemma SliceOfSlice(s: string, a: nat, b: nat, n: nat, m: nat)
    requires a <= b <= |s| && n <= m <= b - a
    ensures s[a..b][n..m] == s[a + n..a + m]
  {
    var x, y := s[a..b][n..m], s[a + n..a + m];
    assert |x| == |y|;
    assert forall k :: 0 <= k < |x| ==> x[k] == s[a..b][n + k] == s[a + (n + k)] == y[k];
  }

  lemma CutMeaning(core: string)
    requires core != "" ==> !IsEdge(core[0]) && !IsEdge(core[|core| - 1])
    ensures var segment := DropEndWhile(Truncate(core), IsEdge);
            && segment <= core && (|core| <= MAX_SEGMENT_CHARS ==> segment == core)
            && (|core| > MAX_SEGMENT_CHARS ==>
                  && 0 < |segment| <= MAX_SEGMENT_CHARS && !IsEdge(segment[|segment| - 1])
                  && AllEdges(core[|segment|..MAX_SEGMENT_CHARS]))
  {
    hide IsEdge;
    var cut, segment := Truncate(core), DropEndWhile(Truncate(core), IsEdge);
    assert |segment| < |cut| ==> IsEdge(cut[|segment|]);
    assert |core| > MAX_SEGMENT_CHARS ==>
      forall k :: 0 <= k < MAX_SEGMENT_CHARS - |segment| ==>
        core[|segment|..MAX_SEGMENT_CHARS][k] == cut[|segment| + k];
  }

  /** What a thread id becomes: its word characters in lower case and in order, one dash for every run
      of others, stripped and cut; and nothing exactly when it has no letter and no digit. */
  lemma SegmentMeaning(threadId: string)
    ensures var r := ToSafeThreadAttachmentSegment(threadId);
            && (r.None? <==> forall c :: c in threadId ==> !IsWord(LowerChar(c)) || c == '_')
            && (r.Some? ==>
                  exists dashed: string, a: nat, b: nat ::
                    IsDashed(ToLower(Trim(threadId)), dashed) && IsStripped(dashed, a, b, r.value))
  {
    var lower := ToLower(Trim(threadId));
    var dashed := Dashed(lower);
    DashedMeaning(lower);
    DashedIsSafe(lower);
    StripMeaning(dashed);
    NothingLeft(dashed);
    LettersStay(threadId);
    hide Dashed, Strip, ToLower, Trim, IsDashed, IsStripped, IsWord;
    forall c | IsWord(c) ensures c in dashed <==> c in lower {
      DashedKeepsWords(lower, c);
    }
  }

  lemma NothingLeft(dashed: string)
    requires AllSafe(dashed)
    ensures Strip(dashed) == "" <==> forall c :: c in dashed ==> !IsWord(c) || c == '_'
  {
    hide Strip, AllSafe, IsWord;
    StripMeaning(dashed);
    var a: nat, b: nat :| IsStripped(dashed, a, b, Strip(dashed));
    forall c | c in dashed ensures IsEdge(c) <==> !IsWord(c) || c == '_' {
      SafeEdges(dashed, c);
    }
    hide IsEdge;
    EdgesOnly(dashed[..a]);
    EdgesOnly(dashed[b..]);
    if Strip(dashed) == "" {
      assert a == b && dashed == dashed[..a] + dashed[b..];
    } else {
      assert dashed[a] in dashed;
    }
  }

  lemma EdgesOnly(s: string)
    requires AllEdges(s)
    ensures forall c :: c in s ==> IsEdge(c)
  {
  }

  lemma SafeEdges(s: string, c: char)
    requires AllSafe(s) && c in s
    ensures IsEdge(c) <==> !IsWord(c) || c == '_'
  {
    assert IsSafe(c);
  }

  /** Trimming and lower-casing neither lose nor add a letter or digit. */
  lemma LettersStay(threadId: string)
    ensures (forall c :: c in ToLower(Trim(threadId)) ==> !IsWord(c) || c == '_') <==>
            forall c :: c in threadId ==> !IsWord(LowerChar(c)) || c == '_'
  {
    var trimmed := Trim(threadId);
    var lower := ToLower(trimmed);
    TrimKeepsText(threadId);
    hide Trim, ToLower, IsSpace, IsWord, LowerChar;
    forall c | c in threadId && IsWord(LowerChar(c)) ensures c in trimmed && LowerChar(c) in lower {
      WordsAreNoSpace(c);
      var k :| 0 <= k < |trimmed| && trimmed[k] == c;
      assert lower[k] == LowerChar(c);
    }
    forall k | 0 <= k < |lower| ensures trimmed[k] in threadId && lower[k] == LowerChar(trimmed[k]) {
    }
    UnderscoreOnly();
  }

  lemma UnderscoreOnly()
    ensures forall c :: LowerChar(c) == '_' <==> c == '_'
  {
  }

  lemma WordsAreNoSpace(c: char)
    ensures IsWord(LowerChar(c)) ==> !IsSpace(c)
  {
  }

  /** Trimming drops white space only. */
  lemma TrimKeepsText(s: string)
    ensures forall c :: c in Trim(s) ==> c in s
    ensures forall c :: c in s && !IsSpace(c) ==> c in Trim(s)
  {
    var t := TrimStart(s);
    var r := TrimEnd(t);
    TrimStartDrops(s);
    hide TrimStart, TrimEnd, IsSpace;
    assert s == s[..|s| - |t|] + t && t == r + t[|r|..];
  }

  // ---------- attachment ids ----------

  predicate IsHex(c: char) {
    IsDigit(c) || 'a' <= c <= 'f' || 'A' <= c <= 'F'
  }

  /** What the UUID pattern matches, upper case included. */
  predicate IsUuid(s: string) {
    && |s| == UUID_CHARS
    && forall k :: 0 <= k < UUID_CHARS ==> if k in {8, 13, 18, 23} then s[k] == '-' else IsHex(s[k])
  }

  function CreateAttachmentId(threadId: string, uuid: string): Option<string> {
    var segment := ToSafeThreadAttachmentSegment(threadId);
    if segment.None? then None else Some(segment.value + "-" + uuid)
  }

  /** `pathNormalize` is the path library's normalization. */
  function NormalizeAttachmentRelativePath(pathNormalize: string -> string, raw: string): Option<string> {
    var normalized := DropWhile(pathNormalize(raw), c => c == '/' || c == '\\');
    if normalized == "" || StartsWith(normalized, "..") || '\0' in normalized then None
    else Some(SlashesOf(normalized))
  }

  function SlashesOf(s: string): string {
    if s == "" then "" else [if s[0] == '\\' then '/' else s[0]] + SlashesOf(s[1..])
  }

  /** `[a-z0-9_]+(?:-[a-z0-9_]+)*`, letter case ignored: words joined by single dashes. */
  predicate IsSegmentPattern(s: string) {
    forall p :: p in SplitOn(s, '-') ==> p != "" && forall k :: 0 <= k < |p| ==> IsWord(LowerChar(p[k]))
  }

  /** The two groups of the id pattern. */
  function MatchAttachmentId(id: string): Option<(string, string)> {
    if |id| <= UUID_CHARS then None
    else
      var n := |id| - UUID_CHARS - 1;
      if id[n] == '-' && IsUuid(id[n + 1..]) && IsSegmentPattern(id[..n]) then Some((id[..n], id[n + 1..]))
      else None
  }

  function ParseThreadSegmentFromAttachmentId(pathNormalize: string -> string, id: string): Option<string> {
    var normalized := NormalizeAttachmentRelativePath(pathNormalize, id);
    if normalized.None? || '/' in normalized.value || '.' in normalized.value then None
    else
      var groups := MatchAttachmentId(normalized.value);
      if groups.None? then None else Some(ToLower(groups.value.0))
  }

  /** The id pattern is unambiguous: the groups are the two parts around the last dash but four. */
  lemma MatchExact(id: string, segment: string, uuid: string)
    ensures MatchAttachmentId(id) == Some((segment, uuid)) <==>
            IsSegmentPattern(segment) && IsUuid(uuid) && id == segment + "-" + uuid
  {
    hide IsSegmentPattern;
    if IsUuid(uuid) && id == segment + "-" + uuid {
      var n := |id| - UUID_CHARS - 1;
      assert id[..n] == segment && id[n + 1..] == uuid;
    }
  }

  lemma {:induction false} PiecesAreNonEmpty(s: string)
    requires NoDoubleDash(s)
    ensures var parts := SplitOn(s, '-');
            && (forall i :: 0 < i < |parts| - 1 ==> parts[i] != "")
            && (parts[0] == "" <==> s == "" || s[0] == '-')
            && (|parts| == 1 ==> parts[0] == s && '-' !in s)
            && (|parts| > 1 ==> s != "" && (parts[|parts| - 1] == "" <==> s[|s| - 1] == '-'))
  {
    if s == "" {
    } else {
      var t := s[1..];
      Suffix(s, t);
      PiecesAreNonEmpty(t);
      var rest := SplitOn(t, '-');
      assert t != "" && s[1] == '-' ==> s[1 - 1] != '-';
      assert t != "" ==> t[|t| - 1] == s[|s| - 1];
      assert SplitOn(s, '-') == if s[0] == '-' then [""] + rest else [[s[0]] + rest[0]] + rest[1..];
      hide SplitOn, NoDoubleDash;
      assert t == "" ==> |rest| == 1 by { EmptySplit(); }
    }
  }

  lemma EmptySplit()
    ensures SplitOn("", '-') == [""]
  {
  }

  lemma SegmentMatchesPattern(s: string)
    requires IsSegment(s)
    ensures IsSegmentPattern(s)
  {
    PiecesAreNonEmpty(s);
    SplitPieces(s, '-');
    var parts := SplitOn(s, '-');
    forall p | p in parts
      ensures p != "" && forall k :: 0 <= k < |p| ==> IsWord(LowerChar(p[k]))
    {
      hide SplitOn, NoDoubleDash, IsWord, LowerChar;
      var i :| 0 <= i < |parts| && parts[i] == p;
      forall k | 0 <= k < |p|
        ensures IsWord(LowerChar(p[k]))
      {
        assert p[k] in p;
        SafeButDash(s, p[k]);
      }
    }
  }

  lemma SafeButDash(s: string, c: char)
    requires AllSafe(s) && c in s && c != '-'
    ensures IsWord(LowerChar(c))
  {
    assert IsSafe(c);
  }

  /** Names that a path library's normalization leaves alone. */
  predicate IsPlainName(s: string) {
    s != "" && forall c :: c in s ==> c !in "/\\.\0"
  }

  lemma {:induction false} SlashesOfPlain(s: string)
    requires '\\' !in s
    ensures SlashesOf(s) == s
  {
    if s == "" {
    } else {
      assert forall c :: c in s[1..] ==> c in s;
      SlashesOfPlain(s[1..]);
    }
  }

  lemma NormalizePlain(pathNormalize: string -> string, s: string)
    requires IsPlainName(s) && pathNormalize(s) == s
    ensures NormalizeAttachmentRelativePath(pathNormalize, s) == Some(s)
  {
    assert s[0] in s;
    SlashesOfPlain(s);
    StartsWithHead(s, "..");
  }

  lemma CreatedIdIsPlain(segment: string, uuid: string)
    requires IsSegment(segment) && IsUuid(uuid)
    ensures IsPlainName(segment + "-" + uuid)
  {
    var id := segment + "-" + uuid;
    forall c | c in id
      ensures IsSafe(c) || IsHex(c)
    {
      if c in segment {
        var k :| 0 <= k < |segment| && segment[k] == c;
      } else if c in uuid {
        var k :| 0 <= k < |uuid| && uuid[k] == c;
      }
    }
  }

  /** Parsing a created id gives back exactly the segment of its thread, whatever UUID was drawn. */
  lemma CreateThenParse(pathNormalize: string -> string, threadId: string, uuid: string)
    requires forall s :: IsPlainName(s) ==> pathNormalize(s) == s
    requires IsUuid(uuid)
    ensures var segment := ToSafeThreadAttachmentSegment(threadId);
            var id := CreateAttachmentId(threadId, uuid);
            && (id.None? <==> segment.None?)
            && (id.Some? ==> ParseThreadSegmentFromAttachmentId(pathNormalize, id.value) == segment)
  {
    hide ToSafeThreadAttachmentSegment, NormalizeAttachmentRelativePath, MatchAttachmentId;
    var segment := ToSafeThreadAttachmentSegment(threadId);
    if segment.Some? {
      var id := segment.value + "-" + uuid;
      SegmentIsSegment(threadId);
      CreatedIdIsPlain(segment.value, uuid);
      NormalizePlain(pathNormalize, id);
      SegmentMatchesPattern(segment.value);
      MatchExact(id, segment.value, uuid);
      SegmentIsLower(segment.value);
    }
  }

  /** Of the names without slash, backslash and dot exactly the ids are parsed, upper case included, and
      to their segment in lower case. */
  lemma ParseMeaning(pathNormalize: string -> string, id: string, segment: string)
    requires IsPlainName(id) && pathNormalize(id) == id
    ensures ParseThreadSegmentFromAttachmentId(pathNormalize, id) == Some(segment) <==>
            exists written, uuid ::
              && id == written + "-" + uuid && IsSegmentPattern(written) && IsUuid(uuid)
              && segment == ToLower(written)
  {
    hide IsSegmentPattern, IsUuid, NormalizeAttachmentRelativePath, MatchAttachmentId;
    NormalizePlain(pathNormalize, id);
    forall written, uuid
      ensures MatchAttachmentId(id) == Some((written, uuid)) <==>
              IsSegmentPattern(written) && IsUuid(uuid) && id == written + "-" + uuid
    {
      MatchExact(id, written, uuid);
    }
    if MatchAttachmentId(id).Some? {
      var (written, uuid) := MatchAttachmentId(id).value;
      assert id == written + "-" + uuid;
    }
  }

  lemma SegmentIsLower(s: string)
    requires IsSegment(s)
    ensures ToLower(s) == s
  {
    assert forall c :: c in s ==> LowerChar(c) == c;
    ToLowerIsLower(s);
  }

  /** Ids collide only when both the segments and the UUIDs do. */
  lemma CreatedIdsAreDistinct(a: string, u: string, b: string, v: string)
    requires IsUuid(u) && IsUuid(v)
    requires CreateAttachmentId(a, u).Some? && CreateAttachmentId(a, u) == CreateAttachmentId(b, v)
    ensures ToSafeThreadAttachmentSegment(a) == ToSafeThreadAttachmentSegment(b) && u == v
  {
    hide ToSafeThreadAttachmentSegment, MatchAttachmentId;
    SegmentIsSegment(a);
    SegmentIsSegment(b);
    var s, t := ToSafeThreadAttachmentSegment(a).value, ToSafeThreadAttachmentSegment(b).value;
    SegmentMatchesPattern(s);
    SegmentMatchesPattern(t);
    MatchExact(s + "-" + u, s, u);
    MatchExact(t + "-" + v, t, v);
  }
}

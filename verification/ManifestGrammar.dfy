/** What texts the parser of scripts/lib/update-manifest.ts accepts, and what they mean, told by their
    lines and not by the loop over them. */
module ManifestGrammar {
  import opened Wrappers
  import opened Text
  import opened UpdateManifest

  /** What a line can be. `body` is what stands between the white space after the colon and that at the
      end of the line. */
  datatype Line =
    | Blank
    | FilesHead
    | Url(body: string)
    | Sha512(body: string)
    | Size(size: nat)
    | Top(key: string, body: string)

  predicate IsBody(body: string) {
    body != "" && IsTrimmed(body) && OneLine(body)
  }

  ghost predicate IsPadded(line: string, head: string, body: string) {
    exists gap, end :: AllSpace(gap) && AllSpace(end) && line == head + (gap + (body + end))
  }

  ghost predicate IsSizeLine(line: string, size: nat) {
    exists digits :: digits != "" && AllDigits(digits) && ToNat(digits) == size && IsPadded(line, "    size:", digits)
  }

  /** The carriage return of a CRLF line end is white space at the end of the line. */
  ghost predicate Spells(line: string, l: Line) {
    match l
    case Blank => AllSpace(line)
    case FilesHead => IsPadded(line, "files:", "")
    case Url(body) => IsBody(body) && IsPadded(line, "  - url:", body)
    case Sha512(body) => IsBody(body) && IsPadded(line, "    sha512:", body)
    case Size(size) => IsSizeLine(line, size)
    case Top(key, body) => IsKey(key) && IsBody(body) && IsPadded(line, key + ":", body)
  }

  // ---------- what the lines say ----------

  /** A file entry takes all lines from its url to the next url or top-level line. */
  datatype Item = Loose(line: Line) | Entry(url: string, fields: seq<Line>) | Setting(key: string, body: string)

  function Add(items: seq<Item>, l: Line): seq<Item> {
    match l
    case Url(body) => items + [Entry(body, [])]
    case Top(key, body) => items + [Setting(key, body)]
    case _ =>
      if items != [] && items[|items| - 1].Entry? then
        var entry := items[|items| - 1];
        items[..|items| - 1] + [entry.(fields := entry.fields + [l])]
      else items + [Loose(l)]
  }

  function Group(lines: seq<Line>): seq<Item> {
    if lines == [] then [] else Add(Group(lines[..|lines| - 1]), lines[|lines| - 1])
  }

  function LastSha512(fields: seq<Line>): Option<string> {
    if fields == [] then None
    else if fields[|fields| - 1].Sha512? then Some(StripSingleQuotes(fields[|fields| - 1].body))
    else LastSha512(fields[..|fields| - 1])
  }

  function LastSize(fields: seq<Line>): Option<nat> {
    if fields == [] then None
    else if fields[|fields| - 1].Size? then Some(fields[|fields| - 1].size)
    else LastSize(fields[..|fields| - 1])
  }

  /** Outside of file entries only blank lines and `files:` are ignored; an entry has a digest and a
      size; the version and the date are strings. */
  predicate IsLegal(item: Item) {
    match item
    case Loose(line) => line.Blank? || line.FilesHead?
    case Entry(_, fields) => LastSha512(fields).Some? && LastSize(fields).Some?
    case Setting(key, body) => key in {"version", "releaseDate"} ==> ParseScalarValue(body).Str?
  }

  predicate AreLegal(items: seq<Item>) {
    forall item :: item in items ==> IsLegal(item)
  }

  /** The files of the entries, in order. */
  function FilesOf(items: seq<Item>): seq<File>
    requires AreLegal(items)
  {
    if items == [] then []
    else
      var init, last := FilesOf(items[..|items| - 1]), items[|items| - 1];
      assert last in items;
      if last.Entry? then
        init + [File(StripSingleQuotes(last.url), LastSha512(last.fields).value, LastSize(last.fields).value)]
      else init
  }

  /** What the last top-level line for the key says. */
  function LastValue(items: seq<Item>, key: string): Option<Scalar> {
    if items == [] then None
    else
      var last := items[|items| - 1];
      if last.Setting? && last.key == key then Some(ParseScalarValue(last.body))
      else LastValue(items[..|items| - 1], key)
  }

  /** Every other key is an extra; lines for `path` and `sha512` say nothing. */
  predicate IsExtraName(key: string) {
    key !in {"version", "releaseDate", "path", "sha512"}
  }

  ghost predicate HasExtras(items: seq<Item>, extras: map<string, Scalar>) {
    && (forall key :: key in extras <==> IsExtraName(key) && LastValue(items, key).Some?)
    && (forall key :: key in extras ==> LastValue(items, key) == Some(extras[key]))
  }

  ghost predicate IsManifest(items: seq<Item>, m: Manifest) {
    && AreLegal(items) && m.files == FilesOf(items) && m.files != []
    && LastValue(items, "version") == Some(Str(m.version)) && m.version != ""
    && LastValue(items, "releaseDate") == Some(Str(m.releaseDate)) && m.releaseDate != ""
    && HasExtras(items, m.extras)
  }

  ghost predicate SpellAll(texts: seq<string>, lines: seq<Line>) {
    |texts| == |lines| && forall i :: 0 <= i < |texts| ==> Spells(texts[i], lines[i])
  }

  // ---------- one line ----------

  lemma {:induction false} TrimStartOfPadded(gap: string, body: string)
    requires AllSpace(gap) && (body == "" || !IsSpace(body[0]))
    ensures TrimStart(gap + body) == body
    decreases |gap|
  {
    if gap == "" {
      assert gap + body == body;
    } else {
      assert (gap + body)[1..] == gap[1..] + body;
      TrimStartOfPadded(gap[1..], body);
    }
  }

  lemma {:induction false} TrimEndOfPadded(body: string, end: string)
    requires AllSpace(end) && (body == "" || !IsSpace(body[|body| - 1]))
    ensures TrimEnd(body + end) == body
    decreases |end|
  {
    if end == "" {
      assert body + end == body;
    } else {
      assert (body + end)[..|body + end| - 1] == body + end[..|end| - 1];
      TrimEndOfPadded(body, end[..|end| - 1]);
    }
  }

  /** How the code takes a padded line apart. */
  lemma PaddedExactly(line: string, head: string, body: string)
    requires IsTrimmed(body) && head != "" && !IsSpace(head[|head| - 1])
    ensures IsPadded(line, head, body) <==>
            StartsWith(TrimEnd(line), head) && TrimStart(TrimEnd(line)[|head|..]) == body
  {
    hide TrimEnd, TrimStart, IsSpace, AllSpace;
    if IsPadded(line, head, body) {
      var gap, end :| AllSpace(gap) && AllSpace(end) && line == head + (gap + (body + end));
      PaddedTaken(line, head, gap, body, end);
    }
    if StartsWith(TrimEnd(line), head) && TrimStart(TrimEnd(line)[|head|..]) == body {
      PaddedBuilt(line, head, body);
    }
  }

  lemma PaddedBuilt(line: string, head: string, body: string)
    requires StartsWith(TrimEnd(line), head) && TrimStart(TrimEnd(line)[|head|..]) == body
    ensures IsPadded(line, head, body)
  {
    var end := SpaceAtEnd(line);
    var gap := SpaceAtStart(TrimEnd(line)[|head|..]);
    StartsThenRest(TrimEnd(line), head);
    hide TrimEnd, TrimStart, AllSpace, IsPadded, StartsWith;
    Reassociate(head, gap, body, end);
    PaddedFrom(line, head, gap, body, end);
  }

  lemma SpaceAtEnd(line: string) returns (end: string)
    ensures AllSpace(end) && line == TrimEnd(line) + end
  {
    end := line[|TrimEnd(line)|..];
  }

  lemma SpaceAtStart(rest: string) returns (gap: string)
    ensures AllSpace(gap) && rest == gap + TrimStart(rest)
  {
    hide TrimStart, IsSpace;
    gap := rest[..|rest| - |TrimStart(rest)|];
    TrimStartDrops(rest);
    hide AllSpace;
  }

  lemma StartsThenRest(t: string, head: string)
    requires StartsWith(t, head)
    ensures t == head + t[|head|..]
  {
  }

  lemma Reassociate(head: string, gap: string, body: string, end: string)
    ensures head + (gap + body) + end == head + (gap + (body + end))
  {
  }

  lemma PaddedFrom(line: string, head: string, gap: string, body: string, end: string)
    requires AllSpace(gap) && AllSpace(end) && line == head + (gap + (body + end))
    ensures IsPadded(line, head, body)
  {
  }

  lemma PaddedTaken(line: string, head: string, gap: string, body: string, end: string)
    requires IsTrimmed(body) && head != "" && !IsSpace(head[|head| - 1])
    requires AllSpace(gap) && AllSpace(end) && line == head + (gap + (body + end))
    ensures StartsWith(TrimEnd(line), head) && TrimStart(TrimEnd(line)[|head|..]) == body
  {
    hide TrimEnd, TrimStart, IsSpace, StartsWith;
    if body == "" {
      SpaceAppend(gap, end);
      assert "" + end == end;
      TrimEndOfPadded(head, gap + end);
      StartsAll(head);
    } else {
      hide AllSpace;
      PaddedParts(head, gap, body, end);
      TrimEndOfPadded(head + (gap + body), end);
      TrimStartOfPadded(gap, body);
    }
  }

  lemma SpaceAppend(a: string, b: string)
    requires AllSpace(a) && AllSpace(b)
    ensures AllSpace(a + b)
  {
  }

  lemma StartsAll(head: string)
    ensures StartsWith(head, head) && head[|head|..] == "" && TrimStart("") == ""
  {
  }

  lemma PaddedParts(head: string, gap: string, body: string, end: string)
    requires body != ""
    ensures var t := head + (gap + body);
            && head + (gap + (body + end)) == t + end && t != "" && t[|t| - 1] == body[|body| - 1]
            && StartsWith(t, head) && t[|head|..] == gap + body
  {
  }

  /** The line as the code reads it. */
  function Classify(line: string): Option<Line> {
    var t := TrimEnd(line);
    if t == "" then Some(Blank)
    else if FieldText(t, URL_FIELD).Some? then Some(Url(FieldText(t, URL_FIELD).value))
    else if FieldText(t, SHA512_FIELD).Some? then Some(Sha512(FieldText(t, SHA512_FIELD).value))
    else if SizeField(t).Some? then Some(Size(SizeField(t).value))
    else if t == "files:" then Some(FilesHead)
    else if TopLevel(t).Some? then Some(Top(TopLevel(t).value.0, TopLevel(t).value.1))
    else None
  }

  lemma BlankExactly(line: string)
    ensures Spells(line, Blank) <==> TrimEnd(line) == ""
  {
    if AllSpace(line) {
      TrimEndOfPadded("", line);
      assert "" + line == line;
    }
  }

  lemma FieldExactly(line: string, field: string, body: string)
    requires field in [URL_FIELD, SHA512_FIELD]
    ensures IsBody(body) && IsPadded(line, field, body) <==> FieldText(TrimEnd(line), field) == Some(body)
  {
    var t := TrimEnd(line);
    hide TrimStart, TrimEnd, StartsWith, IsPadded, OneLine, IsTrimmed;
    FieldNames();
    if IsTrimmed(body) {
      PaddedExactly(line, field, body);
    }
    if StartsWith(t, field) {
      StartsIsShort(t, field);
      SuffixEnds(t, |field|);
    }
  }

  lemma StartsIsShort(t: string, head: string)
    requires StartsWith(t, head)
    ensures |head| <= |t|
  {
  }

  /** What is left of an end-trimmed line is trimmed. */
  lemma SuffixEnds(t: string, k: nat)
    requires k <= |t| && (t == "" || !IsSpace(t[|t| - 1]))
    ensures IsTrimmed(TrimStart(t[k..]))
  {
    var rest := t[k..];
    var text := TrimStart(rest);
    assert text != "" ==> text[|text| - 1] == rest[|rest| - 1] == t[|t| - 1];
  }

  lemma SizeExactly(line: string, size: nat)
    ensures Spells(line, Size(size)) <==> SizeField(TrimEnd(line)) == Some(size)
  {
    forall digits | digits != "" && AllDigits(digits)
      ensures IsPadded(line, "    size:", digits) <==>
              StartsWith(TrimEnd(line), SIZE_FIELD) && TrimStart(TrimEnd(line)[|SIZE_FIELD|..]) == digits
    {
      SizePadded(line, digits);
    }
    hide TrimStart, TrimEnd, ToNat, IsPadded, StartsWith, AllDigits;
  }

  lemma SizePadded(line: string, digits: string)
    requires digits != "" && AllDigits(digits)
    ensures IsPadded(line, "    size:", digits) <==>
            StartsWith(TrimEnd(line), SIZE_FIELD) && TrimStart(TrimEnd(line)[|SIZE_FIELD|..]) == digits
  {
    DigitsTrimmed(digits);
    assert !IsSpace(SIZE_FIELD[|SIZE_FIELD| - 1]);
    hide TrimStart, TrimEnd, IsPadded, StartsWith;
    PaddedExactly(line, SIZE_FIELD, digits);
  }

  lemma DigitsTrimmed(digits: string)
    requires digits != "" && AllDigits(digits)
    ensures IsTrimmed(digits)
  {
    assert IsDigit(digits[0]) && IsDigit(digits[|digits| - 1]);
  }

  lemma FilesHeadExactly(line: string)
    ensures Spells(line, FilesHead) <==> TrimEnd(line) == "files:"
  {
    var t := TrimEnd(line);
    assert !IsSpace("files:"[5]);
    PaddedExactly(line, "files:", "");
    assert Spells(line, FilesHead) <==> IsPadded(line, "files:", "");
    hide TrimEnd, IsPadded, Spells;
    if StartsWith(t, "files:") && TrimStart(t[6..]) == "" {
      FilesHeadIsAll(t);
    }
    StartsAll("files:");
  }

  lemma FilesHeadIsAll(t: string)
    requires StartsWith(t, "files:") && TrimStart(t[6..]) == "" && (t == "" || !IsSpace(t[|t| - 1]))
    ensures t == "files:"
  {
    var rest := t[6..];
    assert |t| > 6 ==> rest[|rest| - 1] == t[|t| - 1];
    assert t == t[..6] + rest;
    hide TrimStart, IsSpace;
    if |t| > 6 {
      TrimStartKeepsLast(rest);
    }
  }

  lemma TopExactly(line: string, key: string, body: string)
    ensures Spells(line, Top(key, body)) <==> TopLevel(TrimEnd(line)) == Some((key, body))
  {
    TopPadded(line, key, body);
    var t := TrimEnd(line);
    hide TrimEnd, Spells, IsPadded, TopLevel, StartsWith;
    TopLevelExactly(t, key, body);
  }

  lemma TopPadded(line: string, key: string, body: string)
    ensures TrimEnd(line) == "" || !IsSpace(TrimEnd(line)[|TrimEnd(line)| - 1])
    ensures Spells(line, Top(key, body)) <==>
              && IsKey(key) && IsBody(body)
              && StartsWith(TrimEnd(line), key + ":") && TrimStart(TrimEnd(line)[|key| + 1..]) == body
  {
    assert (key + ":")[|key|] == ':' && |key + ":"| == |key| + 1 && !IsSpace(':');
    hide TrimEnd, IsPadded, StartsWith, TrimStart, IsSpace, OneLine, IsKey;
    if IsTrimmed(body) {
      PaddedExactly(line, key + ":", body);
    }
  }

  lemma TopLevelExactly(t: string, key: string, body: string)
    requires t == "" || !IsSpace(t[|t| - 1])
    ensures TopLevel(t) == Some((key, body)) <==>
              && IsKey(key) && IsBody(body)
              && StartsWith(t, key + ":") && TrimStart(t[|key| + 1..]) == body
  {
    TopLevelHasKey(t);
    if IsKey(key) && StartsWith(t, key + ":") {
      KeyFound(t, key);
      SuffixEnds(t, |key| + 1);
      TopLevelOf(t, key);
    }
    hide TopLevel, TrimStart, StartsWith, IsKey, IsTrimmed, IsSpace, OneLine;
  }

  lemma TopLevelOf(t: string, key: string)
    requires t != "" && IsLetter(t[0]) && |key| < |t| && KeyEnd(t, 1) == |key| && t[..|key|] == key && t[|key|] == ':'
    ensures TopLevel(t) ==
            var raw := TrimStart(t[|key| + 1..]); if raw != "" && OneLine(raw) then Some((key, raw)) else None
  {
    hide KeyEnd, TrimStart, OneLine, IsKey;
  }

  lemma TopLevelHasKey(t: string)
    ensures TopLevel(t).Some? ==> IsKey(TopLevel(t).value.0) && StartsWith(t, TopLevel(t).value.0 + ":")
  {
    if TopLevel(t).Some? {
      var k := KeyEnd(t, 1);
      assert TopLevel(t).value.0 == t[..k] && t[k] == ':';
      hide KeyEnd, TopLevel, IsKey;
      assert t[..k + 1] == t[..k] + ":";
    }
  }

  lemma KeyFound(t: string, key: string)
    requires IsKey(key) && StartsWith(t, key + ":")
    ensures t != "" && IsLetter(t[0]) && |key| < |t| && KeyEnd(t, 1) == |key| && t[..|key|] == key && t[|key|] == ':'
  {
    var head := key + ":";
    assert forall k :: 0 <= k < |head| ==> t[k] == t[..|head|][k];
    assert forall k :: 0 <= k < |key| ==> t[k] == key[k];
    KeyEndIs(t, 1, |key|);
  }

  lemma ClassifyExactly(line: string, l: Line)
    ensures Classify(line) == Some(l) <==> Spells(line, l)
  {
    BlankExactly(line);
    match l {
      case Blank =>
      case FilesHead => FilesHeadExactly(line);
      case Url(body) => FieldExactly(line, URL_FIELD, body);
      case Sha512(body) => FieldExactly(line, SHA512_FIELD, body);
      case Size(size) => SizeExactly(line, size);
      case Top(key, body) => TopExactly(line, key, body);
    }
    var t := TrimEnd(line);
    FieldsDiffer(t);
    FilesHeadMatchesNothing();
    hide TrimEnd, TrimStart, StartsWith, IsPadded, ToNat, AllSpace, KeyEnd, IsBody, IsSizeLine;
    KindsApart(t);
  }

  /** At most one pattern matches a line. */
  lemma KindsApart(t: string)
    ensures FieldText(t, URL_FIELD).Some? ==>
              t != "" && FieldText(t, SHA512_FIELD).None? && SizeField(t).None? && TopLevel(t).None? && t != "files:"
    ensures FieldText(t, SHA512_FIELD).Some? ==>
              t != "" && SizeField(t).None? && TopLevel(t).None? && t != "files:"
    ensures SizeField(t).Some? ==> t != "" && TopLevel(t).None? && t != "files:"
    ensures TopLevel(t).Some? ==> t != "" && t != "files:"
  {
    FieldsDiffer(t);
    FilesHeadMatchesNothing();
    StartsWithHead(t, SHA512_FIELD);
    StartsWithHead(t, URL_FIELD);
    StartsWithHead(t, SIZE_FIELD);
  }

  lemma FilesHeadMatchesNothing()
    ensures TopLevel("files:").None? && FieldText("files:", URL_FIELD).None?
    ensures FieldText("files:", SHA512_FIELD).None? && SizeField("files:").None?
  {
    FieldsDiffer("files:");
    assert IsLetter("files:"[0]);
    KeyFound("files:", "files");
    assert "files" + ":" == "files:" && "files:"[6..] == "";
  }

  function Apply(p: Progress, l: Line): Result<Progress, Problem> {
    match l
    case Blank => Ok(p)
    case FilesHead => Ok(p.(inFiles := true))
    case Url(body) => OpenFile(p, body)
    case Sha512(body) => SetSha512(p, body)
    case Size(size) => SetSize(p, size)
    case Top(key, body) =>
      var closed := if p.inFiles then CloseFile(p) else Ok(p);
      if closed.Err? then closed else Assign(closed.value.(inFiles := false), key, ParseScalarValue(body))
  }

  lemma LineApplies(p: Progress, line: string)
    ensures Classify(line).Some? ==> ParseLine(p, line) == Apply(p, Classify(line).value)
    ensures Classify(line).None? ==> ParseLine(p, line).Err?
  {
    hide TrimEnd, FieldText, SizeField, TopLevel, Assign, OpenFile, SetSha512, CloseFile;
  }

  // ---------- all lines ----------

  /** Only a file entry at the end may still be incomplete. */
  predicate IsOpenable(items: seq<Item>) {
    items == [] || (AreLegal(items[..|items| - 1]) && (items[|items| - 1].Entry? || IsLegal(items[|items| - 1])))
  }

  function TextOf(value: Option<Scalar>): Option<string> {
    if value.Some? && value.value.Str? then Some(value.value.text) else None
  }

  ghost predicate SettingsAre(items: seq<Item>, p: Progress) {
    && p.version == TextOf(LastValue(items, "version"))
    && p.releaseDate == TextOf(LastValue(items, "releaseDate"))
    && HasExtras(items, p.extras)
  }

  ghost predicate FilesAre(items: seq<Item>, p: Progress) {
    if items != [] && items[|items| - 1].Entry? then
      var init, last := items[..|items| - 1], items[|items| - 1];
      && AreLegal(init) && p.files == FilesOf(init) && p.inFiles
      && p.currentFile == Some(PartialFile(StripSingleQuotes(last.url), LastSha512(last.fields), LastSize(last.fields)))
    else AreLegal(items) && p.files == FilesOf(items) && p.currentFile == None
  }

  /** What the loop holds after lines that group into these items. */
  ghost predicate StateOf(items: seq<Item>, p: Progress) {
    SettingsAre(items, p) && FilesAre(items, p)
  }

  lemma Appended(items: seq<Item>, x: Item)
    ensures AreLegal(items + [x]) <==> AreLegal(items) && IsLegal(x)
    ensures AreLegal(items + [x]) ==>
              FilesOf(items + [x]) == FilesOf(items) +
              if x.Entry? then [File(StripSingleQuotes(x.url), LastSha512(x.fields).value, LastSize(x.fields).value)]
              else []
    ensures forall key :: LastValue(items + [x], key) ==
              if x.Setting? && x.key == key then Some(ParseScalarValue(x.body)) else LastValue(items, key)
    ensures IsOpenable(items + [x]) <==> AreLegal(items) && (x.Entry? || IsLegal(x))
  {
    hide IsLegal, StripSingleQuotes, LastSha512, LastSize, ParseScalarValue;
    var all := items + [x];
    assert all[..|all| - 1] == items && all[|all| - 1] == x;
    assert forall item :: item in all <==> item in items || item == x;
  }

  /** Closing the open entry, which works exactly when everything so far is legal. */
  lemma CloseMeaning(items: seq<Item>, p: Progress)
    requires FilesAre(items, p)
    ensures CloseFile(p).Ok? <==> AreLegal(items)
    ensures AreLegal(items) ==> CloseFile(p).value == p.(files := FilesOf(items), currentFile := None)
  {
    hide StripSingleQuotes, LastSha512, LastSize, AreLegal;
    if items != [] && items[|items| - 1].Entry? {
      var init, last := items[..|items| - 1], items[|items| - 1];
      assert items == init + [last];
      Appended(init, last);
    }
  }

  lemma UrlAdds(items: seq<Item>, p: Progress, body: string)
    requires StateOf(items, p) && IsBody(body)
    ensures Apply(p, Url(body)).Ok? <==> IsOpenable(Add(items, Url(body)))
    ensures Apply(p, Url(body)).Ok? ==> StateOf(Add(items, Url(body)), Apply(p, Url(body)).value)
  {
    hide StripSingleQuotes, AreLegal, IsLegal, FilesOf, LastValue, Trim;
    CloseMeaning(items, p);
    Appended(items, Entry(body, []));
    TrimIsTrimmed(body);
    var all := items + [Entry(body, [])];
    assert all[..|all| - 1] == items;
  }

  lemma AssignAdds(items: seq<Item>, p: Progress, key: string, body: string)
    requires SettingsAre(items, p)
    ensures var r := Assign(p, key, ParseScalarValue(body));
            && (r.Ok? <==> IsLegal(Setting(key, body)))
            && (r.Ok? ==> SettingsAre(items + [Setting(key, body)], r.value)
                          && r.value.files == p.files && r.value.currentFile == p.currentFile)
  {
    hide LastValue, ParseScalarValue, AreLegal, FilesOf, IsOpenable, HasExtras;
    Appended(items, Setting(key, body));
    ExtrasAdd(items, p.extras, key, body);
  }

  lemma ExtrasAdd(items: seq<Item>, extras: map<string, Scalar>, key: string, body: string)
    requires HasExtras(items, extras)
    ensures HasExtras(items + [Setting(key, body)],
                      if IsExtraName(key) then extras[key := ParseScalarValue(body)] else extras)
  {
    hide LastValue, ParseScalarValue, AreLegal, FilesOf, IsOpenable;
    Appended(items, Setting(key, body));
  }

  lemma TopAdds(items: seq<Item>, p: Progress, key: string, body: string)
    requires StateOf(items, p)
    ensures Apply(p, Top(key, body)).Ok? <==> IsOpenable(Add(items, Top(key, body)))
    ensures Apply(p, Top(key, body)).Ok? ==> StateOf(Add(items, Top(key, body)), Apply(p, Top(key, body)).value)
  {
    hide StripSingleQuotes, AreLegal, IsLegal, FilesOf, LastValue, ParseScalarValue, LastSha512, LastSize, Assign;
    hide IsOpenable, CloseFile;
    var x := Setting(key, body);
    assert (items + [x])[|items|] == x;
    CloseMeaning(items, p);
    Appended(items, x);
    if AreLegal(items) {
      var closed := p.(files := FilesOf(items), currentFile := None, inFiles := false);
      AssignAdds(items, closed, key, body);
      assert FilesOf(items) + [] == FilesOf(items);
      if !p.inFiles {
        NotInFiles(items, p);
      }
    } else if !p.inFiles {
      NotInFiles(items, p);
    }
  }

  lemma NotInFiles(items: seq<Item>, p: Progress)
    requires FilesAre(items, p) && !p.inFiles
    ensures AreLegal(items) && p.files == FilesOf(items) && p.currentFile == None
  {
  }

  lemma LooseAdds(items: seq<Item>, p: Progress, l: Line)
    requires StateOf(items, p) && !l.Url? && !l.Top? && (items == [] || !items[|items| - 1].Entry?)
    ensures Apply(p, l).Ok? <==> IsOpenable(Add(items, l))
    ensures Apply(p, l).Ok? ==> StateOf(Add(items, l), Apply(p, l).value)
  {
    Appended(items, Loose(l));
    var all := items + [Loose(l)];
    assert all[..|items|] == items && all[|items|] == Loose(l);
    assert FilesOf(items) + [] == FilesOf(items);
    hide StripSingleQuotes, AreLegal, FilesOf, LastValue, LastSha512, LastSize, IsOpenable, SettingsAre;
    assert Add(items, l) == all;
    LooseKeepsSettings(items, p, l);
  }

  lemma LooseKeepsSettings(items: seq<Item>, p: Progress, l: Line)
    requires SettingsAre(items, p)
    ensures forall q: Progress :: q.version == p.version && q.releaseDate == p.releaseDate && q.extras == p.extras ==>
              SettingsAre(items + [Loose(l)], q)
  {
    Appended(items, Loose(l));
    hide AreLegal, FilesOf, LastValue, IsOpenable;
  }

  lemma FieldAdds(items: seq<Item>, p: Progress, l: Line)
    requires StateOf(items, p) && !l.Url? && !l.Top? && items != [] && items[|items| - 1].Entry?
    requires l.Sha512? ==> IsBody(l.body)
    ensures Apply(p, l).Ok? && IsOpenable(Add(items, l)) && StateOf(Add(items, l), Apply(p, l).value)
  {
    var init, last := items[..|items| - 1], items[|items| - 1];
    var longer := last.(fields := last.fields + [l]);
    assert items == init + [last];
    FieldApplies(p, last, l);
    hide Apply, SettingsAre, LastSha512, LastSize, StripSingleQuotes, IsBody, AreLegal, FilesOf;
    var q := Apply(p, l).value;
    SettingsStay(init, last, longer, p, q);
    assert Add(items, l) == init + [longer];
    hide Add;
    OpenState(init, longer, q);
  }

  lemma OpenState(init: seq<Item>, entry: Item, p: Progress)
    requires entry.Entry? && AreLegal(init) && p.files == FilesOf(init) && p.inFiles
    requires p.currentFile ==
             Some(PartialFile(StripSingleQuotes(entry.url), LastSha512(entry.fields), LastSize(entry.fields)))
    requires SettingsAre(init + [entry], p)
    ensures IsOpenable(init + [entry]) && StateOf(init + [entry], p)
  {
    hide SettingsAre, LastSha512, LastSize, StripSingleQuotes, AreLegal, FilesOf;
    var items := init + [entry];
    assert items[..|items| - 1] == init && items[|items| - 1] == entry;
  }

  lemma SettingsStay(init: seq<Item>, a: Item, b: Item, p: Progress, q: Progress)
    requires SettingsAre(init + [a], p) && !a.Setting? && !b.Setting?
    requires q.version == p.version && q.releaseDate == p.releaseDate && q.extras == p.extras
    ensures SettingsAre(init + [b], q)
  {
    Appended(init, a);
    Appended(init, b);
    hide LastValue, AreLegal, FilesOf, IsOpenable;
  }

  lemma FieldApplies(p: Progress, entry: Item, l: Line)
    requires entry.Entry? && !l.Url? && !l.Top? && (l.Sha512? ==> IsBody(l.body)) && p.inFiles
    requires p.currentFile ==
             Some(PartialFile(StripSingleQuotes(entry.url), LastSha512(entry.fields), LastSize(entry.fields)))
    ensures var fields := entry.fields + [l];
            Apply(p, l) == Ok(p.(currentFile :=
              Some(PartialFile(StripSingleQuotes(entry.url), LastSha512(fields), LastSize(fields)))))
  {
    LastFields(entry.fields, l);
    if l.Sha512? {
      Sha512Applies(p, l.body);
    }
    hide StripSingleQuotes, IsBody, LastSha512, LastSize, SetSha512;
  }

  lemma Sha512Applies(p: Progress, body: string)
    requires IsBody(body) && p.currentFile.Some?
    ensures SetSha512(p, body) ==
            Ok(p.(currentFile := Some(p.currentFile.value.(sha512 := Some(StripSingleQuotes(body))))))
  {
    hide StripSingleQuotes, Trim, OneLine, IsTrimmed;
    TrimIsTrimmed(body);
  }

  lemma LastFields(fields: seq<Line>, l: Line)
    ensures LastSha512(fields + [l]) == if l.Sha512? then Some(StripSingleQuotes(l.body)) else LastSha512(fields)
    ensures LastSize(fields + [l]) == if l.Size? then Some(l.size) else LastSize(fields)
  {
    hide StripSingleQuotes;
    assert (fields + [l])[..|fields|] == fields;
  }

  lemma LineAdds(items: seq<Item>, p: Progress, l: Line)
    requires StateOf(items, p) && (l.Url? || l.Sha512? ==> IsBody(l.body))
    ensures Apply(p, l).Ok? <==> IsOpenable(Add(items, l))
    ensures Apply(p, l).Ok? ==> StateOf(Add(items, l), Apply(p, l).value)
  {
    hide StateOf, Apply, IsOpenable, Add, IsBody;
    if l.Url? {
      UrlAdds(items, p, l.body);
    } else if l.Top? {
      TopAdds(items, p, l.key, l.body);
    } else if items == [] || !items[|items| - 1].Entry? {
      LooseAdds(items, p, l);
    } else {
      FieldAdds(items, p, l);
    }
  }

  /** What is not legal stays so. */
  lemma AddNeedsOpenable(items: seq<Item>, l: Line)
    requires IsOpenable(Add(items, l))
    ensures IsOpenable(items)
  {
    if items != [] {
      var init, last := items[..|items| - 1], items[|items| - 1];
      assert items == init + [last];
      Appended(init, last);
      hide IsLegal, AreLegal;
      if l.Url? || l.Top? || !last.Entry? {
        var x := Add(items, l)[|items|];
        assert Add(items, l) == items + [x];
        hide Add, IsOpenable;
        Appended(items, x);
      } else {
        var next := Add(items, l);
        assert |next| == |items| && next[..|items| - 1] == init;
      }
    }
  }

  lemma {:induction false} LinesGroup(texts: seq<string>, lines: seq<Line>)
    requires SpellAll(texts, lines)
    ensures ParseLines(START, texts).Ok? <==> IsOpenable(Group(lines))
    ensures ParseLines(START, texts).Ok? ==> StateOf(Group(lines), ParseLines(START, texts).value)
    decreases |texts|
  {
    hide ParseLine, StateOf, IsOpenable, Add, Spells, Apply;
    if texts == [] {
      NothingGrouped();
    } else {
      var n := |texts| - 1;
      LinesGroup(texts[..n], lines[..n]);
      assert texts[..n] + [texts[n]] == texts;
      LinesAppend(START, texts[..n], [texts[n]]);
      OneLineRead(texts[n], lines[n]);
      if ParseLines(START, texts[..n]).Ok? {
        LineAdds(Group(lines[..n]), ParseLines(START, texts[..n]).value, lines[n]);
      } else if IsOpenable(Group(lines)) {
        AddNeedsOpenable(Group(lines[..n]), lines[n]);
      }
    }
  }

  lemma NothingGrouped()
    ensures IsOpenable([]) && StateOf([], START)
  {
  }

  lemma OneLineRead(text: string, l: Line)
    requires Spells(text, l)
    ensures forall p :: ParseLines(p, [text]) == Apply(p, l)
    ensures l.Url? || l.Sha512? ==> IsBody(l.body)
  {
    ClassifyExactly(text, l);
    hide ParseLine, Apply, Classify, Spells;
    forall p ensures ParseLines(p, [text]) == Apply(p, l) {
      LineApplies(p, text);
      assert [text][1..] == [] && forall r: Result<Progress, Problem> :: r.Ok? ==> ParseLines(r.value, []) == r;
    }
    assert Spells(text, l);
    BodyOf(text, l);
  }

  lemma BodyOf(text: string, l: Line)
    requires Spells(text, l)
    ensures l.Url? || l.Sha512? ==> IsBody(l.body)
  {
  }

  /** Lines that are read through are all spelled. */
  lemma {:induction false} ReadLinesAreSpelled(p: Progress, texts: seq<string>) returns (lines: seq<Line>)
    requires ParseLines(p, texts).Ok?
    ensures SpellAll(texts, lines)
    decreases |texts|
  {
    hide ParseLine, Classify, Spells;
    lines := [];
    if texts == [] {
    } else {
      var rest := ReadLinesAreSpelled(ParseLine(p, texts[0]).value, texts[1..]);
      LineApplies(p, texts[0]);
      var l := Classify(texts[0]).value;
      ClassifyExactly(texts[0], l);
      lines := [l] + rest;
      assert forall i :: 0 < i < |texts| ==> texts[i] == texts[1..][i - 1] && lines[i] == rest[i - 1];
    }
  }

  lemma FinishMeaning(items: seq<Item>, p: Progress, m: Manifest)
    requires StateOf(items, p)
    ensures Finish(p) == Ok(m) <==> IsManifest(items, m)
  {
    hide StripSingleQuotes, AreLegal, IsLegal, FilesOf, LastValue;
    CloseMeaning(items, p);
    if AreLegal(items) {
      SettingsAreStrings(items, "version");
      SettingsAreStrings(items, "releaseDate");
      if IsManifest(items, m) {
        assert m.extras.Keys == p.extras.Keys;
        assert m.extras == p.extras;
      }
    }
  }

  lemma {:induction false} SettingsAreStrings(items: seq<Item>, key: string)
    requires AreLegal(items) && key in {"version", "releaseDate"}
    ensures LastValue(items, key).Some? ==> LastValue(items, key).value.Str?
    decreases |items|
  {
    hide ParseScalarValue;
    if items == [] {
    } else {
      assert IsLegal(items[|items| - 1]);
      SettingsAreStrings(items[..|items| - 1], key);
    }
  }

  /** A text is parsed to `m` exactly when its lines spell `m`, whatever blank lines, `files:` lines,
      lines for `path` and `sha512`, and carriage returns it has besides. */
  lemma ParserMatchesGrammar(texts: seq<string>, m: Manifest)
    requires texts != [] && forall t :: t in texts ==> '\n' !in t
    ensures Parse(Join(texts, '\n')) == Ok(m) <==>
            exists lines :: SpellAll(texts, lines) && IsManifest(Group(lines), m)
  {
    hide ParseLines, SplitLines, Join, Finish, IsManifest, Spells, StateOf, IsOpenable, Group;
    var raw := Join(texts, '\n');
    SameLines(texts);
    if Parse(raw) == Ok(m) {
      var lines := ReadLinesAreSpelled(START, texts);
      LinesGroup(texts, lines);
      FinishMeaning(Group(lines), ParseLines(START, texts).value, m);
    }
    if lines :| SpellAll(texts, lines) && IsManifest(Group(lines), m) {
      LinesGroup(texts, lines);
      ManifestIsOpenable(Group(lines), m);
      FinishMeaning(Group(lines), ParseLines(START, texts).value, m);
    }
  }

  lemma ManifestIsOpenable(items: seq<Item>, m: Manifest)
    requires IsManifest(items, m)
    ensures IsOpenable(items)
  {
    hide IsLegal;
    assert items != [] ==> items[|items| - 1] in items;
  }

  /** A carriage return before a line feed is dropped twice over: it is also white space at the end. */
  lemma SameLines(texts: seq<string>)
    requires texts != [] && forall t :: t in texts ==> '\n' !in t
    ensures ParseLines(START, SplitLines(Join(texts, '\n'))) == ParseLines(START, texts)
  {
    SplitOfJoin(texts, '\n');
    var lines := SplitLines(Join(texts, '\n'));
    hide TrimEnd, Join, SplitOn;
    forall k | 0 <= k < |texts| ensures TrimEnd(lines[k]) == TrimEnd(texts[k]) {
      if texts[k] != "" && texts[k][|texts[k]| - 1] == '\r' {
        ReturnIsSpace(texts[k]);
      }
    }
    hide SplitLines;
    SameReading(START, lines, texts);
  }

  lemma ReturnIsSpace(s: string)
    requires s != "" && s[|s| - 1] == '\r'
    ensures TrimEnd(s) == TrimEnd(s[..|s| - 1])
  {
  }

  lemma {:induction false} SameReading(p: Progress, a: seq<string>, b: seq<string>)
    requires |a| == |b| && forall k :: 0 <= k < |a| ==> TrimEnd(a[k]) == TrimEnd(b[k])
    ensures ParseLines(p, a) == ParseLines(p, b)
    decreases |a|
  {
    if a == [] {
    } else {
      assert ParseLine(p, a[0]) == ParseLine(p, b[0]) by { SameLine(p, a[0], b[0]); }
      hide ParseLine, TrimEnd;
      if ParseLine(p, a[0]).Ok? {
        SameReading(ParseLine(p, a[0]).value, a[1..], b[1..]);
      }
    }
  }

  lemma SameLine(p: Progress, a: string, b: string)
    requires TrimEnd(a) == TrimEnd(b)
    ensures ParseLine(p, a) == ParseLine(p, b)
  {
  }

  // ---------- what a value says ----------

  function Quotes(n: nat): string {
    seq(n, _ => '\'')
  }

  lemma CollapseStep(s: string)
    ensures CollapseQuotes(s) ==
            if |s| >= 2 && s[0] == '\'' && s[1] == '\'' then ['\''] + CollapseQuotes(s[2..])
            else if s == "" then ""
            else [s[0]] + CollapseQuotes(s[1..])
  {
  }

  lemma {:induction false} CollapseOfQuotes(n: nat, b: string)
    requires b == "" || b[0] != '\''
    ensures CollapseQuotes(Quotes(n) + b) == Quotes((n + 1) / 2) + CollapseQuotes(b)
    decreases n
  {
    hide CollapseQuotes;
    var s := Quotes(n) + b;
    CollapseStep(s);
    if n == 0 {
      assert s == b && Quotes(0) + CollapseQuotes(b) == CollapseQuotes(b);
    } else if n == 1 {
      assert s[1..] == b && Quotes(1) == ['\''];
    } else {
      assert s[2..] == Quotes(n - 2) + b;
      CollapseOfQuotes(n - 2, b);
      assert ['\''] + Quotes((n - 1) / 2) == Quotes((n + 1) / 2);
      hide Quotes;
      Prefixed('\'', Quotes((n - 1) / 2), CollapseQuotes(b));
    }
  }

  /** Of every longest run of quotes half remain, rounded up; everything else stays. */
  lemma {:induction false} CollapseMeaning(a: string, n: nat, b: string)
    requires (a == "" || a[|a| - 1] != '\'') && (b == "" || b[0] != '\'')
    ensures CollapseQuotes(a + (Quotes(n) + b)) == CollapseQuotes(a) + (Quotes((n + 1) / 2) + CollapseQuotes(b))
    decreases |a|
  {
    hide CollapseQuotes, Quotes;
    var rest := Quotes(n) + b;
    var end := Quotes((n + 1) / 2) + CollapseQuotes(b);
    CollapseStep(a);
    if a == "" {
      assert a + rest == rest && CollapseQuotes(a) + end == end;
      CollapseOfQuotes(n, b);
    } else {
      var k := if |a| >= 2 && a[0] == '\'' && a[1] == '\'' then 2 else 1;
      var s := a + rest;
      assert s[k..] == a[k..] + rest && s[0] == a[0] && (|a| >= 2 ==> s[1] == a[1]);
      CollapseStep(s);
      CollapseMeaning(a[k..], n, b);
      Prefixed(a[0], CollapseQuotes(a[k..]), end);
    }
  }

  lemma {:induction false} CollapsePlain(a: string)
    requires '\'' !in a
    ensures CollapseQuotes(a) == a
    decreases |a|
  {
    if a == "" {
    } else {
      CollapsePlain(a[1..]);
      assert a == [a[0]] + a[1..] && a[0] in a;
    }
  }

  lemma Prefixed(c: char, a: string, b: string)
    ensures [c] + (a + b) == ([c] + a) + b
  {
  }

  predicate IsQuoted(raw: string) {
    |raw| >= 2 && raw[0] == '\'' && raw[|raw| - 1] == '\''
  }

  function Zeros(n: nat): string {
    seq(n, _ => '0')
  }

  function NumeralText(minus: bool, digits: string, decimals: string): string {
    (if minus then "-" else "") + (digits + if decimals == "" then "" else "." + decimals)
  }

  /** `raw` is a decimal numeral for the number; zeros at the end of its decimals do not count. */
  ghost predicate IsNumeral(raw: string, negative: bool, whole: nat, fraction: string) {
    exists minus: bool, digits: string, zeros: nat ::
      && digits != "" && AllDigits(digits) && AllDigits(fraction) && ToNat(digits) == whole
      && (fraction == "" || fraction[|fraction| - 1] != '0')
      && raw == NumeralText(minus, digits, fraction + Zeros(zeros))
      && negative == (minus && (whole != 0 || fraction != ""))
  }

  /** What a value says: quoted text is a string, and bare text is a boolean, a number or itself. */
  ghost predicate Says(raw: string, value: Scalar) {
    if IsQuoted(raw) then value == Str(CollapseQuotes(raw[1..|raw| - 1]))
    else
      match value
      case Bool(b) => raw == if b then "true" else "false"
      case Num(negative, whole, fraction) => IsNumeral(raw, negative, whole, fraction)
      case Str(text) =>
        && text == raw && raw != "true" && raw != "false"
        && forall negative, whole, fraction :: !IsNumeral(raw, negative, whole, fraction)
  }

  lemma {:induction false} DroppedZeros(s: string)
    requires AllDigits(s)
    ensures |DropTrailingZeros(s)| <= |s|
    ensures s == DropTrailingZeros(s) + Zeros(|s| - |DropTrailingZeros(s)|)
    decreases |s|
  {
    if s == "" || s[|s| - 1] != '0' {
      assert s == s + Zeros(0);
    } else {
      var init := s[..|s| - 1];
      DroppedZeros(init);
      var r := DropTrailingZeros(init);
      assert Zeros(|s| - |r|) == Zeros(|init| - |r|) + "0";
      assert s == init + "0";
    }
  }

  lemma {:induction false} DropOfPadded(fraction: string, zeros: nat)
    requires AllDigits(fraction) && (fraction == "" || fraction[|fraction| - 1] != '0')
    ensures AllDigits(fraction + Zeros(zeros)) && DropTrailingZeros(fraction + Zeros(zeros)) == fraction
    decreases zeros
  {
    if zeros == 0 {
      assert fraction + Zeros(0) == fraction;
    } else {
      assert (fraction + Zeros(zeros))[..|fraction| + zeros - 1] == fraction + Zeros(zeros - 1);
      DropOfPadded(fraction, zeros - 1);
    }
  }

  /** The code's reading of a numeral without its sign. */
  lemma UnsignedOf(minus: bool, digits: string, decimals: string)
    requires digits != "" && AllDigits(digits) && AllDigits(decimals)
    ensures ParseUnsigned(minus, digits + if decimals == "" then "" else "." + decimals) ==
            Some(Decimal(minus, ToNat(digits), DropTrailingZeros(decimals)))
  {
    hide ToNat, DigitRun, DropTrailingZeros;
    var rest := if decimals == "" then "" else "." + decimals;
    var body := digits + rest;
    DigitRunIs(digits, rest);
    assert body[..|digits|] == digits;
    assert rest != "" ==> body[|digits| + 1..] == decimals;
    assert decimals == "" ==> DropTrailingZeros(decimals) == "";
  }

  lemma NumberOf(minus: bool, digits: string, decimals: string)
    requires digits != "" && AllDigits(digits) && AllDigits(decimals)
    ensures ParseNumber(NumeralText(minus, digits, decimals)) ==
            Some(Decimal(minus, ToNat(digits), DropTrailingZeros(decimals)))
  {
    UnsignedOf(minus, digits, decimals);
    var body := digits + if decimals == "" then "" else "." + decimals;
    var raw := NumeralText(minus, digits, decimals);
    assert raw == if minus then "-" + body else body;
    assert minus ==> raw[1..] == body;
    assert !minus ==> IsDigit(raw[0]);
    hide ParseUnsigned, ToNat, DropTrailingZeros;
  }

  lemma NumberParts(raw: string) returns (minus: bool, digits: string, decimals: string)
    ensures ParseNumber(raw).Some? ==>
              digits != "" && AllDigits(digits) && AllDigits(decimals) && raw == NumeralText(minus, digits, decimals)
  {
    minus := raw != "" && raw[0] == '-';
    var body := if minus then raw[1..] else raw;
    var k := DigitRun(body);
    digits := body[..k];
    decimals := if k < |body| then body[k + 1..] else "";
    hide DigitRun, ToNat, DropTrailingZeros;
    assert minus ==> raw == "-" + body;
    assert body == digits + body[k..] && (k < |body| ==> body[k..] == [body[k]] + body[k + 1..]);
  }

  lemma NumberMeaning(raw: string, negative: bool, whole: nat, fraction: string)
    ensures ParseNumber(raw) == Some(Num(negative, whole, fraction)) <==> IsNumeral(raw, negative, whole, fraction)
  {
    if IsNumeral(raw, negative, whole, fraction) {
      var minus: bool, digits: string, zeros: nat :|
        && digits != "" && AllDigits(digits) && AllDigits(fraction) && ToNat(digits) == whole
        && (fraction == "" || fraction[|fraction| - 1] != '0')
        && raw == NumeralText(minus, digits, fraction + Zeros(zeros))
        && negative == (minus && (whole != 0 || fraction != ""));
      DropOfPadded(fraction, zeros);
      NumberOf(minus, digits, fraction + Zeros(zeros));
    }
    if ParseNumber(raw) == Some(Num(negative, whole, fraction)) {
      var minus, digits, decimals := NumberParts(raw);
      NumberOf(minus, digits, decimals);
      DroppedZeros(decimals);
      hide ParseNumber, ToNat, DropTrailingZeros, NumeralText;
      assert decimals == fraction + Zeros(|decimals| - |fraction|);
    }
  }

  /** Values are read as what they say. */
  lemma ScalarMeaning(raw: string, value: Scalar)
    requires IsTrimmed(raw)
    ensures ParseScalarValue(raw) == value <==> Says(raw, value)
  {
    TrimIsTrimmed(raw);
    hide Trim, ParseNumber, CollapseQuotes, IsNumeral, IsTrimmed;
    forall negative, whole, fraction
      ensures ParseNumber(raw) == Some(Num(negative, whole, fraction)) <==> IsNumeral(raw, negative, whole, fraction)
    {
      NumberMeaning(raw, negative, whole, fraction);
    }
    NotBoth(raw);
    if ParseNumber(raw).Some? {
      var n := ParseNumber(raw).value;
      assert n == Num(n.negative, n.whole, n.fraction);
    }
  }

  /** Neither boolean is a number. */
  lemma NotBoth(raw: string)
    ensures raw == "true" || raw == "false" ==> ParseNumber(raw).None?
    ensures ParseNumber(raw).Some? ==> ParseNumber(raw).value.Num?
  {
    hide ToNat, DropTrailingZeros;
    assert "true"[0] == 't' && "false"[0] == 'f';
  }

  // ---------- refused lines ----------

  /** An error names what is wrong with the line it stops at. */
  lemma ErrorsNameTheirCause(p: Progress, line: string)
    requires ParseLine(p, line).Err?
    ensures match ParseLine(p, line).error
            case IncompleteFile => p.currentFile.Some? && CloseFile(p).Err?
            case Sha512WithoutFile => p.currentFile.None? && exists body :: Spells(line, Sha512(body))
            case SizeWithoutFile => p.currentFile.None? && exists size :: Spells(line, Size(size))
            case VersionNotString => exists body :: Spells(line, Top("version", body)) && !ParseScalarValue(body).Str?
            case ReleaseDateNotString =>
              exists body :: Spells(line, Top("releaseDate", body)) && !ParseScalarValue(body).Str?
            case UnsupportedLine => forall l :: !Spells(line, l)
            case _ => false
  {
    LineApplies(p, line);
    if Classify(line).Some? {
      var l := Classify(line).value;
      ClassifyExactly(line, l);
      hide ParseLine, Classify, Spells;
      ApplyErrs(p, l);
      hide Apply, CloseFile, ParseScalarValue;
      assert Spells(line, l);
    } else {
      UnreadLine(p, line);
      forall l ensures !Spells(line, l) {
        ClassifyExactly(line, l);
      }
      hide ParseLine, Classify, Spells, CloseFile, ParseScalarValue;
    }
  }

  /** ... and so does one at the end of the text. */
  lemma EndErrorsNameTheirCause(p: Progress)
    requires Finish(p).Err?
    ensures match Finish(p).error
            case IncompleteFile => p.currentFile.Some? && CloseFile(p).Err?
            case MissingVersion => p.version.None? || p.version == Some("")
            case MissingReleaseDate => p.releaseDate.None? || p.releaseDate == Some("")
            case MissingFiles => p.files == [] && p.currentFile.None?
            case _ => false
  {
  }

  lemma ApplyErrs(p: Progress, l: Line)
    requires Apply(p, l).Err?
    ensures match Apply(p, l).error
            case IncompleteFile => p.currentFile.Some? && CloseFile(p).Err?
            case Sha512WithoutFile => p.currentFile.None? && l.Sha512?
            case SizeWithoutFile => p.currentFile.None? && l.Size?
            case VersionNotString => l.Top? && l.key == "version" && !ParseScalarValue(l.body).Str?
            case ReleaseDateNotString => l.Top? && l.key == "releaseDate" && !ParseScalarValue(l.body).Str?
            case _ => false
  {
    hide StripSingleQuotes, Trim, ParseScalarValue;
  }

  lemma UnreadLine(p: Progress, line: string)
    requires Classify(line).None?
    ensures ParseLine(p, line) in {Err(IncompleteFile), Err(UnsupportedLine)}
    ensures ParseLine(p, line) == Err(IncompleteFile) ==> p.currentFile.Some? && CloseFile(p).Err?
  {
    hide TrimEnd, FieldText, SizeField, TopLevel, Assign, OpenFile, SetSha512;
  }

  // ---------- what builders write ----------

  function BuilderTail(path: string, sha512: string, date: string): seq<string> {
    [TopLine("path", path), TopLine("sha512", sha512), TopLine("releaseDate", QuoteYamlString(date)), ""]
  }

  /** The lines of a builder's manifest: a bare version, the files, the two lines that say nothing, and a
      quoted date. */
  function BuilderLines(version: string, files: seq<File>, path: string, sha512: string, date: string): seq<string> {
    [TopLine("version", version), "files:"] + FileLines(files) + BuilderTail(path, sha512, date)
  }

  lemma HeadOfBuilder(version: string)
    requires IsBody(version) && ParseScalarValue(version) == Str(version)
    ensures ParseLines(START, [TopLine("version", version), "files:"]) ==
            Ok(START.(version := Some(version), inFiles := true))
  {
    hide ParseLine, ParseLines, OneLine, TopLine, ParseScalarValue, IsTrimmed;
    assert IsKey("version");
    TopLineRead(START, "version", version);
    PlainLinesRead(START.(version := Some(version)));
    TwoLines(START, TopLine("version", version), "files:");
  }

  lemma TailOfBuilder(p: Progress, path: string, sha512: string, date: string)
    requires IsReady(p) && IsBody(path) && IsBody(sha512) && OneLine(date)
    ensures ParseLines(p, BuilderTail(path, sha512, date)) ==
            Ok(CloseFile(p).value.(inFiles := false, releaseDate := Some(date)))
  {
    hide ParseLine, ParseLines, OneLine, TopLine, ParseScalarValue, IsTrimmed, QuoteYamlString, IsReady;
    assert IsKey("path") && IsKey("sha512");
    var a, b := TopLine("path", path), TopLine("sha512", sha512);
    var rest := [TopLine("releaseDate", QuoteYamlString(date)), ""];
    assert BuilderTail(path, sha512, date) == [a, b] + rest;
    LinesAppend(p, [a, b], rest);
    TwoLines(p, a, b);
    TopLineRead(p, "path", path);
    ReadyCloses(p);
    var q := CloseFile(p).value.(inFiles := false);
    TopLineRead(q, "sha512", sha512);
    TailRead(q, date);
  }

  lemma ReadyCloses(p: Progress)
    requires IsReady(p)
    ensures CloseFile(p).Ok? && (!p.inFiles ==> CloseFile(p) == Ok(p))
    ensures var q := CloseFile(p).value.(inFiles := false); IsReady(q) && CloseFile(q) == Ok(q)
  {
  }

  lemma BuilderLinesRead(version: string, files: seq<File>, path: string, sha512: string, date: string)
    requires IsBody(version) && ParseScalarValue(version) == Str(version) && IsBody(path) && IsBody(sha512)
    requires OneLine(date) && AreFiles(files) && AreLegible(files) && RereadFiles(files) == files
    ensures var r := ParseLines(START, BuilderLines(version, files, path, sha512, date));
            r.Ok? && CloseFile(r.value) ==
                     Ok(START.(version := Some(version), releaseDate := Some(date), files := files))
  {
    var head, tail := [TopLine("version", version), "files:"], BuilderTail(path, sha512, date);
    var p := START.(version := Some(version), inFiles := true);
    var body := FileLines(files);
    assert BuilderLines(version, files, path, sha512, date) == head + (body + tail);
    HeadOfBuilder(version);
    assert IsReady(p);
    hide ParseLine, ParseLines, TopLine, FileLines, BuilderTail, AreLegible, RereadFiles, BuilderLines, OneLine, IsBody;
    hide ParseScalarValue, AreFiles;
    LinesAppend(START, head, body + tail);
    LinesAppend(p, body, tail);
    FilesRead(p, files);
    assert [] + files == files;
    TailOfBuilder(ParseLines(p, body).value, path, sha512, date);
  }

  /** Every manifest of a builder is read as its version, date and files, whatever its `path` and
      top-level `sha512` say. */
  lemma BuilderManifestsParse(version: string, files: seq<File>, path: string, sha512: string, date: string)
    requires IsBody(version) && Says(version, Str(version)) && IsBody(path) && IsBody(sha512)
    requires date != "" && OneLine(date)
    requires files != [] && AreFiles(files) && forall f :: f in files ==> IsBare(f.url) && IsBare(f.sha512)
    ensures Parse(Join(BuilderLines(version, files, path, sha512, date), '\n')) ==
            Ok(Manifest(version, date, files, map[]))
  {
    hide OneLine, IsBare, Says, BuilderLines, ParseLines, AreLegible, RereadFiles, SplitLines, Join, ParseScalarValue;
    hide IsTrimmed, AreFiles;
    var lines := BuilderLines(version, files, path, sha512, date);
    BuilderLinesAreOneLine(version, files, path, sha512, date);
    ScalarMeaning(version, Str(version));
    FilesSurvive(files);
    SplitLinesOfJoin(lines);
    BuilderLinesRead(version, files, path, sha512, date);
  }

  lemma BuilderLinesAreOneLine(version: string, files: seq<File>, path: string, sha512: string, date: string)
    requires OneLine(version) && AreFiles(files) && OneLine(path) && OneLine(sha512) && OneLine(date)
    ensures BuilderLines(version, files, path, sha512, date) != []
    ensures forall l :: l in BuilderLines(version, files, path, sha512, date) ==> OneLine(l)
  {
    hide FileLines, TopLine, QuoteYamlString, OneLine;
    PrintedFilesAreOneLine(files);
    QuotedIsOneLine(date);
    PlainLinesAreOneLine();
    assert IsKey("version") && IsKey("path") && IsKey("sha512") && IsKey("releaseDate");
    TopLineIsOneLine("version", version);
    TopLineIsOneLine("path", path);
    TopLineIsOneLine("sha512", sha512);
    TopLineIsOneLine("releaseDate", QuoteYamlString(date));
  }

  // ---------- what is printed ----------

  function FileText(f: File): string {
    "  - url: " + f.url + "\n" + "    sha512: " + f.sha512 + "\n" + "    size: " + FromNat(f.size) + "\n"
  }

  function FilesText(files: seq<File>): string {
    if files == [] then "" else FileText(files[0]) + FilesText(files[1..])
  }

  function ExtrasText(extras: map<string, Scalar>, keys: seq<string>): string
    requires forall k :: k in keys ==> k in extras
  {
    if keys == [] then ""
    else keys[0] + ": " + SerializeScalarValue(extras[keys[0]]) + "\n" + ExtrasText(extras, keys[1..])
  }

  /** Every line, and a line feed after it. */
  function Fed(lines: seq<string>): string {
    if lines == [] then "" else lines[0] + "\n" + Fed(lines[1..])
  }

  lemma {:induction false} FedAppend(a: seq<string>, b: seq<string>)
    ensures Fed(a + b) == Fed(a) + Fed(b)
    decreases |a|
  {
    if a == [] {
      assert a + b == b;
    } else {
      assert (a + b)[1..] == a[1..] + b;
      FedAppend(a[1..], b);
    }
  }

  lemma {:induction false} JoinIsFed(lines: seq<string>)
    ensures Join(lines + [""], '\n') == Fed(lines)
    decreases |lines|
  {
    if lines == [] {
      assert lines + [""] == [""];
    } else {
      assert (lines + [""])[1..] == lines[1..] + [""];
      JoinIsFed(lines[1..]);
    }
  }

  lemma {:induction false} FilesAreFed(files: seq<File>)
    ensures Fed(FileLines(files)) == FilesText(files)
    decreases |files|
  {
    hide FromNat;
    if files == [] {
    } else {
      FilesAreFed(files[1..]);
      var f, rest := files[0], FileLines(files[1..]);
      var a, b, c := URL_FIELD + (" " + f.url), SHA512_FIELD + (" " + f.sha512), SIZE_FIELD + (" " + FromNat(f.size));
      assert FileLines(files) == [a, b, c] + rest;
      hide FileLines, FileText;
      FedThree(a, b, c, rest);
      FileIsFed(f);
    }
  }

  lemma FileIsFed(f: File)
    ensures URL_FIELD + (" " + f.url) + "\n" + (SHA512_FIELD + (" " + f.sha512)) + "\n"
            + (SIZE_FIELD + (" " + FromNat(f.size))) + "\n" == FileText(f)
  {
    hide FromNat;
    assert URL_FIELD + (" " + f.url) == "  - url: " + f.url;
    assert SHA512_FIELD + (" " + f.sha512) == "    sha512: " + f.sha512;
    assert SIZE_FIELD + (" " + FromNat(f.size)) == "    size: " + FromNat(f.size);
    hide URL_FIELD, SHA512_FIELD, SIZE_FIELD;
  }

  lemma FedThree(a: string, b: string, c: string, rest: seq<string>)
    ensures Fed([a, b, c] + rest) == a + "\n" + b + "\n" + c + "\n" + Fed(rest)
  {
    var l := [a, b, c] + rest;
    assert l[1..] == [b, c] + rest && l[1..][1..] == [c] + rest && l[1..][1..][1..] == rest;
    assert Fed([c] + rest) == c + "\n" + Fed(rest);
    assert Fed([b, c] + rest) == b + "\n" + Fed([c] + rest);
    assert Fed(l) == a + "\n" + Fed([b, c] + rest);
  }

  lemma {:induction false} ExtrasAreFed(extras: map<string, Scalar>, keys: seq<string>)
    requires forall k :: k in keys ==> k in extras
    ensures Fed(ExtraLines(extras, keys)) == ExtrasText(extras, keys)
    decreases |keys|
  {
    hide SerializeScalarValue;
    if keys == [] {
    } else {
      ExtrasAreFed(extras, keys[1..]);
      var raw := SerializeScalarValue(extras[keys[0]]);
      assert ExtraLines(extras, keys)[1..] == ExtraLines(extras, keys[1..]);
      assert TopLine(keys[0], raw) == keys[0] + ": " + raw;
    }
  }

  /** The text of a printed manifest, line by line. */
  lemma SerializationText(m: Manifest, text: string)
    requires IsSerialization(m, text)
    ensures exists keys: seq<string> ::
              && (forall k :: k in keys <==> k in m.extras) && IsSorted(keys)
              && text == "version: " + QuoteYamlString(m.version) + "\n" + "files:\n" + FilesText(m.files)
                         + ExtrasText(m.extras, keys) + "releaseDate: " + QuoteYamlString(m.releaseDate) + "\n"
  {
    hide IsSorted, Join, QuoteYamlString;
    var keys: seq<string> :|
      (forall k :: k in keys <==> k in m.extras) && IsSorted(keys) && text == Join(ManifestLines(m, keys), '\n');
    PrintedText(m, keys);
  }

  lemma PrintedText(m: Manifest, keys: seq<string>)
    requires forall k :: k in keys ==> k in m.extras
    ensures Join(ManifestLines(m, keys), '\n') ==
            "version: " + QuoteYamlString(m.version) + "\n" + "files:\n" + FilesText(m.files)
            + ExtrasText(m.extras, keys) + "releaseDate: " + QuoteYamlString(m.releaseDate) + "\n"
  {
    hide Join, QuoteYamlString, FileLines, ExtraLines, FilesText, ExtrasText;
    var version, date := QuoteYamlString(m.version), QuoteYamlString(m.releaseDate);
    var first, last := TopLine("version", version), TopLine("releaseDate", date);
    var head, files, extras := [first, "files:"], FileLines(m.files), ExtraLines(m.extras, keys);
    var lines := head + files + extras + [last];
    assert ManifestLines(m, keys) == lines + [""];
    assert first == "version: " + version && last == "releaseDate: " + date;
    hide ManifestLines, TopLine;
    JoinIsFed(lines);
    FedAppend(head + files + extras, [last]);
    FedAppend(head + files, extras);
    FedAppend(head, files);
    FilesAreFed(m.files);
    ExtrasAreFed(m.extras, keys);
    assert head[1..] == ["files:"] && ["files:"][1..] == [] && [last][1..] == [];
    assert Fed(head) == first + "\n" + ("files:" + "\n" + "") && Fed([last]) == last + "\n" + "";
    hide Fed;
    assert "files:" + "\n" + "" == "files:\n";
  }
}

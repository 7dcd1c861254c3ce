/** The update manifest of scripts/lib/update-manifest.ts: its line parser and its printer. */
module UpdateManifest {
  import opened Wrappers
  import opened Text

  datatype File = File(url: string, sha512: string, size: nat)

  /** A number is a decimal: sign, whole part, and the digits after the point without trailing zeros. */
  datatype Scalar =
    | Str(text: string)
    | Num(negative: bool, whole: nat, fraction: string)
    | Bool(value: bool)

  datatype Manifest = Manifest(
    version: string, releaseDate: string, files: seq<File>, extras: map<string, Scalar>)

  // ---------- Quoting ----------

  function DoubleQuotes(s: string): string {
    if s == "" then ""
    else (if s[0] == '\'' then "''" else [s[0]]) + DoubleQuotes(s[1..])
  }

  /** Every pair of quotes becomes one, from the left. */
  function CollapseQuotes(s: string): (r: string)
    ensures |r| <= |s| && forall c :: c in r ==> c in s
  {
    if |s| >= 2 && s[0] == '\'' && s[1] == '\'' then ['\''] + CollapseQuotes(s[2..])
    else if s == "" then ""
    else [s[0]] + CollapseQuotes(s[1..])
  }

  /** Doubling quotes and collapsing them again is the identity. */
  lemma {:induction false} CollapseUndoesDouble(s: string)
    ensures CollapseQuotes(DoubleQuotes(s)) == s
    decreases |s|
  {
    if s == "" {
    } else {
      CollapseUndoesDouble(s[1..]);
      var d := DoubleQuotes(s);
      if s[0] == '\'' {
        assert d[2..] == DoubleQuotes(s[1..]);
      } else {
        assert d[1..] == DoubleQuotes(s[1..]);
      }
      assert [s[0]] + s[1..] == s;
    }
  }

  function QuoteYamlString(s: string): string {
    "'" + DoubleQuotes(s) + "'"
  }

  predicate IsWrapped(s: string) {
    s != "" && s[0] == '\'' && s[|s| - 1] == '\''
  }

  function StripSingleQuotes(s: string): string {
    if IsWrapped(s) then CollapseQuotes(if |s| >= 2 then s[1..|s| - 1] else "") else s
  }

  // ---------- Scalars ----------

  function DropTrailingZeros(s: string): (r: string)
    requires AllDigits(s)
    ensures AllDigits(r) && (r == "" || r[|r| - 1] != '0')
    ensures (s == "" || s[|s| - 1] != '0') ==> r == s
  {
    if s != "" && s[|s| - 1] == '0' then DropTrailingZeros(s[..|s| - 1]) else s
  }

  /** Numbers as printed: no trailing zeros after the point, and no negative zero. */
  predicate IsCanonical(value: Scalar) {
    value.Num? ==>
      && AllDigits(value.fraction) && (value.fraction == "" || value.fraction[|value.fraction| - 1] != '0')
      && (value.negative ==> value.whole != 0 || value.fraction != "")
  }

  /** An optional minus, digits, and optionally a point and more digits. */
  function ParseNumber(s: string): (r: Option<Scalar>)
    ensures r.Some? ==> r.value.Num? && IsCanonical(r.value)
  {
    if s != "" && s[0] == '-' then ParseUnsigned(true, s[1..]) else ParseUnsigned(false, s)
  }

  function Decimal(negative: bool, whole: nat, fraction: string): Scalar {
    Num(negative && (whole != 0 || fraction != ""), whole, fraction)
  }

  function ParseScalarValue(rawValue: string): Scalar {
    var trimmed := Trim(rawValue);
    if IsWrapped(trimmed) && |trimmed| >= 2 then Str(CollapseQuotes(trimmed[1..|trimmed| - 1]))
    else if trimmed == "true" then Bool(true)
    else if trimmed == "false" then Bool(false)
    else
      var number := ParseNumber(trimmed);
      if number.Some? then number.value else Str(trimmed)
  }

  function SerializeScalarValue(value: Scalar): string {
    match value
    case Str(text) => QuoteYamlString(text)
    case Num(negative, whole, fraction) =>
      (if negative then "-" else "") + PrintUnsigned(whole, fraction)
    case Bool(b) => if b then "true" else "false"
  }

  lemma QuotedIsWrapped(s: string)
    ensures var q := QuoteYamlString(s);
            && |q| >= 2 && IsWrapped(q) && IsTrimmed(q) && q[1..|q| - 1] == DoubleQuotes(s)
  {
  }

  /** An unsigned decimal: digits, and optionally a point and more digits. */
  function ParseUnsigned(negative: bool, body: string): (r: Option<Scalar>)
    ensures r.Some? ==> r.value.Num? && IsCanonical(r.value)
  {
    var k := DigitRun(body);
    if k == 0 then None
    else if k == |body| then Some(Decimal(negative, ToNat(body[..k]), ""))
    else if body[k] == '.' && k + 1 < |body| && AllDigits(body[k + 1..])
    then Some(Decimal(negative, ToNat(body[..k]), DropTrailingZeros(body[k + 1..])))
    else None
  }

  function PrintUnsigned(whole: nat, fraction: string): string {
    FromNat(whole) + if fraction == "" then "" else "." + fraction
  }

  lemma ParsePrintedUnsigned(value: Scalar)
    requires value.Num? && IsCanonical(value)
    ensures ParseUnsigned(value.negative, PrintUnsigned(value.whole, value.fraction)) == Some(value)
  {
    hide FromNat, ToNat, DigitRun, DropTrailingZeros;
    var digits := FromNat(value.whole);
    var rest := if value.fraction == "" then "" else "." + value.fraction;
    var body := digits + rest;
    DigitRunIs(digits, rest);
    ToNatOfFromNat(value.whole);
    assert body[..|digits|] == digits;
    assert rest != "" ==> body[|digits| + 1..] == value.fraction;
  }

  lemma PrintedUnsignedEnds(whole: nat, fraction: string)
    requires AllDigits(fraction)
    ensures var p := PrintUnsigned(whole, fraction);
            p != "" && IsDigit(p[0]) && IsDigit(p[|p| - 1])
  {
    hide FromNat;
    var p := PrintUnsigned(whole, fraction);
    assert p[0] == FromNat(whole)[0];
    if fraction != "" {
      assert p[|p| - 1] == fraction[|fraction| - 1];
    }
  }

  lemma PlainIsNotQuoted(s: string)
    requires s != "" && (s[0] == '-' || IsDigit(s[0])) && IsDigit(s[|s| - 1])
    ensures IsTrimmed(s) && !IsWrapped(s) && s != "true" && s != "false"
  {
  }

  lemma ParsePrintedNumber(value: Scalar)
    requires value.Num? && IsCanonical(value)
    ensures ParseScalarValue(SerializeScalarValue(value)) == value
    ensures IsTrimmed(SerializeScalarValue(value)) && SerializeScalarValue(value) != ""
  {
    hide ParseUnsigned, PrintUnsigned, Trim;
    var body := PrintUnsigned(value.whole, value.fraction);
    var s := SerializeScalarValue(value);
    PrintedUnsignedEnds(value.whole, value.fraction);
    ParsePrintedUnsigned(value);
    assert value.negative ==> s[1..] == body && s[0] == '-' && s[|s| - 1] == body[|body| - 1];
    assert !value.negative ==> s == body;
    PlainIsNotQuoted(s);
    TrimIsTrimmed(s);
  }

  lemma ParsePrintedString(text: string)
    ensures ParseScalarValue(QuoteYamlString(text)) == Str(text)
    ensures IsTrimmed(QuoteYamlString(text)) && QuoteYamlString(text) != ""
  {
    hide Trim, DoubleQuotes, CollapseQuotes, QuoteYamlString;
    QuotedIsWrapped(text);
    TrimIsTrimmed(QuoteYamlString(text));
    CollapseUndoesDouble(text);
  }

  /** A printed scalar is read back as itself; numbers need their canonical form. */
  lemma ParsePrintedScalar(value: Scalar)
    requires IsCanonical(value)
    ensures ParseScalarValue(SerializeScalarValue(value)) == value
    ensures IsTrimmed(SerializeScalarValue(value)) && SerializeScalarValue(value) != ""
  {
    match value {
      case Str(text) => ParsePrintedString(text);
      case Num(_, _, _) => ParsePrintedNumber(value);
      case Bool(_) => TrimIsTrimmed(SerializeScalarValue(value));
    }
  }

  // ---------- Lines ----------

  const URL_FIELD := "  - url:"
  const SHA512_FIELD := "    sha512:"
  const SIZE_FIELD := "    size:"

  /** The text after a field name and white space, when there is some and it is one line. */
  function FieldText(line: string, field: string): (r: Option<string>)
    ensures r.Some? ==> r.value != "" && OneLine(r.value)
  {
    if !StartsWith(line, field) then None
    else
      var text := TrimStart(line[|field|..]);
      if text != "" && OneLine(text) then Some(text) else None
  }

  function SizeField(line: string): Option<nat> {
    if !StartsWith(line, SIZE_FIELD) then None
    else
      var text := TrimStart(line[|SIZE_FIELD|..]);
      if text != "" && AllDigits(text) then Some(ToNat(text)) else None
  }

  predicate IsLetter(c: char) {
    'A' <= c <= 'Z' || 'a' <= c <= 'z'
  }

  predicate IsKey(key: string) {
    key != "" && IsLetter(key[0]) && forall k :: 0 <= k < |key| ==> IsLetter(key[k]) || IsDigit(key[k])
  }

  /** The end of the letters and digits that start at `i`. */
  function KeyEnd(line: string, i: nat): (j: nat)
    requires i <= |line|
    ensures i <= j <= |line|
    ensures forall k :: i <= k < j ==> IsLetter(line[k]) || IsDigit(line[k])
    ensures j < |line| ==> !IsLetter(line[j]) && !IsDigit(line[j])
    decreases |line| - i
  {
    if i < |line| && (IsLetter(line[i]) || IsDigit(line[i])) then KeyEnd(line, i + 1) else i
  }

  /** A top-level `key: value` line. */
  function TopLevel(line: string): (r: Option<(string, string)>)
    ensures r.Some? ==> IsKey(r.value.0) && r.value.1 != "" && OneLine(r.value.1)
  {
    if line == "" || !IsLetter(line[0]) then None
    else
      var k := KeyEnd(line, 1);
      if k == |line| || line[k] != ':' then None
      else
        var raw := TrimStart(line[k + 1..]);
        KeyOfLine(line);
        if raw != "" && OneLine(raw) then Some((line[..k], raw)) else None
  }

  lemma KeyOfLine(line: string)
    requires line != "" && IsLetter(line[0])
    ensures IsKey(line[..KeyEnd(line, 1)])
  {
    var k := KeyEnd(line, 1);
    assert forall i :: 1 <= i < k ==> IsLetter(line[i]) || IsDigit(line[i]);
    hide KeyEnd, IsLetter, IsDigit;
    var key := line[..k];
    assert forall i :: 0 <= i < |key| ==> key[i] == line[i];
  }

  /** Pieces between line feeds, each without the carriage return before its line feed. */
  function SplitLines(raw: string): seq<string> {
    var pieces := SplitOn(raw, '\n');
    seq(|pieces|, k requires 0 <= k < |pieces| =>
      if k < |pieces| - 1 && pieces[k] != "" && pieces[k][|pieces[k]| - 1] == '\r'
      then pieces[k][..|pieces[k]| - 1] else pieces[k])
  }

  lemma SplitLinesOfJoin(lines: seq<string>)
    requires lines != [] && forall l :: l in lines ==> OneLine(l)
    ensures SplitLines(Join(lines, '\n')) == lines
  {
    forall l | l in lines ensures '\n' !in l && (l != "" ==> l[|l| - 1] != '\r') {
      assert l != "" ==> l[|l| - 1] in l;
    }
    SplitOfJoin(lines, '\n');
    assert forall k :: 0 <= k < |lines| ==> lines[k] in lines;
  }

  // ---------- The parser ----------

  datatype Problem =
    | IncompleteFile
    | Sha512WithoutFile
    | SizeWithoutFile
    | UnsupportedLine
    | VersionNotString
    | ReleaseDateNotString
    | MissingVersion
    | MissingReleaseDate
    | MissingFiles

  datatype PartialFile = PartialFile(url: string, sha512: Option<string>, size: Option<nat>)

  datatype Progress = Progress(
    version: Option<string>, releaseDate: Option<string>, files: seq<File>, extras: map<string, Scalar>,
    inFiles: bool, currentFile: Option<PartialFile>)

  const START := Progress(None, None, [], map[], false, None)

  /** Move the open file entry, if any, to the list; it has to be complete. */
  function CloseFile(p: Progress): Result<Progress, Problem> {
    match p.currentFile
    case None => Ok(p)
    case Some(f) =>
      if f.sha512.None? || f.size.None? then Err(IncompleteFile)
      else Ok(p.(files := p.files + [File(f.url, f.sha512.value, f.size.value)], currentFile := None))
  }

  function Assign(p: Progress, key: string, value: Scalar): Result<Progress, Problem> {
    if key == "version" then
      if value.Str? then Ok(p.(version := Some(value.text))) else Err(VersionNotString)
    else if key == "releaseDate" then
      if value.Str? then Ok(p.(releaseDate := Some(value.text))) else Err(ReleaseDateNotString)
    else if key == "path" || key == "sha512" then Ok(p)
    else Ok(p.(extras := p.extras[key := value]))
  }

  function ParseTopLevel(p: Progress, line: string): Result<Progress, Problem> {
    var closed := if p.inFiles then CloseFile(p) else Ok(p);
    if closed.Err? then closed
    else
      var entry := TopLevel(line);
      if entry.None? then Err(UnsupportedLine)
      else Assign(closed.value.(inFiles := false), entry.value.0, ParseScalarValue(entry.value.1))
  }

  function OpenFile(p: Progress, text: string): Result<Progress, Problem> {
    var closed := CloseFile(p);
    if closed.Err? then closed
    else Ok(closed.value.(
              currentFile := Some(PartialFile(StripSingleQuotes(Trim(text)), None, None)), inFiles := true))
  }

  function SetSha512(p: Progress, text: string): Result<Progress, Problem> {
    if p.currentFile.None? then Err(Sha512WithoutFile)
    else Ok(p.(currentFile := Some(p.currentFile.value.(sha512 := Some(StripSingleQuotes(Trim(text)))))))
  }

  function SetSize(p: Progress, size: nat): Result<Progress, Problem> {
    if p.currentFile.None? then Err(SizeWithoutFile)
    else Ok(p.(currentFile := Some(p.currentFile.value.(size := Some(size)))))
  }

  function ParseLine(p: Progress, rawLine: string): Result<Progress, Problem> {
    var line := TrimEnd(rawLine);
    if line == "" then Ok(p)
    else if FieldText(line, URL_FIELD).Some? then OpenFile(p, FieldText(line, URL_FIELD).value)
    else if FieldText(line, SHA512_FIELD).Some? then SetSha512(p, FieldText(line, SHA512_FIELD).value)
    else if SizeField(line).Some? then SetSize(p, SizeField(line).value)
    else if line == "files:" then Ok(p.(inFiles := true))
    else ParseTopLevel(p, line)
  }

  function ParseLines(p: Progress, lines: seq<string>): Result<Progress, Problem>
    decreases |lines|
  {
    if lines == [] then Ok(p)
    else
      var next := ParseLine(p, lines[0]);
      if next.Err? then next else ParseLines(next.value, lines[1..])
  }

  function Finish(p: Progress): Result<Manifest, Problem> {
    var closed := CloseFile(p);
    if closed.Err? then Err(closed.error)
    else
      var done := closed.value;
      if done.version.None? || done.version.value == "" then Err(MissingVersion)
      else if done.releaseDate.None? || done.releaseDate.value == "" then Err(MissingReleaseDate)
      else if done.files == [] then Err(MissingFiles)
      else Ok(Manifest(done.version.value, done.releaseDate.value, done.files, done.extras))
  }

  function Parse(raw: string): Result<Manifest, Problem> {
    var read := ParseLines(START, SplitLines(raw));
    if read.Err? then Err(read.error) else Finish(read.value)
  }

  method ParseUpdateManifest(raw: string) returns (result: Result<Manifest, Problem>)
    ensures result == Parse(raw)
  {
    hide SplitLines, FieldText, SizeField, TopLevel, ParseScalarValue, StripSingleQuotes, Trim, TrimEnd;
    var lines := SplitLines(raw);
    var files: seq<File> := [];
    var extras: map<string, Scalar> := map[];
    var version, releaseDate: Option<string> := None, None;
    var inFiles := false;
    var currentFile: Option<PartialFile> := None;
    for index := 0 to |lines|
      invariant ParseLines(START, lines) ==
                ParseLines(Progress(version, releaseDate, files, extras, inFiles, currentFile), lines[index..])
    {
      ghost var before := Progress(version, releaseDate, files, extras, inFiles, currentFile);
      assert lines[index..][0] == lines[index] && lines[index..][1..] == lines[index + 1..];
      var line := TrimEnd(lines[index]);
      if line == "" {
        continue;
      }
      var url := FieldText(line, URL_FIELD);
      if url.Some? {
        if currentFile.Some? {
          var f := currentFile.value;
          if f.sha512.None? || f.size.None? {
            return Err(IncompleteFile);
          }
          files := files + [File(f.url, f.sha512.value, f.size.value)];
        }
        currentFile := Some(PartialFile(StripSingleQuotes(Trim(url.value)), None, None));
        inFiles := true;
        continue;
      }
      var sha512 := FieldText(line, SHA512_FIELD);
      if sha512.Some? {
        if currentFile.None? {
          return Err(Sha512WithoutFile);
        }
        currentFile := Some(currentFile.value.(sha512 := Some(StripSingleQuotes(Trim(sha512.value)))));
        continue;
      }
      var size := SizeField(line);
      if size.Some? {
        if currentFile.None? {
          return Err(SizeWithoutFile);
        }
        currentFile := Some(currentFile.value.(size := Some(size.value)));
        continue;
      }
      if line == "files:" {
        inFiles := true;
        continue;
      }
      if inFiles && currentFile.Some? {
        var f := currentFile.value;
        if f.sha512.None? || f.size.None? {
          return Err(IncompleteFile);
        }
        files := files + [File(f.url, f.sha512.value, f.size.value)];
        currentFile := None;
      }
      inFiles := false;
      var entry := TopLevel(line);
      if entry.None? {
        return Err(UnsupportedLine);
      }
      var (key, rawValue) := entry.value;
      var value := ParseScalarValue(rawValue);
      if key == "version" {
        if !value.Str? {
          return Err(VersionNotString);
        }
        version := Some(value.text);
        continue;
      }
      if key == "releaseDate" {
        if !value.Str? {
          return Err(ReleaseDateNotString);
        }
        releaseDate := Some(value.text);
        continue;
      }
      if key == "path" || key == "sha512" {
        continue;
      }
      extras := extras[key := value];
    }
    result := Finish(Progress(version, releaseDate, files, extras, inFiles, currentFile));
  }

  // ---------- What the parser yields ----------

  /** The keys of extras: the reserved names have a meaning of their own. */
  predicate IsExtraKey(key: string) {
    IsKey(key) && key != "version" && key != "releaseDate" && key != "path" && key != "sha512"
  }

  predicate IsExtraValue(value: Scalar) {
    IsCanonical(value) && (value.Str? ==> OneLine(value.text))
  }

  predicate AreExtras(extras: map<string, Scalar>) {
    forall key :: key in extras ==> IsExtraKey(key) && IsExtraValue(extras[key])
  }

  predicate AreFiles(files: seq<File>) {
    forall f :: f in files ==> OneLine(f.url) && OneLine(f.sha512)
  }

  predicate IsSound(p: Progress) {
    && (p.version.Some? ==> OneLine(p.version.value))
    && (p.releaseDate.Some? ==> OneLine(p.releaseDate.value))
    && AreFiles(p.files) && AreExtras(p.extras)
    && (p.currentFile.Some? ==>
        && OneLine(p.currentFile.value.url)
        && (p.currentFile.value.sha512.Some? ==> OneLine(p.currentFile.value.sha512.value)))
  }

  lemma StripKeepsOneLine(text: string)
    requires OneLine(text)
    ensures OneLine(StripSingleQuotes(Trim(text)))
  {
    TrimIsTrimmed(text);
    var t := Trim(text);
    if IsWrapped(t) && |t| >= 2 {
      assert forall c :: c in t[1..|t| - 1] ==> c in t;
    }
  }

  lemma ScalarKeepsOneLine(raw: string)
    requires OneLine(raw)
    ensures IsExtraValue(ParseScalarValue(raw))
  {
    TrimIsTrimmed(raw);
    var t := Trim(raw);
    if IsWrapped(t) && |t| >= 2 {
      assert forall c :: c in t[1..|t| - 1] ==> c in t;
    }
  }

  lemma FileKeepsSound(p: Progress, text: string)
    requires IsSound(p) && OneLine(text)
    ensures OpenFile(p, text).Ok? ==> IsSound(OpenFile(p, text).value)
    ensures SetSha512(p, text).Ok? ==> IsSound(SetSha512(p, text).value)
  {
    hide StripSingleQuotes, Trim, OneLine, AreExtras;
    StripKeepsOneLine(text);
  }

  lemma AssignKeepsSound(p: Progress, key: string, raw: string)
    requires IsSound(p) && IsKey(key) && OneLine(raw)
    ensures Assign(p, key, ParseScalarValue(raw)).Ok? ==> IsSound(Assign(p, key, ParseScalarValue(raw)).value)
  {
    hide ParseScalarValue, IsExtraValue, IsKey, OneLine;
    ScalarKeepsOneLine(raw);
    var value := ParseScalarValue(raw);
    if value.Str? {
      StrIsOneLine(value);
    }
  }

  lemma CloseKeepsSound(p: Progress)
    requires IsSound(p) && CloseFile(p).Ok?
    ensures IsSound(CloseFile(p).value)
  {
    hide OneLine, AreExtras;
  }

  lemma LineKeepsSound(p: Progress, rawLine: string)
    requires IsSound(p) && ParseLine(p, rawLine).Ok?
    ensures IsSound(ParseLine(p, rawLine).value)
  {
    var line := TrimEnd(rawLine);
    hide TrimEnd, FieldText, SizeField, TopLevel, Assign, OpenFile, SetSha512, CloseFile, OneLine, IsKey;
    if FieldText(line, URL_FIELD).Some? {
      FileKeepsSound(p, FieldText(line, URL_FIELD).value);
    } else if FieldText(line, SHA512_FIELD).Some? {
      FileKeepsSound(p, FieldText(line, SHA512_FIELD).value);
    } else if TopLevel(line).Some? {
      var (key, raw) := TopLevel(line).value;
      if p.inFiles && CloseFile(p).Ok? {
        CloseKeepsSound(p);
        AssignKeepsSound(CloseFile(p).value.(inFiles := false), key, raw);
      } else if !p.inFiles {
        AssignKeepsSound(p.(inFiles := false), key, raw);
      }
    }
  }

  lemma StrIsOneLine(value: Scalar)
    requires IsExtraValue(value) && value.Str?
    ensures OneLine(value.text)
  {
  }

  lemma {:induction false} LinesKeepSound(p: Progress, lines: seq<string>)
    requires IsSound(p) && ParseLines(p, lines).Ok?
    ensures IsSound(ParseLines(p, lines).value)
    decreases |lines|
  {
    hide ParseLine, IsSound;
    if lines == [] {
    } else {
      LineKeepsSound(p, lines[0]);
      LinesKeepSound(ParseLine(p, lines[0]).value, lines[1..]);
    }
  }

  /** What any text can be parsed to. */
  predicate IsParsed(m: Manifest) {
    && m.version != "" && OneLine(m.version) && m.releaseDate != "" && OneLine(m.releaseDate)
    && m.files != [] && AreFiles(m.files) && AreExtras(m.extras)
  }

  lemma ParseYieldsParsed(raw: string)
    requires Parse(raw).Ok?
    ensures IsParsed(Parse(raw).value)
  {
    hide ParseLines, SplitLines, AreExtras, OneLine;
    assert IsSound(START) by {
      StartIsSound();
    }
    LinesKeepSound(START, SplitLines(raw));
  }

  lemma StartIsSound()
    ensures IsSound(START)
  {
  }

  // ---------- The printer ----------

  function FileLines(files: seq<File>): seq<string> {
    if files == [] then []
    else
      [URL_FIELD + (" " + files[0].url), SHA512_FIELD + (" " + files[0].sha512),
       SIZE_FIELD + (" " + FromNat(files[0].size))]
      + FileLines(files[1..])
  }

  function TopLine(key: string, raw: string): string {
    key + (": " + raw)
  }

  function ExtraLines(extras: map<string, Scalar>, keys: seq<string>): seq<string>
    requires forall k :: k in keys ==> k in extras
  {
    if keys == [] then []
    else [TopLine(keys[0], SerializeScalarValue(extras[keys[0]]))] + ExtraLines(extras, keys[1..])
  }

  function ManifestLines(m: Manifest, keys: seq<string>): seq<string>
    requires forall k :: k in keys ==> k in m.extras
  {
    [TopLine("version", QuoteYamlString(m.version)), "files:"]
    + FileLines(m.files)
    + ExtraLines(m.extras, keys)
    + [TopLine("releaseDate", QuoteYamlString(m.releaseDate)), ""]
  }

  predicate IsSorted(keys: seq<string>) {
    forall i, j :: 0 <= i < j < |keys| ==> StringLe(keys[i], keys[j]) && keys[i] != keys[j]
  }

  /** `text` is the manifest printed with its extra keys in ascending order. */
  ghost predicate IsSerialization(m: Manifest, text: string) {
    exists keys: seq<string> ::
      && (forall k :: k in keys <==> k in m.extras) && IsSorted(keys)
      && text == Join(ManifestLines(m, keys), '\n')
  }

  lemma {:induction false} LeastExists(keys: set<string>)
    requires keys != {}
    ensures exists k :: k in keys && forall other :: other in keys ==> StringLe(k, other)
    decreases |keys|
  {
    hide StringLe;
    var some :| some in keys;
    StringLeTotal(some, some);
    if keys == {some} {
      assert forall other :: other in keys ==> StringLe(some, other);
    } else {
      LeastExists(keys - {some});
      var k :| k in keys - {some} && forall other :: other in keys - {some} ==> StringLe(k, other);
      StringLeTotal(k, some);
      if StringLe(k, some) {
        assert forall other :: other in keys ==> StringLe(k, other);
      } else {
        forall other | other in keys ensures StringLe(some, other) {
          if other != some {
            StringLeTransitive(some, k, other);
          }
        }
      }
    }
  }

  method SortKeys(keys: set<string>) returns (sorted: seq<string>)
    ensures IsSorted(sorted) && forall k :: k in sorted <==> k in keys
  {
    sorted := [];
    var rest := keys;
    while rest != {}
      invariant rest <= keys && forall k :: k in sorted <==> k in keys - rest
      invariant IsSorted(sorted)
      invariant forall k, r :: k in sorted && r in rest ==> StringLe(k, r)
    {
      LeastExists(rest);
      var least :| least in rest && forall other :: other in rest ==> StringLe(least, other);
      forall i | 0 <= i < |sorted| ensures StringLe(sorted[i], least) && sorted[i] != least {
        assert sorted[i] in sorted;
      }
      sorted := sorted + [least];
      rest := rest - {least};
    }
  }

  method PrintFiles(files: seq<File>) returns (lines: seq<string>)
    ensures lines == FileLines(files)
  {
    hide FileLines;
    lines := [];
    for i := 0 to |files|
      invariant FileLines(files) == lines + FileLines(files[i..])
    {
      FileLinesStep(files, i);
      var file := files[i];
      lines := lines + [URL_FIELD + (" " + file.url), SHA512_FIELD + (" " + file.sha512),
                        SIZE_FIELD + (" " + FromNat(file.size))];
    }
    assert files[|files|..] == [];
    FileLinesNone();
  }

  method PrintExtras(extras: map<string, Scalar>, keys: seq<string>) returns (lines: seq<string>)
    requires forall k :: k in keys ==> k in extras
    ensures lines == ExtraLines(extras, keys)
  {
    hide TopLine, SerializeScalarValue;
    lines := [];
    for i := 0 to |keys|
      invariant ExtraLines(extras, keys) == lines + ExtraLines(extras, keys[i..])
    {
      assert keys[i..][1..] == keys[i + 1..];
      var key := keys[i];
      lines := lines + [TopLine(key, SerializeScalarValue(extras[key]))];
    }
  }

  method SerializeUpdateManifest(m: Manifest) returns (text: string)
    ensures IsSerialization(m, text)
  {
    hide FileLines, ExtraLines, TopLine, QuoteYamlString, Join, IsSorted;
    var keys := SortKeys(m.extras.Keys);
    var lines := [TopLine("version", QuoteYamlString(m.version)), "files:"];
    var fileLines := PrintFiles(m.files);
    lines := lines + fileLines;
    var extraLines := PrintExtras(m.extras, keys);
    lines := lines + extraLines;
    lines := lines + [TopLine("releaseDate", QuoteYamlString(m.releaseDate)), ""];
    text := Join(lines, '\n');
  }

  lemma FileLinesStep(files: seq<File>, i: nat)
    requires i < |files|
    ensures FileLines(files[i..]) ==
            [URL_FIELD + (" " + files[i].url), SHA512_FIELD + (" " + files[i].sha512),
             SIZE_FIELD + (" " + FromNat(files[i].size))]
            + FileLines(files[i + 1..])
  {
    assert files[i..][1..] == files[i + 1..];
  }

  lemma FileLinesNone()
    ensures FileLines([]) == []
  {
  }

  // ---------- Reading printed lines back ----------

  lemma FieldsDiffer(line: string)
    ensures StartsWith(line, SHA512_FIELD) ==> !StartsWith(line, URL_FIELD)
    ensures StartsWith(line, SIZE_FIELD) ==> !StartsWith(line, URL_FIELD) && !StartsWith(line, SHA512_FIELD)
    ensures line != "" && IsLetter(line[0]) ==>
              !StartsWith(line, URL_FIELD) && !StartsWith(line, SHA512_FIELD) && !StartsWith(line, SIZE_FIELD)
  {
    if |line| >= 8 {
      assert URL_FIELD[2] == '-' && SHA512_FIELD[2] == ' ' && SIZE_FIELD[2] == ' ';
      assert SHA512_FIELD[5] == 'h' && SIZE_FIELD[5] == 'i';
      assert StartsWith(line, URL_FIELD) ==> line[2] == line[..8][2] && line[0] == line[..8][0];
      assert StartsWith(line, SHA512_FIELD) ==>
          line[2] == line[..11][2] && line[5] == line[..11][5] && line[0] == line[..11][0];
      assert StartsWith(line, SIZE_FIELD) ==>
          line[2] == line[..9][2] && line[5] == line[..9][5] && line[0] == line[..9][0];
    }
  }

  /** What is left of a field's value after reading its printed line. */
  function Reread(value: string): string {
    StripSingleQuotes(Trim(TrimEnd(value)))
  }

  /** A printed field line, after trimming, and what its pattern captures. */
  lemma PrintedField(field: string, value: string)
    requires TrimEnd(value) != ""
    ensures var line := field + (" " + TrimEnd(value));
            && TrimEnd(field + (" " + value)) == line
            && StartsWith(line, field) && TrimStart(line[|field|..]) == TrimStart(TrimEnd(value))
            && TrimStart(TrimEnd(value)) != ""
  {
    hide TrimEnd, TrimStart;
    TrimEndAppend(" ", value);
    TrimEndAppend(field, " " + value);
    var end := TrimEnd(value);
    var line := field + (" " + end);
    assert line[..|field|] == field && line[|field|..] == " " + end;
    TrimStartSpace(end);
    TrimStartKeepsLast(end);
  }

  lemma TrimStartSpace(s: string)
    ensures TrimStart(" " + s) == TrimStart(s)
  {
    assert (" " + s)[1..] == s;
  }

  lemma {:induction false} TrimStartKeepsLast(s: string)
    requires s != "" && !IsSpace(s[|s| - 1])
    ensures TrimStart(s) != ""
    decreases |s|
  {
    if !IsSpace(s[0]) {
    } else {
      TrimStartKeepsLast(s[1..]);
    }
  }

  lemma FieldTextOfPrinted(field: string, value: string)
    requires TrimEnd(value) != "" && OneLine(value)
    ensures var line := TrimEnd(field + (" " + value));
            && line != "" && StartsWith(line, field)
            && FieldText(line, field).Some? && Trim(FieldText(line, field).value) == Trim(TrimEnd(value))
  {
    hide TrimEnd, TrimStart, OneLine, StartsWith, Trim;
    PrintedField(field, value);
    TrimmedIsOneLine(value);
    TrimStartTwice(TrimEnd(value));
  }

  lemma TrimmedIsOneLine(value: string)
    requires OneLine(value)
    ensures OneLine(TrimStart(TrimEnd(value)))
  {
    var end := TrimEnd(value);
    assert forall c :: c in TrimStart(end) ==> c in end;
    assert forall c :: c in end ==> c in value;
  }

  lemma TrimStartTwice(s: string)
    ensures Trim(TrimStart(s)) == Trim(s)
  {
  }

  /** A value survives being printed as a bare field exactly when it is not blank, has no white space
      around it, and is not wrapped in single quotes. */
  predicate IsBare(value: string) {
    value != "" && IsTrimmed(value) && !IsWrapped(value)
  }

  lemma RereadIsSame(value: string)
    ensures IsBare(value) <==> TrimEnd(value) != "" && Reread(value) == value
  {
    hide Trim, CollapseQuotes;
    TrimIsTrimmed(TrimEnd(value));
    TrimIsTrimmed(value);
    var t := Trim(TrimEnd(value));
    if IsTrimmed(value) {
      TrimEndOfTrimmed(value);
    }
    assert |StripSingleQuotes(t)| <= |t| && (IsWrapped(t) ==> |StripSingleQuotes(t)| < |t|);
    if |t| == |value| {
      assert TrimEnd(value) == value;
    }
  }

  lemma TrimEndOfTrimmed(value: string)
    requires IsTrimmed(value)
    ensures TrimEnd(value) == value
  {
  }

  lemma UrlLineRead(p: Progress, url: string)
    requires OneLine(url)
    ensures TrimEnd(url) == "" ==> ParseLine(p, URL_FIELD + (" " + url)).Err?
    ensures TrimEnd(url) != "" ==>
              ParseLine(p, URL_FIELD + (" " + url)) ==
              var closed := CloseFile(p);
              if closed.Err? then closed
              else Ok(closed.value.(currentFile := Some(PartialFile(Reread(url), None, None)), inFiles := true))
  {
    hide TrimEnd, TrimStart, Trim, StripSingleQuotes;
    if TrimEnd(url) != "" {
      FieldTextOfPrinted(URL_FIELD, url);
    } else {
      BlankFieldIsRefused(p, URL_FIELD, url);
    }
  }

  lemma BlankField(field: string, value: string)
    requires field != "" && !IsSpace(field[|field| - 1]) && TrimEnd(value) == ""
    ensures TrimEnd(field + (" " + value)) == field && field[|field|..] == "" && StartsWith(field, field)
  {
    assert " "[..0] == "";
    TrimEndOfSpaces(" ", value);
    TrimEndOfSpaces(field, " " + value);
  }

  /** A line that is a bare field name followed by blanks matches none of the patterns. */
  lemma BlankFieldIsRefused(p: Progress, field: string, value: string)
    requires field in [URL_FIELD, SHA512_FIELD] && TrimEnd(value) == ""
    ensures ParseLine(p, field + (" " + value)).Err?
  {
    hide TrimEnd, CloseFile, StartsWith, FieldText, SizeField, TopLevel, Assign;
    FieldNames();
    BlankField(field, value);
    NoFieldText(field);
    assert ParseTopLevel(p, field).Err?;
  }

  lemma NoFieldText(field: string)
    requires field in [URL_FIELD, SHA512_FIELD]
    ensures FieldText(field, URL_FIELD).None? && FieldText(field, SHA512_FIELD).None?
    ensures SizeField(field).None? && TopLevel(field).None?
  {
    FieldNames();
    hide StartsWith;
    assert field[|field|..] == "" && TrimStart("") == "";
    assert !IsLetter(' ');
  }

  lemma FieldNames()
    ensures !StartsWith(URL_FIELD, SHA512_FIELD) && !StartsWith(URL_FIELD, SIZE_FIELD)
    ensures !StartsWith(SHA512_FIELD, URL_FIELD) && !StartsWith(SHA512_FIELD, SIZE_FIELD)
    ensures URL_FIELD != "files:" && SHA512_FIELD != "files:"
    ensures URL_FIELD != "" && SHA512_FIELD != "" && URL_FIELD[0] == ' ' && SHA512_FIELD[0] == ' '
    ensures !IsSpace(URL_FIELD[|URL_FIELD| - 1]) && !IsSpace(SHA512_FIELD[|SHA512_FIELD| - 1])
  {
    FieldsDiffer(URL_FIELD);
    FieldsDiffer(SHA512_FIELD);
    assert SHA512_FIELD[..8][2] == ' ' && URL_FIELD[2] == '-';
    assert SHA512_FIELD[..9][5] == 'h' && SIZE_FIELD[5] == 'i';
  }

  lemma Sha512LineRead(p: Progress, sha512: string)
    requires OneLine(sha512)
    ensures TrimEnd(sha512) == "" ==> ParseLine(p, SHA512_FIELD + (" " + sha512)).Err?
    ensures TrimEnd(sha512) != "" ==>
              ParseLine(p, SHA512_FIELD + (" " + sha512)) ==
              if p.currentFile.None? then Err(Sha512WithoutFile)
              else Ok(p.(currentFile := Some(p.currentFile.value.(sha512 := Some(Reread(sha512))))))
  {
    hide TrimEnd, TrimStart, Trim, StripSingleQuotes;
    if TrimEnd(sha512) != "" {
      FieldTextOfPrinted(SHA512_FIELD, sha512);
      FieldsDiffer(TrimEnd(SHA512_FIELD + (" " + sha512)));
    } else {
      BlankFieldIsRefused(p, SHA512_FIELD, sha512);
    }
  }

  lemma SizeLineRead(p: Progress, size: nat)
    ensures ParseLine(p, SIZE_FIELD + (" " + FromNat(size))) ==
            if p.currentFile.None? then Err(SizeWithoutFile)
            else Ok(p.(currentFile := Some(p.currentFile.value.(size := Some(size)))))
  {
    hide FromNat, ToNat, ParseLine, TrimEnd, TrimStart, AllDigits, StartsWith;
    var text := FromNat(size);
    DigitsAreTrimmed(text);
    PrintedField(SIZE_FIELD, text);
    ToNatOfFromNat(size);
    SizeFieldRead(p, SIZE_FIELD + (" " + text), text);
  }

  lemma SizeFieldRead(p: Progress, line: string, text: string)
    requires TrimEnd(line) == line && line != "" && StartsWith(line, SIZE_FIELD)
    requires TrimStart(line[|SIZE_FIELD|..]) == text && text != "" && AllDigits(text)
    ensures ParseLine(p, line) == SetSize(p, ToNat(text))
  {
    hide ToNat, TrimEnd, TrimStart, AllDigits, StartsWith;
    FieldsDiffer(line);
  }

  lemma DigitsAreTrimmed(text: string)
    requires text != "" && AllDigits(text)
    ensures TrimEnd(text) == text && TrimStart(text) == text
  {
    assert IsDigit(text[0]) && IsDigit(text[|text| - 1]);
    assert !IsSpace(text[0]) && !IsSpace(text[|text| - 1]);
  }

  lemma TopLineRead(p: Progress, key: string, raw: string)
    requires IsKey(key) && raw != "" && IsTrimmed(raw) && OneLine(raw)
    ensures ParseLine(p, TopLine(key, raw)) ==
            var closed := if p.inFiles then CloseFile(p) else Ok(p);
            if closed.Err? then closed else Assign(closed.value.(inFiles := false), key, ParseScalarValue(raw))
  {
    hide ParseScalarValue, Assign, CloseFile, TrimEnd, TrimStart, StartsWith, TopLevel, IsKey;
    TopLineShape(key, raw);
    FieldsDiffer(TopLine(key, raw));
    TopLevelOfTopLine(key, raw);
  }

  lemma TopLineShape(key: string, raw: string)
    requires IsKey(key) && raw != "" && IsTrimmed(raw)
    ensures var line := TopLine(key, raw);
            TrimEnd(line) == line && line != "" && IsLetter(line[0]) && line != "files:"
  {
    TrimEndOfTrimmed(raw);
    TrimEndAppend(": ", raw);
    TrimEndAppend(key, ": " + raw);
    var line := TopLine(key, raw);
    assert line[|key| + 1] == ' ';
    assert ' ' !in "files:";
  }

  lemma TopLevelOfTopLine(key: string, raw: string)
    requires IsKey(key) && raw != "" && IsTrimmed(raw) && OneLine(raw)
    ensures TopLevel(TopLine(key, raw)) == Some((key, raw))
  {
    hide TrimStart, OneLine;
    var line := TopLine(key, raw);
    assert line[0] == key[0] && line[|key|] == ':';
    assert forall k :: 0 <= k < |key| ==> line[k] == key[k];
    KeyEndIs(line, 1, |key|);
    assert line[..|key|] == key;
    assert line[|key| + 1..] == " " + raw;
    TrimStartSpace(raw);
  }

  lemma {:induction false} KeyEndIs(line: string, i: nat, j: nat)
    requires i <= j <= |line| && forall k :: i <= k < j ==> IsLetter(line[k]) || IsDigit(line[k])
    requires j < |line| ==> !IsLetter(line[j]) && !IsDigit(line[j])
    ensures KeyEnd(line, i) == j
    decreases j - i
  {
    if i == j {
    } else {
      KeyEndIs(line, i + 1, j);
    }
  }

  // ---------- Reading a whole printed manifest back ----------

  lemma {:induction false} LinesAppend(p: Progress, a: seq<string>, b: seq<string>)
    ensures ParseLines(p, a + b) ==
            var first := ParseLines(p, a); if first.Err? then first else ParseLines(first.value, b)
    decreases |a|
  {
    hide ParseLine;
    if a == [] {
      assert a + b == b;
    } else {
      assert (a + b)[1..] == a[1..] + b;
      if ParseLine(p, a[0]).Ok? {
        LinesAppend(ParseLine(p, a[0]).value, a[1..], b);
      }
    }
  }

  /** The open file entry, if any, is complete, and entries are only open inside the file list. */
  predicate IsReady(p: Progress) {
    CloseFile(p).Ok? && (p.currentFile.Some? ==> p.inFiles)
  }

  function RereadFile(f: File): File {
    File(Reread(f.url), Reread(f.sha512), f.size)
  }

  function RereadFiles(files: seq<File>): seq<File> {
    if files == [] then [] else [RereadFile(files[0])] + RereadFiles(files[1..])
  }

  predicate IsLegible(f: File) {
    TrimEnd(f.url) != "" && TrimEnd(f.sha512) != ""
  }

  predicate AreLegible(files: seq<File>) {
    forall f :: f in files ==> IsLegible(f)
  }

  lemma FileRead(p: Progress, f: File)
    requires IsReady(p) && OneLine(f.url) && OneLine(f.sha512)
    ensures var lines := [URL_FIELD + (" " + f.url), SHA512_FIELD + (" " + f.sha512),
                          SIZE_FIELD + (" " + FromNat(f.size))];
            var r := ParseLines(p, lines);
            if IsLegible(f)
            then r.Ok? && IsReady(r.value) && r.value.inFiles
                 && CloseFile(r.value) ==
                    Ok(CloseFile(p).value.(files := CloseFile(p).value.files + [RereadFile(f)], inFiles := true))
            else r.Err?
  {
    hide ParseLine, OneLine, Reread, TrimEnd, FromNat;
    var l1, l2, l3 := URL_FIELD + (" " + f.url), SHA512_FIELD + (" " + f.sha512), SIZE_FIELD + (" " + FromNat(f.size));
    UrlLineRead(p, f.url);
    if TrimEnd(f.url) != "" {
      var p1 := ParseLine(p, l1).value;
      Sha512LineRead(p1, f.sha512);
      if TrimEnd(f.sha512) != "" {
        SizeLineRead(ParseLine(p1, l2).value, f.size);
      }
    }
    ThreeLines(p, l1, l2, l3);
  }

  lemma ThreeLines(p: Progress, a: string, b: string, c: string)
    ensures ParseLines(p, [a, b, c]) ==
            var r1 := ParseLine(p, a); if r1.Err? then r1 else
            var r2 := ParseLine(r1.value, b); if r2.Err? then r2 else ParseLine(r2.value, c)
  {
    hide ParseLine;
    assert [a, b, c][1..] == [b, c] && [b, c][1..] == [c] && [c][1..] == [];
    assert forall q :: ParseLines(q, [c]) == ParseLine(q, c);
  }

  lemma {:induction false} FilesRead(p: Progress, files: seq<File>)
    requires IsReady(p) && p.inFiles && AreFiles(files)
    ensures var r := ParseLines(p, FileLines(files));
            if AreLegible(files)
            then r.Ok? && IsReady(r.value) && r.value.inFiles
                 && CloseFile(r.value) ==
                    Ok(CloseFile(p).value.(files := CloseFile(p).value.files + RereadFiles(files)))
            else r.Err?
    decreases |files|
  {
    hide ParseLine, OneLine, RereadFile, IsLegible, FromNat;
    if files == [] {
      assert CloseFile(p).value.files + [] == CloseFile(p).value.files;
    } else {
      var f, rest := files[0], files[1..];
      var lines := [URL_FIELD + (" " + f.url), SHA512_FIELD + (" " + f.sha512),
                          SIZE_FIELD + (" " + FromNat(f.size))];
      FileRead(p, f);
      LinesAppend(p, lines, FileLines(rest));
      assert forall g :: g in files <==> g == f || g in rest;
      if IsLegible(f) {
        var q := ParseLines(p, lines).value;
        FilesRead(q, rest);
        var before := CloseFile(p).value.files;
        assert before + ([RereadFile(f)] + RereadFiles(rest)) == before + [RereadFile(f)] + RereadFiles(rest);
      }
    }
  }

  function AddExtras(base: map<string, Scalar>, extras: map<string, Scalar>, keys: seq<string>): map<string, Scalar>
    requires forall k :: k in keys ==> k in extras
    decreases |keys|
  {
    if keys == [] then base else AddExtras(base[keys[0] := extras[keys[0]]], extras, keys[1..])
  }

  lemma {:induction false} AddExtrasMeaning(base: map<string, Scalar>, extras: map<string, Scalar>, keys: seq<string>)
    requires forall k :: k in keys ==> k in extras
    ensures var r := AddExtras(base, extras, keys);
            && (forall k :: k in r <==> k in base || k in keys)
            && (forall k :: k in r ==> r[k] == if k in keys then extras[k] else base[k])
    decreases |keys|
  {
    if keys == [] {
    } else {
      AddExtrasMeaning(base[keys[0] := extras[keys[0]]], extras, keys[1..]);
      assert forall k :: k in keys <==> k == keys[0] || k in keys[1..];
    }
  }

  lemma {:induction false} QuotedIsOneLine(s: string)
    requires OneLine(s)
    ensures OneLine(QuoteYamlString(s))
  {
    DoubledChars(s);
  }

  lemma {:induction false} DoubledChars(s: string)
    ensures forall c :: c in DoubleQuotes(s) ==> c in s || c == '\''
  {
    if s == "" {
    } else {
      DoubledChars(s[1..]);
    }
  }

  lemma DigitsAreOneLine(s: string)
    requires AllDigits(s)
    ensures OneLine(s)
  {
    assert forall c :: c in s ==> IsDigit(c);
  }

  lemma PrintedScalarIsOneLine(value: Scalar)
    requires IsExtraValue(value)
    ensures OneLine(SerializeScalarValue(value))
  {
    hide FromNat, QuoteYamlString;
    match value {
      case Str(text) => QuotedIsOneLine(text);
      case Num(_, whole, fraction) =>
        DigitsAreOneLine(FromNat(whole));
        DigitsAreOneLine(fraction);
      case Bool(_) =>
    }
  }

  lemma ExtraRead(p: Progress, key: string, value: Scalar)
    requires IsReady(p) && IsExtraKey(key) && IsExtraValue(value)
    ensures ParseLine(p, TopLine(key, SerializeScalarValue(value))) ==
            Ok(CloseFile(p).value.(inFiles := false, extras := p.extras[key := value]))
  {
    hide ParseLine, SerializeScalarValue, ParseScalarValue, IsKey, OneLine;
    PrintedScalarIsOneLine(value);
    ParsePrintedScalar(value);
    TopLineRead(p, key, SerializeScalarValue(value));
  }

  lemma {:induction false} ExtrasRead(p: Progress, extras: map<string, Scalar>, keys: seq<string>)
    requires IsReady(p) && AreExtras(extras) && forall k :: k in keys ==> k in extras
    ensures var r := ParseLines(p, ExtraLines(extras, keys));
            && r.Ok? && IsReady(r.value)
            && CloseFile(r.value) ==
               Ok(CloseFile(p).value.(extras := AddExtras(p.extras, extras, keys), inFiles := p.inFiles && keys == []))
    decreases |keys|
  {
    hide ParseLine, IsExtraKey, IsExtraValue, SerializeScalarValue, TopLine;
    if keys == [] {
    } else {
      var key := keys[0];
      ExtraRead(p, key, extras[key]);
      ExtrasRead(ParseLine(p, TopLine(key, SerializeScalarValue(extras[key]))).value, extras, keys[1..]);
    }
  }

  lemma PlainLinesRead(p: Progress)
    ensures ParseLine(p, "files:") == Ok(p.(inFiles := true))
    ensures ParseLine(p, "") == Ok(p)
  {
    assert "files:"[|"files:"| - 1] == ':' && "files:"[0] == 'f';
    FieldsDiffer("files:");
  }

  lemma NamedLinesRead(p: Progress, text: string)
    requires IsReady(p) && OneLine(text)
    ensures ParseLine(p, TopLine("version", QuoteYamlString(text))) ==
            Ok(CloseFile(p).value.(inFiles := false, version := Some(text)))
    ensures ParseLine(p, TopLine("releaseDate", QuoteYamlString(text))) ==
            Ok(CloseFile(p).value.(inFiles := false, releaseDate := Some(text)))
  {
    hide ParseLine, QuoteYamlString, ParseScalarValue, OneLine;
    QuotedIsOneLine(text);
    ParsePrintedString(text);
    assert IsKey("version") && IsKey("releaseDate");
    TopLineRead(p, "version", QuoteYamlString(text));
    TopLineRead(p, "releaseDate", QuoteYamlString(text));
  }

  lemma HeadRead(version: string)
    requires OneLine(version)
    ensures ParseLines(START, [TopLine("version", QuoteYamlString(version)), "files:"]) ==
            Ok(START.(version := Some(version), inFiles := true))
  {
    hide ParseLine, ParseLines, OneLine, TopLine, QuoteYamlString;
    NamedLinesRead(START, version);
    PlainLinesRead(START.(version := Some(version)));
    TwoLines(START, TopLine("version", QuoteYamlString(version)), "files:");
  }

  lemma TailRead(p: Progress, releaseDate: string)
    requires IsReady(p) && OneLine(releaseDate)
    ensures ParseLines(p, [TopLine("releaseDate", QuoteYamlString(releaseDate)), ""]) ==
            Ok(CloseFile(p).value.(inFiles := false, releaseDate := Some(releaseDate)))
  {
    hide ParseLine, ParseLines, OneLine, TopLine, QuoteYamlString;
    NamedLinesRead(p, releaseDate);
    PlainLinesRead(CloseFile(p).value.(inFiles := false, releaseDate := Some(releaseDate)));
    TwoLines(p, TopLine("releaseDate", QuoteYamlString(releaseDate)), "");
  }

  /** Files, extras and the end, read after the head. */
  lemma BodyRead(p: Progress, m: Manifest, keys: seq<string>)
    requires IsParsed(m) && forall k :: k in keys <==> k in m.extras
    requires p == START.(version := Some(m.version), inFiles := true)
    ensures var r := ParseLines(p, FileLines(m.files) + ExtraLines(m.extras, keys));
            if AreLegible(m.files)
            then r.Ok? && IsReady(r.value) && CloseFile(r.value).value.(inFiles := false) ==
                 p.(files := RereadFiles(m.files), extras := m.extras, inFiles := false)
            else r.Err?
  {
    hide ParseLine, ParseLines, OneLine, FileLines, ExtraLines, AreLegible, AreExtras, AreFiles, RereadFiles, AddExtras;
    LinesAppend(p, FileLines(m.files), ExtraLines(m.extras, keys));
    FilesRead(p, m.files);
    if AreLegible(m.files) {
      var q := ParseLines(p, FileLines(m.files)).value;
      assert [] + RereadFiles(m.files) == RereadFiles(m.files);
      ExtrasRead(q, m.extras, keys);
      AddExtrasMeaning(map[], m.extras, keys);
      assert AddExtras(map[], m.extras, keys) == m.extras;
    }
  }

  /** Reading the printed lines: a blank file field is refused, and otherwise everything comes back,
      with file fields trimmed and unquoted. */
  lemma ManifestLinesRead(m: Manifest, keys: seq<string>)
    requires IsParsed(m) && forall k :: k in keys <==> k in m.extras
    ensures var r := ParseLines(START, ManifestLines(m, keys));
            if AreLegible(m.files)
            then r.Ok? && Finish(r.value) == Ok(m.(files := RereadFiles(m.files)))
            else r.Err?
  {
    hide ParseLine, ParseLines, OneLine, TopLine, QuoteYamlString, FileLines, ExtraLines;
    hide AreLegible, AreExtras, AreFiles;
    hide RereadFiles;
    var head := [TopLine("version", QuoteYamlString(m.version)), "files:"];
    var body := FileLines(m.files) + ExtraLines(m.extras, keys);
    var tail := [TopLine("releaseDate", QuoteYamlString(m.releaseDate)), ""];
    assert ManifestLines(m, keys) == head + body + tail;
    var p1 := START.(version := Some(m.version), inFiles := true);
    HeadRead(m.version);
    LinesAppend(START, head + body, tail);
    LinesAppend(START, head, body);
    BodyRead(p1, m, keys);
    if AreLegible(m.files) {
      TailRead(ParseLines(p1, body).value, m.releaseDate);
      RereadFilesLength(m.files);
    }
  }

  lemma TwoLines(p: Progress, a: string, b: string)
    ensures ParseLines(p, [a, b]) ==
            var r1 := ParseLine(p, a); if r1.Err? then r1 else ParseLine(r1.value, b)
  {
    hide ParseLine;
    assert [a, b][1..] == [b] && [b][1..] == [];
    assert forall q :: ParseLines(q, [b]) == ParseLine(q, b);
  }

  lemma {:induction false} RereadFilesLength(files: seq<File>)
    ensures |RereadFiles(files)| == |files|
    ensures forall i :: 0 <= i < |files| ==> RereadFiles(files)[i] == RereadFile(files[i])
    decreases |files|
  {
    hide RereadFile;
    if files == [] {
    } else {
      RereadFilesLength(files[1..]);
    }
  }

  lemma {:induction false} PrintedFilesAreOneLine(files: seq<File>)
    requires AreFiles(files)
    ensures forall l :: l in FileLines(files) ==> OneLine(l)
    decreases |files|
  {
    if files == [] {
    } else {
      PrintedFilesAreOneLine(files[1..]);
      PrintedFileIsOneLine(files[0]);
    }
  }

  lemma PrintedFileIsOneLine(f: File)
    requires OneLine(f.url) && OneLine(f.sha512)
    ensures OneLine(URL_FIELD + (" " + f.url)) && OneLine(SHA512_FIELD + (" " + f.sha512))
    ensures OneLine(SIZE_FIELD + (" " + FromNat(f.size)))
  {
    DigitsAreOneLine(FromNat(f.size));
  }

  lemma {:induction false} PrintedExtrasAreOneLine(extras: map<string, Scalar>, keys: seq<string>)
    requires AreExtras(extras) && forall k :: k in keys ==> k in extras
    ensures forall l :: l in ExtraLines(extras, keys) ==> OneLine(l)
    decreases |keys|
  {
    if keys == [] {
    } else {
      PrintedExtrasAreOneLine(extras, keys[1..]);
      PrintedScalarIsOneLine(extras[keys[0]]);
      TopLineIsOneLine(keys[0], SerializeScalarValue(extras[keys[0]]));
    }
  }

  lemma TopLineIsOneLine(key: string, raw: string)
    requires IsKey(key) && OneLine(raw)
    ensures OneLine(TopLine(key, raw))
  {
  }

  lemma ManifestLinesAreOneLine(m: Manifest, keys: seq<string>)
    requires IsParsed(m) && forall k :: k in keys ==> k in m.extras
    ensures forall l :: l in ManifestLines(m, keys) ==> OneLine(l)
  {
    hide FileLines, ExtraLines, TopLine, QuoteYamlString, OneLine;
    PrintedFilesAreOneLine(m.files);
    PrintedExtrasAreOneLine(m.extras, keys);
    QuotedIsOneLine(m.version);
    QuotedIsOneLine(m.releaseDate);
    assert IsKey("version") && IsKey("releaseDate");
    TopLineIsOneLine("version", QuoteYamlString(m.version));
    TopLineIsOneLine("releaseDate", QuoteYamlString(m.releaseDate));
    assert OneLine("files:") && OneLine("") by {
      PlainLinesAreOneLine();
    }
  }

  lemma PlainLinesAreOneLine()
    ensures OneLine("files:") && OneLine("")
  {
  }

  /** The manifests that survive printing: what a parse can yield, with bare file fields. */
  predicate IsWellFormed(m: Manifest) {
    IsParsed(m) && forall f :: f in m.files ==> IsBare(f.url) && IsBare(f.sha512)
  }

  /** A manifest is read back from its serialization exactly when it is well formed. */
  lemma SerializeThenParse(m: Manifest, text: string)
    requires IsSerialization(m, text)
    ensures Parse(text) == Ok(m) <==> IsWellFormed(m)
  {
    hide ParseLines, ManifestLines, IsSorted, IsParsed, IsBare, Finish;
    if Parse(text) == Ok(m) {
      ParseYieldsParsed(text);
    }
    assert IsWellFormed(m) ==> IsParsed(m);
    if IsParsed(m) {
      var keys: seq<string> :|
        (forall k :: k in keys <==> k in m.extras) && IsSorted(keys) && text == Join(ManifestLines(m, keys), '\n');
      ManifestLinesAreOneLine(m, keys);
      ManifestLinesNonEmpty(m, keys);
      SplitLinesOfJoin(ManifestLines(m, keys));
      ManifestLinesRead(m, keys);
      FilesSurvive(m.files);
    }
  }

  lemma ManifestLinesNonEmpty(m: Manifest, keys: seq<string>)
    requires forall k :: k in keys ==> k in m.extras
    ensures ManifestLines(m, keys) != []
  {
  }

  lemma FilesSurvive(files: seq<File>)
    ensures AreLegible(files) && RereadFiles(files) == files <==>
            forall f :: f in files ==> IsBare(f.url) && IsBare(f.sha512)
  {
    hide IsBare, Reread, TrimEnd;
    RereadFilesLength(files);
    forall f | f in files
      ensures IsBare(f.url) && IsBare(f.sha512) <==> IsLegible(f) && RereadFile(f) == f
    {
      RereadIsSame(f.url);
      RereadIsSame(f.sha512);
    }
    if forall f :: f in files ==> IsBare(f.url) && IsBare(f.sha512) {
      forall i | 0 <= i < |files| ensures RereadFiles(files)[i] == files[i] {
        assert files[i] in files;
      }
    }
    if AreLegible(files) && RereadFiles(files) == files {
      forall f | f in files ensures IsBare(f.url) && IsBare(f.sha512) {
        var i :| 0 <= i < |files| && files[i] == f;
      }
    }
  }
}

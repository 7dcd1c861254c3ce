/** The shortcut codec of apps/server/src/keybindings.ts: parsing a key string such as
    `mod+shift+p`, its canonical encoding, and the shortcut context two rules may share. */
module Shortcuts {
  import opened Wrappers
  import opened Text

  datatype Shortcut = Shortcut(
    key: string, metaKey: bool, ctrlKey: bool, shiftKey: bool, altKey: bool, modKey: bool)

  /** What a token names: one of the modifiers, or a key. */
  datatype Kind = Meta | Ctrl | Shift | Alt | Mod | Key

  function KindOf(token: string): Kind {
    match token
    case "cmd" => Meta
    case "meta" => Meta
    case "ctrl" => Ctrl
    case "control" => Ctrl
    case "shift" => Shift
    case "alt" => Alt
    case "option" => Alt
    case "mod" => Mod
    case _ => Key
  }

  function NormalizeKeyToken(token: string): string {
    if token == "space" then " " else if token == "esc" then "escape" else token
  }

  // ---------- Parsing ----------

  function DropTrailingEmpty(tokens: seq<string>): seq<string> {
    if tokens != [] && tokens[|tokens| - 1] == "" then DropTrailingEmpty(tokens[..|tokens| - 1]) else tokens
  }

  function TrimAll(tokens: seq<string>): (r: seq<string>)
    ensures |r| == |tokens| && forall k :: 0 <= k < |tokens| ==> r[k] == Trim(tokens[k])
  {
    seq(|tokens|, k requires 0 <= k < |tokens| => Trim(tokens[k]))
  }

  /** The pieces between the pluses; empty pieces at the end stand for one `+` key. */
  function Tokens(value: string): seq<string> {
    var raw := TrimAll(SplitOn(ToLower(value), '+'));
    var kept := DropTrailingEmpty(raw);
    if |kept| < |raw| then kept + ["+"] else kept
  }

  /** What the loop over the tokens has seen so far. */
  datatype Seen = Seen(
    key: Option<string>, metaKey: bool, ctrlKey: bool, shiftKey: bool, altKey: bool, modKey: bool)

  const NOTHING_SEEN := Seen(None, false, false, false, false, false)

  function See(token: string, seen: Seen): Option<Seen> {
    match KindOf(token)
    case Meta => Some(seen.(metaKey := true))
    case Ctrl => Some(seen.(ctrlKey := true))
    case Shift => Some(seen.(shiftKey := true))
    case Alt => Some(seen.(altKey := true))
    case Mod => Some(seen.(modKey := true))
    case Key => if seen.key.Some? then None else Some(seen.(key := Some(NormalizeKeyToken(token))))
  }

  function SeeAll(tokens: seq<string>, seen: Seen): Option<Seen> {
    if tokens == [] then Some(seen)
    else
      var next := See(tokens[0], seen);
      if next.None? then None else SeeAll(tokens[1..], next.value)
  }

  function FromTokens(tokens: seq<string>): Option<Shortcut> {
    if "" in tokens || tokens == [] then None
    else
      var seen := SeeAll(tokens, NOTHING_SEEN);
      if seen.None? || seen.value.key.None? then None
      else
        var s := seen.value;
        Some(Shortcut(s.key.value, s.metaKey, s.ctrlKey, s.shiftKey, s.altKey, s.modKey))
  }

  function ParseShortcut(value: string): Option<Shortcut> {
    FromTokens(Tokens(value))
  }

  /** The token list of a key string: empty pieces are popped off the end, and one `+` stands for them. */
  method SplitTokens(value: string) returns (tokens: seq<string>)
    ensures tokens == Tokens(value)
  {
    hide TrimAll, SplitOn, ToLower;
    var rawTokens := TrimAll(SplitOn(ToLower(value), '+'));
    tokens := rawTokens;
    var trailingEmptyCount := 0;
    while tokens != [] && tokens[|tokens| - 1] == ""
      invariant DropTrailingEmpty(tokens) == DropTrailingEmpty(rawTokens)
      invariant |tokens| + trailingEmptyCount == |rawTokens|
    {
      trailingEmptyCount := trailingEmptyCount + 1;
      tokens := tokens[..|tokens| - 1];
    }
    if trailingEmptyCount > 0 {
      tokens := tokens + ["+"];
    }
  }

  method ParseKeybindingShortcut(value: string) returns (result: Option<Shortcut>)
    ensures result == ParseShortcut(value)
  {
    hide KindOf, NormalizeKeyToken, Tokens;
    var tokens := SplitTokens(value);
    if "" in tokens || tokens == [] {
      return None;
    }
    var key: Option<string> := None;
    var metaKey, ctrlKey, shiftKey, altKey, modKey := false, false, false, false, false;
    for i := 0 to |tokens|
      invariant SeeAll(tokens, NOTHING_SEEN) ==
                SeeAll(tokens[i..], Seen(key, metaKey, ctrlKey, shiftKey, altKey, modKey))
    {
      var token := tokens[i];
      assert tokens[i..][1..] == tokens[i + 1..];
      match KindOf(token) {
        case Meta => metaKey := true;
        case Ctrl => ctrlKey := true;
        case Shift => shiftKey := true;
        case Alt => altKey := true;
        case Mod => modKey := true;
        case Key =>
          if key.Some? {
            return None;
          }
          key := Some(NormalizeKeyToken(token));
      }
    }
    if key.None? {
      return None;
    }
    return Some(Shortcut(key.value, metaKey, ctrlKey, shiftKey, altKey, modKey));
  }

  predicate Names(tokens: seq<string>, kind: Kind) {
    exists t :: t in tokens && KindOf(t) == kind
  }

  lemma NamesNothing()
    ensures forall kind :: !Names([], kind)
  {
  }

  lemma NamesFirst(tokens: seq<string>)
    requires tokens != []
    ensures forall kind :: Names(tokens, kind) <==> KindOf(tokens[0]) == kind || Names(tokens[1..], kind)
  {
    assert forall t :: t in tokens <==> t == tokens[0] || t in tokens[1..];
  }

  lemma {:induction false} SeeAllFlags(tokens: seq<string>, seen: Seen)
    requires SeeAll(tokens, seen).Some?
    ensures var r := SeeAll(tokens, seen).value;
            && (r.metaKey <==> seen.metaKey || Names(tokens, Meta))
            && (r.ctrlKey <==> seen.ctrlKey || Names(tokens, Ctrl))
            && (r.shiftKey <==> seen.shiftKey || Names(tokens, Shift))
            && (r.altKey <==> seen.altKey || Names(tokens, Alt))
            && (r.modKey <==> seen.modKey || Names(tokens, Mod))
    decreases |tokens|
  {
    hide KindOf, Names;
    if tokens == [] {
      assert forall kind :: !Names(tokens, kind) by {
        NamesNothing();
      }
    } else {
      NamesFirst(tokens);
      SeeAllFlags(tokens[1..], See(tokens[0], seen).value);
    }
  }

  predicate AllModifiers(tokens: seq<string>) {
    forall k :: 0 <= k < |tokens| ==> KindOf(tokens[k]) != Key
  }

  /** Modifiers alone never fail and name no key; once a key was seen, only modifiers may follow. */
  lemma {:induction false} SeeAllModifiers(tokens: seq<string>, seen: Seen)
    ensures AllModifiers(tokens) ==> SeeAll(tokens, seen).Some? && SeeAll(tokens, seen).value.key == seen.key
    ensures seen.key.Some? && SeeAll(tokens, seen).Some? ==> AllModifiers(tokens)
    decreases |tokens|
  {
    hide KindOf;
    if tokens == [] {
    } else {
      var next := See(tokens[0], seen);
      if next.Some? {
        SeeAllModifiers(tokens[1..], next.value);
        assert forall k :: 0 < k < |tokens| ==> tokens[k] == tokens[1..][k - 1];
      }
    }
  }

  /** With one key token after modifiers, success means only modifiers follow it. */
  lemma {:induction false} SeeAllKey(tokens: seq<string>, seen: Seen, k: nat)
    requires k < |tokens| && KindOf(tokens[k]) == Key && seen.key.None? && AllModifiers(tokens[..k])
    ensures SeeAll(tokens, seen).Some? <==> AllModifiers(tokens[k + 1..])
    ensures SeeAll(tokens, seen).Some? ==> SeeAll(tokens, seen).value.key == Some(NormalizeKeyToken(tokens[k]))
    decreases |tokens|
  {
    hide KindOf, NormalizeKeyToken;
    var next := See(tokens[0], seen);
    if k == 0 {
      SeeAllModifiers(tokens[1..], next.value);
    } else {
      assert tokens[0] == tokens[..k][0];
      assert tokens[1..][..k - 1] == tokens[..k][1..];
      assert tokens[1..][k..] == tokens[k + 1..];
      SeeAllKey(tokens[1..], next.value, k - 1);
    }
  }

  /** Exactly one token names a key, no token is empty, and every flag says whether a token named it. */
  ghost predicate Describes(tokens: seq<string>, k: nat, s: Shortcut) {
    && k < |tokens| && KindOf(tokens[k]) == Key
    && AllModifiers(tokens[..k]) && AllModifiers(tokens[k + 1..])
    && "" !in tokens
    && s == Shortcut(
              NormalizeKeyToken(tokens[k]), Names(tokens, Meta), Names(tokens, Ctrl),
              Names(tokens, Shift), Names(tokens, Alt), Names(tokens, Mod))
  }

  function FirstKey(tokens: seq<string>): (k: nat)
    ensures k <= |tokens| && AllModifiers(tokens[..k])
    ensures k < |tokens| ==> KindOf(tokens[k]) == Key
  {
    if tokens == [] || KindOf(tokens[0]) == Key then 0
    else
      var k := FirstKey(tokens[1..]);
      assert tokens[..k + 1] == [tokens[0]] + tokens[1..][..k];
      k + 1
  }

  lemma FromTokensByKind(tokens: seq<string>, s: Shortcut)
    ensures FromTokens(tokens) == Some(s) <==> exists k: nat :: Describes(tokens, k, s)
  {
    hide KindOf, NormalizeKeyToken, SeeAll;
    if FromTokens(tokens) == Some(s) {
      var k := FirstKey(tokens);
      SeeAllFlags(tokens, NOTHING_SEEN);
      if k == |tokens| {
        assert tokens[..k] == tokens;
        SeeAllModifiers(tokens, NOTHING_SEEN);
      } else {
        SeeAllKey(tokens, NOTHING_SEEN, k);
      }
      assert Describes(tokens, k, s);
    }
    if k: nat :| Describes(tokens, k, s) {
      SeeAllKey(tokens, NOTHING_SEEN, k);
      SeeAllFlags(tokens, NOTHING_SEEN);
    }
  }

  /** The words that name modifiers; every other token names a key. */
  const MODIFIER_WORDS: set<string> := {"cmd", "meta", "ctrl", "control", "shift", "alt", "option", "mod"}

  /** Token `k` names the key, all others are modifier words, and every flag tells which of them occur. */
  ghost predicate Spells(tokens: seq<string>, k: nat, s: Shortcut) {
    && k < |tokens| && tokens[k] !in MODIFIER_WORDS && "" !in tokens
    && (forall j :: 0 <= j < |tokens| && j != k ==> tokens[j] in MODIFIER_WORDS)
    && s.key == (if tokens[k] == "space" then " " else if tokens[k] == "esc" then "escape" else tokens[k])
    && (s.metaKey <==> "cmd" in tokens || "meta" in tokens)
    && (s.ctrlKey <==> "ctrl" in tokens || "control" in tokens)
    && (s.shiftKey <==> "shift" in tokens)
    && (s.altKey <==> "alt" in tokens || "option" in tokens)
    && (s.modKey <==> "mod" in tokens)
  }

  lemma KindWords(token: string)
    ensures KindOf(token) == Key <==> token !in MODIFIER_WORDS
    ensures KindOf(token) == Meta <==> token == "cmd" || token == "meta"
    ensures KindOf(token) == Ctrl <==> token == "ctrl" || token == "control"
    ensures KindOf(token) == Shift <==> token == "shift"
    ensures KindOf(token) == Alt <==> token == "alt" || token == "option"
    ensures KindOf(token) == Mod <==> token == "mod"
  {
  }

  lemma NamesWords(tokens: seq<string>)
    ensures Names(tokens, Meta) <==> "cmd" in tokens || "meta" in tokens
    ensures Names(tokens, Ctrl) <==> "ctrl" in tokens || "control" in tokens
    ensures Names(tokens, Shift) <==> "shift" in tokens
    ensures Names(tokens, Alt) <==> "alt" in tokens || "option" in tokens
    ensures Names(tokens, Mod) <==> "mod" in tokens
  {
    forall t ensures KindOf(t) == Meta <==> t == "cmd" || t == "meta"
             ensures KindOf(t) == Ctrl <==> t == "ctrl" || t == "control"
             ensures KindOf(t) == Shift <==> t == "shift"
             ensures KindOf(t) == Alt <==> t == "alt" || t == "option"
             ensures KindOf(t) == Mod <==> t == "mod"
    {
      KindWords(t);
    }
    hide KindOf;
  }

  /** Tokens are read as a shortcut exactly when they spell it; their order does not matter. */
  lemma FromTokensMeaning(tokens: seq<string>, s: Shortcut)
    ensures FromTokens(tokens) == Some(s) <==> exists k: nat :: Spells(tokens, k, s)
  {
    FromTokensByKind(tokens, s);
    NamesWords(tokens);
    forall k: nat | k < |tokens|
      ensures Describes(tokens, k, s) <==> Spells(tokens, k, s)
    {
      forall j | 0 <= j < |tokens| ensures KindOf(tokens[j]) == Key <==> tokens[j] !in MODIFIER_WORDS {
        KindWords(tokens[j]);
      }
      hide KindOf, Names, MODIFIER_WORDS;
      assert forall j :: 0 <= j < k ==> tokens[..k][j] == tokens[j];
      assert forall j :: k < j < |tokens| ==> tokens[k + 1..][j - k - 1] == tokens[j];
    }
    hide KindOf, Names, FromTokens;
  }

  /** The tokens are the trimmed lower-case pieces between the pluses; empty ones at the end stand for
      one `+` key. */
  ghost predicate AreTokens(raw: seq<string>, n: nat, tokens: seq<string>) {
    && n <= |raw| && (forall k :: n <= k < |raw| ==> raw[k] == "") && (n == 0 || raw[n - 1] != "")
    && tokens == raw[..n] + if n < |raw| then ["+"] else []
  }

  lemma TokensMeaning(value: string)
    ensures exists n: nat :: AreTokens(TrimAll(SplitOn(ToLower(value), '+')), n, Tokens(value))
  {
    hide TrimAll, SplitOn, ToLower, DropTrailingEmpty, AreTokens;
    var raw := TrimAll(SplitOn(ToLower(value), '+'));
    KeptAreTokens(raw);
    var n: nat := |DropTrailingEmpty(raw)|;
    assert AreTokens(raw, n, Tokens(value));
  }

  lemma KeptAreTokens(raw: seq<string>)
    ensures var kept := DropTrailingEmpty(raw);
            AreTokens(raw, |kept|, if |kept| < |raw| then kept + ["+"] else kept)
  {
    hide DropTrailingEmpty;
    KeptTokens(raw);
    var kept := DropTrailingEmpty(raw);
    assert kept + [] == kept;
  }

  lemma {:induction false} KeptTokens(raw: seq<string>)
    ensures var kept := DropTrailingEmpty(raw);
            && |kept| <= |raw| && kept == raw[..|kept|] && (kept == [] || kept[|kept| - 1] != "")
            && forall k :: |kept| <= k < |raw| ==> raw[k] == ""
    decreases |raw|
  {
    if raw == [] || raw[|raw| - 1] != "" {
    } else {
      KeptTokens(raw[..|raw| - 1]);
    }
  }

  // ---------- Encoding ----------

  function CanonicalName(kind: Kind): string
    requires kind != Key
  {
    match kind
    case Mod => "mod"
    case Meta => "meta"
    case Ctrl => "ctrl"
    case Alt => "alt"
    case Shift => "shift"
  }

  function Modifier(pressed: bool, kind: Kind): seq<string>
    requires kind != Key
  {
    if pressed then [CanonicalName(kind)] else []
  }

  function Modifiers(s: Shortcut): seq<string> {
    Modifier(s.modKey, Mod) + Modifier(s.metaKey, Meta) + Modifier(s.ctrlKey, Ctrl)
    + Modifier(s.altKey, Alt) + Modifier(s.shiftKey, Shift)
  }

  function KeyToken(key: string): string {
    if key == " " then "space" else key
  }

  function EncodeShortcut(s: Shortcut): Option<string> {
    if s.key == "" then None
    else if s.key != "+" && '+' in s.key then None
    else Some(Join(Modifiers(s) + [KeyToken(s.key)], '+'))
  }

  /** A piece that survives lower-casing, splitting and trimming as it is. */
  predicate IsClean(t: string) {
    t != "" && IsTrimmed(t) && IsLower(t) && '+' !in t
  }

  /** The keys the parser can produce. */
  predicate IsParsedKey(key: string) {
    || key == " "
    || key == "+"
    || (IsClean(key) && KindOf(key) == Key && key != "space" && key != "esc")
  }

  lemma {:induction false} DropTrailingEmptyPrefix(tokens: seq<string>)
    ensures DropTrailingEmpty(tokens) <= tokens
    decreases |tokens|
  {
    if tokens == [] || tokens[|tokens| - 1] != "" {
    } else {
      DropTrailingEmptyPrefix(tokens[..|tokens| - 1]);
    }
  }

  predicate CharsFrom(t: string, value: string) {
    forall c :: c in t ==> c in value || 'a' <= c <= 'z'
  }

  lemma TokensAreClean(value: string)
    ensures forall t :: t in Tokens(value) ==> t == "" || t == "+" || (IsClean(t) && CharsFrom(t, value))
  {
    hide Trim, SplitOn, ToLower, IsTrimmed, IsLower, DropTrailingEmpty;
    var pieces := SplitOn(ToLower(value), '+');
    var raw := TrimAll(pieces);
    SplitPieces(ToLower(value), '+');
    ToLowerIsLower(value);
    forall k | 0 <= k < |raw| && raw[k] != ""
      ensures IsClean(raw[k]) && CharsFrom(raw[k], value)
    {
      assert pieces[k] in pieces;
      TrimIsTrimmed(pieces[k]);
      PieceIsLower(ToLower(value), pieces[k], raw[k]);
    }
    DropTrailingEmptyPrefix(raw);
  }

  lemma PieceIsLower(lower: string, piece: string, t: string)
    requires IsLower(lower) && (forall c :: c in piece ==> c in lower) && (forall c :: c in t ==> c in piece)
    ensures IsLower(t)
  {
  }

  lemma NormalizedIsParsed(token: string)
    requires token == "+" || IsClean(token)
    requires KindOf(token) == Key
    ensures IsParsedKey(NormalizeKeyToken(token))
    ensures forall c :: c in NormalizeKeyToken(token) ==> c in token || c == ' ' || 'a' <= c <= 'z'
  {
    if token == "esc" {
      assert NormalizeKeyToken(token) == "escape";
      assert KindOf("escape") == Key;
      assert "escape" != "esc" && "escape" != "space" by {
        assert |"escape"| == 6;
      }
      LettersAreClean("escape");
    }
  }

  lemma LettersAreClean(t: string)
    requires t != "" && forall c :: c in t ==> 'a' <= c <= 'z'
    ensures IsClean(t)
  {
    assert t[0] in t && t[|t| - 1] in t;
  }

  lemma ParsedKeys(value: string)
    requires ParseShortcut(value).Some?
    ensures IsParsedKey(ParseShortcut(value).value.key)
    ensures forall c :: c in ParseShortcut(value).value.key ==> c in value || c == ' ' || c == '+' || 'a' <= c <= 'z'
  {
    hide KindOf, NormalizeKeyToken, Tokens, FromTokens, IsParsedKey, IsClean;
    var tokens := Tokens(value);
    var s := ParseShortcut(value).value;
    FromTokensByKind(tokens, s);
    var k: nat :| Describes(tokens, k, s);
    TokensAreClean(value);
    assert tokens[k] in tokens;
    NormalizedIsParsed(tokens[k]);
  }

  lemma {:induction false} JoinPlusKey(parts: seq<string>)
    ensures Join(parts + ["+"], '+') == Join(parts + ["", ""], '+')
    decreases |parts|
  {
    if parts == [] {
      assert Join(["", ""], '+') == "" + ['+'] + Join([""], '+');
    } else {
      JoinPlusKey(parts[1..]);
      assert (parts + ["+"])[1..] == parts[1..] + ["+"];
      assert (parts + ["", ""])[1..] == parts[1..] + ["", ""];
    }
  }

  lemma CanonicalNames(kind: Kind)
    requires kind != Key
    ensures KindOf(CanonicalName(kind)) == kind
    ensures forall c :: c in CanonicalName(kind) ==> 'a' <= c <= 'z'
    ensures IsClean(CanonicalName(kind))
  {
    LettersAreClean(CanonicalName(kind));
  }

  predicate Pressed(s: Shortcut, kind: Kind) {
    match kind
    case Mod => s.modKey
    case Meta => s.metaKey
    case Ctrl => s.ctrlKey
    case Alt => s.altKey
    case Shift => s.shiftKey
    case Key => false
  }

  lemma ModifiersMeaning(s: Shortcut)
    ensures forall t :: t in Modifiers(s) ==> KindOf(t) != Key && IsClean(t) && forall c :: c in t ==> 'a' <= c <= 'z'
    ensures forall kind :: kind != Key ==> (Names(Modifiers(s), kind) <==> Pressed(s, kind))
  {
    hide KindOf, CanonicalName, IsClean, Modifiers;
    CanonicalNames(Mod);
    CanonicalNames(Meta);
    CanonicalNames(Ctrl);
    CanonicalNames(Alt);
    CanonicalNames(Shift);
    ModifierMembers(s);
  }

  lemma ModifierMembers(s: Shortcut)
    ensures forall t :: t in Modifiers(s) <==>
              || (s.modKey && t == CanonicalName(Mod)) || (s.metaKey && t == CanonicalName(Meta))
              || (s.ctrlKey && t == CanonicalName(Ctrl)) || (s.altKey && t == CanonicalName(Alt))
              || (s.shiftKey && t == CanonicalName(Shift))
  {
    hide CanonicalName;
  }

  lemma DropNothing(tokens: seq<string>)
    requires forall t :: t in tokens ==> t != ""
    ensures DropTrailingEmpty(tokens) == tokens
  {
    assert tokens != [] ==> tokens[|tokens| - 1] in tokens;
  }

  lemma DropTwo(tokens: seq<string>)
    requires forall t :: t in tokens ==> t != ""
    ensures DropTrailingEmpty(tokens + ["", ""]) == tokens
  {
    assert (tokens + ["", ""])[..|tokens| + 1] == tokens + [""];
    assert (tokens + [""])[..|tokens|] == tokens;
    DropNothing(tokens);
  }

  /** The pieces of an encoding, as the parser sees them again. */
  lemma TokensOfEncoding(mods: seq<string>, key: string)
    requires forall t :: t in mods ==> IsClean(t)
    requires key == "+" || IsClean(key)
    ensures Tokens(Join(mods + [key], '+')) == mods + [key]
  {
    hide SplitOn, Join, DropTrailingEmpty, ToLower, Trim, IsClean;
    EncodingIsLower(mods, key);
    var pieces := if key == "+" then mods + ["", ""] else mods + [key];
    assert pieces != [];
    PiecesOfEncoding(mods, key, pieces);
    if key == "+" {
      DropTwo(mods);
    } else {
      DropNothing(pieces);
    }
  }

  lemma EncodingIsLower(mods: seq<string>, key: string)
    requires forall t :: t in mods ==> IsClean(t)
    requires key == "+" || IsClean(key)
    ensures ToLower(Join(mods + [key], '+')) == Join(mods + [key], '+')
    ensures (forall t :: t in mods ==> t != "") && key != ""
  {
    var e := Join(mods + [key], '+');
    JoinChars(mods + [key], '+');
    ToLowerIsLower(e);
    assert IsLower(e);
  }

  lemma PiecesOfEncoding(mods: seq<string>, key: string, pieces: seq<string>)
    requires forall t :: t in mods ==> IsClean(t)
    requires key == "+" || IsClean(key)
    requires pieces == if key == "+" then mods + ["", ""] else mods + [key]
    ensures TrimAll(SplitOn(Join(mods + [key], '+'), '+')) == pieces
  {
    hide SplitOn, Join, Trim, IsClean;
    if key == "+" {
      JoinPlusKey(mods);
    }
    forall t | t in pieces ensures '+' !in t && Trim(t) == t {
      CleanStays(t);
    }
    SplitOfJoin(pieces, '+');
    assert forall k :: 0 <= k < |pieces| ==> pieces[k] in pieces;
    assert TrimAll(pieces) == pieces;
  }

  lemma CleanStays(t: string)
    requires t == "" || IsClean(t)
    ensures Trim(t) == t && '+' !in t
  {
    TrimIsTrimmed(t);
  }

  lemma KeyTokenNormalizes(key: string)
    requires IsParsedKey(key)
    ensures KeyToken(key) == "+" || IsClean(KeyToken(key))
    ensures KeyToken(key) != "" && KindOf(KeyToken(key)) == Key && NormalizeKeyToken(KeyToken(key)) == key
    ensures key != "" && (key == "+" || '+' !in key)
  {
    if key == " " {
      LettersAreClean("space");
    }
  }

  /** A shortcut encodes and parses back to itself exactly when its key is one the parser makes. */
  lemma EncodeThenParse(s: Shortcut)
    ensures IsParsedKey(s.key) <==>
            EncodeShortcut(s).Some? && ParseShortcut(EncodeShortcut(s).value) == Some(s)
  {
    hide KindOf, IsClean, IsParsedKey, KeyToken, NormalizeKeyToken, Tokens, FromTokens, Modifiers;
    if IsParsedKey(s.key) {
      var mods := Modifiers(s);
      var key := KeyToken(s.key);
      var tokens := mods + [key];
      KeyTokenNormalizes(s.key);
      ModifiersMeaning(s);
      TokensOfEncoding(mods, key);
      DescribesEncoding(s, tokens);
      FromTokensByKind(tokens, s);
    } else if EncodeShortcut(s).Some? && ParseShortcut(EncodeShortcut(s).value) == Some(s) {
      ParsedKeys(EncodeShortcut(s).value);
    }
  }

  lemma DescribesEncoding(s: Shortcut, tokens: seq<string>)
    requires IsParsedKey(s.key) && tokens == Modifiers(s) + [KeyToken(s.key)]
    ensures Describes(tokens, |tokens| - 1, s)
  {
    hide KindOf, IsClean, IsParsedKey, KeyToken, NormalizeKeyToken, Modifiers;
    var mods := Modifiers(s);
    KeyTokenNormalizes(s.key);
    ModifiersMeaning(s);
    assert tokens[..|mods|] == mods && tokens[|mods| + 1..] == [];
    forall kind | kind != Key ensures Names(tokens, kind) <==> Names(mods, kind) {
      assert forall t :: t in mods ==> t in tokens;
    }
    assert forall k :: 0 <= k < |mods| ==> mods[k] in mods;
    assert "" !in mods by {
      EmptyIsNotClean();
    }
  }

  lemma EmptyIsNotClean()
    ensures !IsClean("")
  {
  }

  /** Whatever the parser accepts has an encoding, and the encoding is the same shortcut again. */
  lemma ParseThenEncode(value: string)
    requires ParseShortcut(value).Some?
    ensures var e := EncodeShortcut(ParseShortcut(value).value);
            e.Some? && e.value != "" && ParseShortcut(e.value) == ParseShortcut(value)
  {
    hide ParseShortcut;
    var s := ParseShortcut(value).value;
    ParsedKeys(value);
    EncodeThenParse(s);
    KeyTokenNormalizes(s.key);
    JoinLast(Modifiers(s), KeyToken(s.key));
  }

  lemma {:induction false} JoinLast(parts: seq<string>, last: string)
    requires last != ""
    ensures Join(parts + [last], '+') != ""
  {
    if parts != [] {
      assert (parts + [last])[1..] == parts[1..] + [last];
    }
  }

  /** Different parsed shortcuts have different encodings. */
  lemma EncodingInjective(v: string, w: string)
    requires ParseShortcut(v).Some? && ParseShortcut(w).Some?
    requires EncodeShortcut(ParseShortcut(v).value) == EncodeShortcut(ParseShortcut(w).value)
    ensures ParseShortcut(v) == ParseShortcut(w)
  {
    ParseThenEncode(v);
    ParseThenEncode(w);
  }

  /** A parsed key is no longer than the text it was parsed from, or short anyway. */
  lemma ParsedKeyLength(value: string)
    requires ParseShortcut(value).Some?
    ensures |ParseShortcut(value).value.key| <= |value| || |ParseShortcut(value).value.key| <= 6
  {
    hide Tokens, FromTokens, NormalizeKeyToken;
    var tokens, key := Tokens(value), ParseShortcut(value).value.key;
    TokenLengths(value);
    KeyIsToken(tokens, ParseShortcut(value).value);
    var t :| t in tokens && key == NormalizeKeyToken(t);
    NormalizedLength(t);
  }

  lemma KeyIsToken(tokens: seq<string>, s: Shortcut)
    requires FromTokens(tokens) == Some(s)
    ensures exists t :: t in tokens && s.key == NormalizeKeyToken(t)
  {
    FromTokensByKind(tokens, s);
    hide FromTokens, KindOf, NormalizeKeyToken, AllModifiers, Names;
    var k: nat :| Describes(tokens, k, s);
    assert tokens[k] in tokens;
  }

  lemma NormalizedLength(t: string)
    ensures |NormalizeKeyToken(t)| <= |t| || |NormalizeKeyToken(t)| <= 6
  {
  }

  lemma TokenLengths(value: string)
    ensures forall t :: t in Tokens(value) ==> |t| <= |value| || t == "+"
  {
    hide DropTrailingEmpty, Trim, SplitOn, ToLower, TrimAll;
    var pieces := SplitOn(ToLower(value), '+');
    var raw := TrimAll(pieces);
    SplitLengths(ToLower(value), '+');
    forall k | 0 <= k < |raw| ensures |raw[k]| <= |value| {
      assert pieces[k] in pieces;
      TrimIsTrimmed(pieces[k]);
    }
    DropTrailingEmptyPrefix(raw);
    var kept := DropTrailingEmpty(raw);
    assert forall t :: t in Tokens(value) ==> t in kept || t == "+";
    forall t | t in kept ensures |t| <= |value| {
      var k :| 0 <= k < |kept| && kept[k] == t;
      assert kept[k] == raw[k];
    }
  }

  /** Of the keys the parser can produce, only the space key has white space around it. */
  lemma ParsedKeyIsTrimmed(key: string)
    requires IsParsedKey(key)
    ensures key != "" && (IsTrimmed(key) <==> key != " ")
  {
    hide KindOf, IsLower;
    assert key == " " ==> IsSpace(key[0]);
    assert key == "+" ==> !IsSpace(key[0]);
  }

  lemma JoinFirst(first: string, rest: seq<string>)
    requires rest != []
    ensures Join([first] + rest, '+') == first + "+" + Join(rest, '+')
  {
    assert ([first] + rest)[1..] == rest;
  }

  lemma AllModifiersPressed(key: string)
    ensures Modifiers(Shortcut(key, true, true, true, true, true)) ==
            ["mod"] + (["meta"] + (["ctrl"] + (["alt"] + ["shift"])))
  {
  }

  /** Modifiers are printed under their first names and in one fixed order. */
  lemma EncodingOrder(key: string)
    requires IsParsedKey(key)
    ensures EncodeShortcut(Shortcut(key, true, true, true, true, true)) ==
            Some("mod+" + ("meta+" + ("ctrl+" + ("alt+" + ("shift+" + if key == " " then "space" else key)))))
  {
    KeyTokenNormalizes(key);
    AllModifiersPressed(key);
    hide IsParsedKey, Modifiers, Join, IsClean, KindOf;
    var last := [KeyToken(key)];
    JoinFirst("shift", last);
    JoinFirst("alt", ["shift"] + last);
    JoinFirst("ctrl", ["alt"] + (["shift"] + last));
    JoinFirst("meta", ["ctrl"] + (["alt"] + (["shift"] + last)));
    JoinFirst("mod", ["meta"] + (["ctrl"] + (["alt"] + (["shift"] + last))));
    assert Join(last, '+') == KeyToken(key) by { JoinOne(KeyToken(key)); }
    Regroup(last);
    Suffixes(KeyToken(key));
  }

  lemma JoinOne(s: string)
    ensures Join([s], '+') == s
  {
  }

  lemma Regroup(last: seq<string>)
    ensures ["mod"] + (["meta"] + (["ctrl"] + (["alt"] + ["shift"]))) + last ==
            ["mod"] + (["meta"] + (["ctrl"] + (["alt"] + (["shift"] + last))))
  {
  }

  lemma Suffixes(t: string)
    ensures "mod" + "+" + ("meta" + "+" + ("ctrl" + "+" + ("alt" + "+" + ("shift" + "+" + t)))) ==
            "mod+" + ("meta+" + ("ctrl+" + ("alt+" + ("shift+" + t))))
  {
    assert "mod" + "+" == "mod+" && "meta" + "+" == "meta+" && "ctrl" + "+" == "ctrl+";
    assert "alt" + "+" == "alt+" && "shift" + "+" == "shift+";
  }

  // ---------- Shortcut context ----------

  const NUL: char := 0 as char

  datatype Rule = Rule(key: string, command: string, when: Option<string>)

  function WhenText(rule: Rule): string {
    if rule.when.None? then "" else rule.when.value
  }

  function KeybindingShortcutContext(rule: Rule): Option<string> {
    var parsed := ParseShortcut(rule.key);
    if parsed.None? then None
    else
      var encoded := EncodeShortcut(parsed.value);
      if encoded.None? || encoded.value == "" then None
      else Some(encoded.value + [NUL] + WhenText(rule))
  }

  predicate HasSameShortcutContext(left: Rule, right: Rule) {
    var l, r := KeybindingShortcutContext(left), KeybindingShortcutContext(right);
    if l.None? || r.None? || l.value == "" || r.value == "" then false else l == r
  }

  /** Both keys parse, to the same shortcut, and the `when` texts agree. */
  predicate AgreeOnContext(left: Rule, right: Rule) {
    && ParseShortcut(left.key).Some?
    && ParseShortcut(left.key) == ParseShortcut(right.key)
    && WhenText(left) == WhenText(right)
  }

  /** The encoding of the right key goes on, after a NUL, where that of the left one ends, and the
      left `when` text starts with what it goes on with. */
  predicate Shadows(left: Rule, right: Rule) {
    && ParseShortcut(left.key).Some? && ParseShortcut(right.key).Some?
    && var l, r := EncodeShortcut(ParseShortcut(left.key).value), EncodeShortcut(ParseShortcut(right.key).value);
       && l.Some? && r.Some? && GoesOn(l.value, WhenText(left), r.value, WhenText(right))
  }

  predicate GoesOn(l: string, v: string, r: string, w: string) {
    |l| < |r| && r[..|l| + 1] == l + [NUL] && v == r[|l| + 1..] + [NUL] + w
  }

  lemma JoinedAlike(l: string, v: string, r: string, w: string)
    requires |l| <= |r|
    ensures l + [NUL] + v == r + [NUL] + w <==> (l == r && v == w) || GoesOn(l, v, r, w)
  {
    var x, y := l + [NUL] + v, r + [NUL] + w;
    if |l| == |r| {
      assert x[..|l|] == l && y[..|l|] == r && x[|l| + 1..] == v && y[|l| + 1..] == w;
    } else {
      assert x[..|l| + 1] == l + [NUL] && x[|l| + 1..] == v;
      assert y[..|l| + 1] == r[..|l| + 1] && y[|l| + 1..] == r[|l| + 1..] + [NUL] + w;
      assert x == x[..|l| + 1] + x[|l| + 1..] && y == y[..|l| + 1] + y[|l| + 1..];
    }
  }

  /** Two rules share a context when they agree on it, and otherwise exactly when one shadows the
      other; so the two notions coincide for a pair of rules unless one shadows the other. */
  lemma ContextMeaning(left: Rule, right: Rule)
    ensures HasSameShortcutContext(left, right) <==>
            AgreeOnContext(left, right) || Shadows(left, right) || Shadows(right, left)
    ensures (HasSameShortcutContext(left, right) <==> AgreeOnContext(left, right)) <==>
            !Shadows(left, right) && !Shadows(right, left)
  {
    hide ParseShortcut, EncodeShortcut, GoesOn;
    if ParseShortcut(left.key).Some? && ParseShortcut(right.key).Some? {
      ParseThenEncode(left.key);
      ParseThenEncode(right.key);
      var l := EncodeShortcut(ParseShortcut(left.key).value).value;
      var r := EncodeShortcut(ParseShortcut(right.key).value).value;
      if l == r {
        EncodingInjective(left.key, right.key);
      }
      ContextsAlike(l, WhenText(left), r, WhenText(right));
    }
  }

  lemma ContextsAlike(l: string, v: string, r: string, w: string)
    ensures l + [NUL] + v == r + [NUL] + w <==> (l == r && v == w) || GoesOn(l, v, r, w) || GoesOn(r, w, l, v)
    ensures GoesOn(l, v, r, w) || GoesOn(r, w, l, v) ==> l != r
  {
    if |l| <= |r| {
      JoinedAlike(l, v, r, w);
    } else {
      JoinedAlike(r, w, l, v);
    }
  }

  /** Shadowing needs a NUL in the `when` text. */
  lemma ShadowsByNul(left: Rule, right: Rule)
    ensures Shadows(left, right) ==> NUL in WhenText(left)
  {
    hide ParseShortcut, EncodeShortcut;
    if Shadows(left, right) {
      var l := EncodeShortcut(ParseShortcut(left.key).value).value;
      var r := EncodeShortcut(ParseShortcut(right.key).value).value;
      var rest := r[|l| + 1..];
      assert WhenText(left)[|rest|] == NUL;
    }
  }

  /** Rules with different shortcuts can share a context; only rules that do not compile do. */
  lemma NulConfusesContexts()
    ensures exists left, right ::
              && Shadows(left, right) && HasSameShortcutContext(left, right)
              && ParseShortcut(left.key) != ParseShortcut(right.key)
  {
    hide ParseShortcut;
    var ab := "a" + [NUL] + "b";
    var left := Rule("a", "y", Some("b" + [NUL]));
    var right := Rule(ab, "x", None);
    var l := Shortcut("a", false, false, false, false, false);
    var r := Shortcut(ab, false, false, false, false, false);
    assert |ab| == 3 && ab[0] == 'a' && ab[1] == NUL && ab[2] == 'b';
    assert IsParsedKey(ab) && IsParsedKey("a");
    assert Modifiers(l) + ["a"] == ["a"] && Modifiers(r) + [ab] == [ab];
    EncodeThenParse(l);
    EncodeThenParse(r);
    assert ab[..2] == "a" + [NUL] && ab[2..] == "b";
    assert Shadows(left, right);
    assert ParseShortcut(left.key) != ParseShortcut(right.key);
    ContextMeaning(left, right);
  }
}

/** The default keybindings of apps/server/src/keybindings.ts: they all compile, and a startup sync
    of a full file can make the next one write again. */
module DefaultKeybindings {
  import opened Wrappers
  import opened Shortcuts
  import opened KeybindingStore
  import Text
  import WhenExpressions

  const TERMINAL: Option<string> := Some("terminalFocus")
  const NOT_TERMINAL: Option<string> := Some("!terminalFocus")
  const PREVIEW: Option<string> := Some("previewFocus")
  const MODEL_PICKER: Option<string> := Some("modelPickerOpen")

  /** The key string of mod, perhaps shift, and one character. */
  function ModKey(c: char, shift: bool): string {
    (if shift then "mod+shift+" else "mod+") + [c]
  }

  /** `mod+1` to `mod+9` for the nine commands of a jump list. */
  function Jumps(prefix: string, when: Option<string>): seq<Rule> {
    seq(9, i requires 0 <= i < 9 =>
      Rule(ModKey(Text.DigitOf(i + 1), false), prefix + [Text.DigitOf(i + 1)], when))
  }

  const LISTED: seq<Rule> := [
    Rule(ModKey('j', false), "terminal.toggle", None),
    Rule(ModKey('d', false), "terminal.split", TERMINAL),
    Rule(ModKey('n', false), "terminal.new", TERMINAL),
    Rule(ModKey('w', false), "terminal.close", TERMINAL),
    Rule(ModKey('d', false), "diff.toggle", NOT_TERMINAL),
    Rule(ModKey('j', true), "preview.toggle", None),
    Rule(ModKey('r', false), "preview.refresh", PREVIEW),
    Rule(ModKey('l', false), "preview.focusUrl", PREVIEW),
    Rule(ModKey('=', false), "preview.zoomIn", PREVIEW),
    Rule(ModKey('+', false), "preview.zoomIn", PREVIEW),
    Rule(ModKey('-', false), "preview.zoomOut", PREVIEW),
    Rule(ModKey('0', false), "preview.resetZoom", PREVIEW),
    Rule(ModKey('k', false), "commandPalette.toggle", NOT_TERMINAL),
    Rule(ModKey('b', false), "sidebar.toggle", NOT_TERMINAL),
    Rule(ModKey('f', false), "chat.find", NOT_TERMINAL),
    Rule(ModKey('n', false), "chat.new", NOT_TERMINAL),
    Rule(ModKey('o', true), "chat.new", NOT_TERMINAL),
    Rule(ModKey('n', true), "chat.newLocal", NOT_TERMINAL),
    Rule(ModKey('m', true), "modelPicker.toggle", NOT_TERMINAL),
    Rule(ModKey('o', false), "editor.openFavorite", None),
    Rule(ModKey('[', true), "thread.previous", None),
    Rule(ModKey(']', true), "thread.next", None)
  ]

  const DEFAULT_KEYBINDINGS: seq<Rule> :=
    LISTED + Jumps("thread.jump.", None) + Jumps("modelPicker.jump.", MODEL_PICKER)

  // ---------- the defaults compile ----------

  /** The keys of the defaults, besides `+`. */
  predicate IsPlainKey(c: char) {
    'a' <= c <= 'z' || '0' <= c <= '9' || c in "=-[]"
  }

  lemma PlainKeyIsParsed(c: char)
    requires IsPlainKey(c) || c == '+'
    ensures IsParsedKey([c]) && KeyToken([c]) == [c] && IsKeybindingValue([c])
  {
    assert [c][0] == c;
  }

  /** Mod, perhaps shift, and the key. */
  function Pressed(c: char, shift: bool): Shortcut {
    Shortcut([c], false, false, shift, false, true)
  }

  lemma KeyEncodes(c: char, shift: bool)
    requires IsPlainKey(c) || c == '+'
    ensures EncodeShortcut(Pressed(c, shift)) == Some(ModKey(c, shift))
  {
    PlainKeyIsParsed(c);
    assert Modifiers(Pressed(c, shift)) == if shift then ["mod", "shift"] else ["mod"];
    hide Modifiers, KeyToken, Text.Join;
    assert ["mod"] + [[c]] == ["mod", [c]] && ["mod", "shift"] + [[c]] == ["mod", "shift", [c]];
    JoinTwo("mod", [c]);
    JoinThree("mod", "shift", [c]);
    KeySpelled(c);
    assert '+' in [c] ==> [c] == "+";
  }

  lemma KeySpelled(c: char)
    ensures ModKey(c, false) == "mod" + "+" + [c] && ModKey(c, true) == "mod" + "+" + "shift" + "+" + [c]
  {
    assert "mod" + "+" == "mod+" && "mod" + "+" + "shift" + "+" == "mod+shift+";
  }

  lemma KeyParses(c: char, shift: bool)
    requires IsPlainKey(c) || c == '+'
    ensures ParseShortcut(ModKey(c, shift)) == Some(Pressed(c, shift))
  {
    hide IsParsedKey, EncodeShortcut, ParseShortcut, ModKey, IsPlainKey;
    KeyEncodes(c, shift);
    PlainKeyIsParsed(c);
    EncodeThenParse(Pressed(c, shift));
  }

  lemma JoinTwo(a: string, b: string)
    ensures Text.Join([a, b], '+') == a + "+" + b
  {
    assert [a, b][1..] == [b];
  }

  lemma JoinThree(a: string, b: string, c: string)
    ensures Text.Join([a, b, c], '+') == a + "+" + b + "+" + c
  {
    assert [a, b, c][1..] == [b, c];
    JoinTwo(b, c);
  }

  lemma NameParses(name: string)
    requires WhenExpressions.IsIdentifier(name)
    ensures WhenExpressions.ParseWhen(name) == Some(WhenExpressions.Name(name))
    ensures WhenExpressions.ParseWhen("!" + name) == Some(WhenExpressions.Negation(WhenExpressions.Name(name)))
  {
    hide WhenExpressions.ParseWhen, WhenExpressions.Lex, WhenExpressions.IsIdentifier;
    var token := WhenExpressions.Identifier(name);
    var n := WhenExpressions.Name(name);
    LexOfName(name);
    assert WhenExpressions.IsOr([token], 0, 1, n, 0);
    WhenExpressions.ParserMatchesGrammar(name, n);
    var tokens := [WhenExpressions.Not, token];
    assert WhenExpressions.IsUnary(tokens, 1, 2, n, 0, 1);
    assert WhenExpressions.IsOr(tokens, 0, 2, WhenExpressions.Negation(n), 0);
    WhenExpressions.ParserMatchesGrammar("!" + name, WhenExpressions.Negation(n));
  }

  lemma LexOfName(name: string)
    requires WhenExpressions.IsIdentifier(name)
    ensures WhenExpressions.Lex(name, 0) == Some([WhenExpressions.Identifier(name)])
    ensures WhenExpressions.Lex("!" + name, 0) == Some([WhenExpressions.Not, WhenExpressions.Identifier(name)])
  {
    hide WhenExpressions.Lex, WhenExpressions.IsIdentifier;
    var token := WhenExpressions.Identifier(name);
    WhenExpressions.LexAtEnd(name);
    WhenExpressions.LexName(name, 0, name);
    assert [token] + [] == [token];
    var s := "!" + name;
    WhenExpressions.LexAtEnd(s);
    WhenExpressions.LexSymbol(s, 0, WhenExpressions.Not);
    WhenExpressions.LexName(s, 1, name);
    WhenExpressions.ReadsThen(s, 0, [WhenExpressions.Not], 1, [token], |s|);
    var tokens := [WhenExpressions.Not, token];
    assert [WhenExpressions.Not] + [token] == tokens && tokens + [] == tokens;
  }

  lemma WhensAreNames()
    ensures WhenExpressions.IsIdentifier("terminalFocus")
    ensures WhenExpressions.IsIdentifier("previewFocus")
    ensures WhenExpressions.IsIdentifier("modelPickerOpen")
    ensures "!terminalFocus" == "!" + "terminalFocus"
  {
  }

  predicate IsDefaultWhen(when: Option<string>) {
    when == None || when == TERMINAL || when == NOT_TERMINAL || when == PREVIEW || when == MODEL_PICKER
  }

  lemma WhensParse(when: Option<string>)
    requires IsDefaultWhen(when)
    ensures when.Some? ==> WhenExpressions.ParseWhen(when.value).Some?
  {
    hide WhenExpressions.ParseWhen, WhenExpressions.IsIdentifier;
    WhensAreNames();
    NameParses("terminalFocus");
    NameParses("previewFocus");
    NameParses("modelPickerOpen");
  }

  /** The shape of every default. */
  ghost predicate IsDefaultLike(d: Rule) {
    && IsDefaultWhen(d.when)
    && exists c, shift :: (IsPlainKey(c) || c == '+') && d.key == ModKey(c, shift)
  }

  lemma DefaultLikeCompiles(d: Rule)
    requires IsDefaultLike(d)
    ensures CompileRule(d).Some? && ParseShortcut(d.key).value.modKey
  {
    hide ParseShortcut, WhenExpressions.ParseWhen, ModKey, IsPlainKey, IsDefaultWhen;
    var c, shift :| (IsPlainKey(c) || c == '+') && d.key == ModKey(c, shift);
    PlainKeyIsParsed(c);
    KeyParses(c, shift);
    WhensParse(d.when);
  }

  lemma ListedAreLike()
    ensures forall k :: 0 <= k < |LISTED| ==> IsDefaultLike(LISTED[k])
  {
    hide ModKey;
  }

  lemma JumpsAreLike(prefix: string, when: Option<string>)
    requires IsDefaultWhen(when)
    ensures forall d :: d in Jumps(prefix, when) ==> IsDefaultLike(d)
  {
    hide ModKey;
  }

  /** All defaults compile, with a mod key. */
  lemma DefaultsCompile()
    ensures |DEFAULT_KEYBINDINGS| == 40
    ensures forall d :: d in DEFAULT_KEYBINDINGS ==> CompileRule(d).Some? && ParseShortcut(d.key).value.modKey
  {
    ListedAreLike();
    JumpsAreLike("thread.jump.", None);
    JumpsAreLike("modelPicker.jump.", MODEL_PICKER);
    assert |LISTED| == 22;
    hide LISTED, CompileRule, ParseShortcut, IsDefaultLike;
    forall d | d in DEFAULT_KEYBINDINGS
      ensures CompileRule(d).Some? && ParseShortcut(d.key).value.modKey
    {
      DefaultLikeCompiles(d);
    }
  }

  // ---------- startup syncs with the defaults ----------

  /** With the defaults of the source: a sync that writes keeps the rules of the user in front
      exactly when it does not truncate, and the next sync writes nothing exactly when every
      default that the dropped front covered is still covered by the rest. */
  lemma SyncWithDefaults(file: File)
    requires file.Entries? && SyncWrites(DEFAULT_KEYBINDINGS, file).Some?
    ensures var all, t := Everything(DEFAULT_KEYBINDINGS, file), DroppedCount(DEFAULT_KEYBINDINGS, file);
            && SyncWrites(DEFAULT_KEYBINDINGS, file) == Some(all[t..])
            && (LoadedRules(file) <= all[t..] <==> t == 0)
            && (SyncWrites(DEFAULT_KEYBINDINGS, Entries(EntriesOf(all[t..]))) == None <==>
                forall d :: d in DEFAULT_KEYBINDINGS && Covers(all[..t], d) ==> Covers(all[t..], d))
  {
    DefaultsCompile();
    hide DEFAULT_KEYBINDINGS, CompileRule, ParseShortcut, MissingDefaults, SyncWrites, Covers, UsableRules;
    SyncKeepsUserRulesExactly(DEFAULT_KEYBINDINGS, file);
    SyncRepeatsExactly(DEFAULT_KEYBINDINGS, file);
    UsableRulesCompile(file.entries);
    var all, t := Everything(DEFAULT_KEYBINDINGS, file), DroppedCount(DEFAULT_KEYBINDINGS, file);
    assert forall r :: r in all[t..] ==> r in all;
  }

  const TOGGLE_TERMINAL := Rule(ModKey('j', false), "terminal.toggle", None)
  const TOGGLE_PALETTE := Rule(ModKey('k', false), "commandPalette.toggle", NOT_TERMINAL)

  lemma TwoDefaults()
    ensures TOGGLE_TERMINAL in DEFAULT_KEYBINDINGS && TOGGLE_PALETTE in DEFAULT_KEYBINDINGS
    ensures forall d :: d in DEFAULT_KEYBINDINGS && |d.command| == 21 ==> d == TOGGLE_PALETTE
    ensures |TOGGLE_TERMINAL.command| == 15 && |TOGGLE_PALETTE.command| == 21
  {
    hide ModKey;
    assert LISTED[0] == TOGGLE_TERMINAL && LISTED[12] == TOGGLE_PALETTE;
    assert forall k :: 0 <= k < |LISTED| && k != 12 ==> |LISTED[k].command| != 21;
    assert forall d :: d in Jumps("thread.jump.", None) ==> |d.command| == 13;
    assert forall d :: d in Jumps("modelPicker.jump.", MODEL_PICKER) ==> |d.command| == 18;
  }

  /** The command of a project script. */
  const SCRIPT := "script.a.run"

  /** A rule that puts a command on a plain letter. */
  function OnLetter(command: string): Rule {
    Rule("a", command, None)
  }

  lemma OnLetterCompiles(command: string)
    ensures CompileRule(OnLetter(command)).Some? && !ParseShortcut("a").value.modKey
  {
    var s := Shortcut("a", false, false, false, false, false);
    assert IsParsedKey("a");
    assert Modifiers(s) + ["a"] == ["a"];
    EncodeThenParse(s);
  }

  lemma OnLetterBlocksNoDefault(command: string, d: Rule)
    requires d in DEFAULT_KEYBINDINGS
    ensures !HasSameShortcutContext(OnLetter(command), d)
  {
    DefaultsCompile();
    hide DEFAULT_KEYBINDINGS, ParseShortcut, CompileRule, HasSameShortcutContext;
    OnLetterCompiles(command);
    CompiledContextMeaning(OnLetter(command), d);
  }

  predicate IsSpared(command: string) {
    command == TOGGLE_TERMINAL.command || command == TOGGLE_PALETTE.command
  }

  function FullFileCommand(i: nat): (command: string)
    ensures i == 0 ==> command == TOGGLE_TERMINAL.command
    ensures i > 0 ==> !IsSpared(command)
  {
    if i == 0 then TOGGLE_TERMINAL.command
    else if i - 1 < |DEFAULT_KEYBINDINGS| && !IsSpared(DEFAULT_KEYBINDINGS[i - 1].command)
    then DEFAULT_KEYBINDINGS[i - 1].command
    else SCRIPT
  }

  /** A full file: the letter for toggling the terminal, for every other default command but that
      of the palette, and then for a script. */
  function FullFile(): (r: seq<Rule>)
    ensures |r| == MAX_KEYBINDINGS_COUNT
    ensures forall i :: 0 <= i < |r| ==> r[i] == OnLetter(FullFileCommand(i))
  {
    seq(MAX_KEYBINDINGS_COUNT, i requires 0 <= i < MAX_KEYBINDINGS_COUNT => OnLetter(FullFileCommand(i)))
  }

  /** The file has no issues, is within the cap, and is written by a sync that forgets a rule of the
      user; and the sync after that writes as well. */
  ghost predicate SyncForgets(custom: seq<Rule>) {
    var file := Entries(EntriesOf(custom));
    && LoadedRules(file) == custom && |custom| <= MAX_KEYBINDINGS_COUNT
    && SyncWrites(DEFAULT_KEYBINDINGS, file).Some?
    && var written := SyncWrites(DEFAULT_KEYBINDINGS, file).value;
       && !(custom <= written)
       && SyncWrites(DEFAULT_KEYBINDINGS, Entries(EntriesOf(written))).Some?
  }

  lemma FullFileLoads()
    ensures LoadedRules(Entries(EntriesOf(FullFile()))) == FullFile()
    ensures IssueCount(Entries(EntriesOf(FullFile()))) == 0
  {
    hide CompileRule, FullFile, OnLetter;
    forall r | r in FullFile() ensures CompileRule(r).Some? {
      var i :| 0 <= i < |FullFile()| && FullFile()[i] == r;
      OnLetterCompiles(FullFileCommand(i));
    }
    WrittenEntriesAreUsable(FullFile());
    WrittenRulesCompile(FullFile());
  }

  lemma RuleOfFullFile(i: nat, d: Rule)
    requires i < MAX_KEYBINDINGS_COUNT && d in DEFAULT_KEYBINDINGS
    ensures FullFile()[i].command == FullFileCommand(i)
    ensures !HasSameShortcutContext(FullFile()[i], d)
  {
    hide DEFAULT_KEYBINDINGS, FullFile, HasSameShortcutContext, FullFileCommand;
    OnLetterBlocksNoDefault(FullFileCommand(i), d);
  }

  lemma CommandsDiffer()
    ensures TOGGLE_TERMINAL.command != TOGGLE_PALETTE.command
    ensures TOGGLE_TERMINAL in DEFAULT_KEYBINDINGS && TOGGLE_PALETTE in DEFAULT_KEYBINDINGS
    ensures |DEFAULT_KEYBINDINGS| < MAX_KEYBINDINGS_COUNT
  {
    TwoDefaults();
    DefaultsCompile();
  }

  lemma FullFileHas(d: Rule)
    requires d in DEFAULT_KEYBINDINGS && d.command != TOGGLE_PALETTE.command
    ensures HasCommand(FullFile(), d.command)
  {
    CommandsDiffer();
    hide DEFAULT_KEYBINDINGS, FullFile, HasSameShortcutContext, TOGGLE_TERMINAL, TOGGLE_PALETTE;
    var j: nat :| j < |DEFAULT_KEYBINDINGS| && DEFAULT_KEYBINDINGS[j] == d;
    var i := if d.command == TOGGLE_TERMINAL.command then 0 else j + 1;
    RuleOfFullFile(i, d);
    assert FullFile()[i] in FullFile();
  }

  lemma FullFileSparesPalette()
    ensures !Covers(FullFile(), TOGGLE_PALETTE)
  {
    CommandsDiffer();
    hide DEFAULT_KEYBINDINGS, FullFile, HasSameShortcutContext, TOGGLE_TERMINAL, TOGGLE_PALETTE, FullFileCommand;
    forall r | r in FullFile()
      ensures r.command != TOGGLE_PALETTE.command && !HasSameShortcutContext(r, TOGGLE_PALETTE)
    {
      var i: nat :| i < |FullFile()| && FullFile()[i] == r;
      RuleOfFullFile(i, TOGGLE_PALETTE);
    }
  }

  /** Only the default of the palette is missing from the full file. */
  lemma OnlyPaletteMissing()
    ensures TOGGLE_PALETTE in MissingDefaults(DEFAULT_KEYBINDINGS, FullFile())
    ensures forall d :: d in MissingDefaults(DEFAULT_KEYBINDINGS, FullFile()) ==> d == TOGGLE_PALETTE
  {
    TwoDefaults();
    FullFileSparesPalette();
    hide DEFAULT_KEYBINDINGS, FullFile, HasSameShortcutContext, MissingDefaults, TOGGLE_PALETTE;
    forall d | d in MissingDefaults(DEFAULT_KEYBINDINGS, FullFile())
      ensures d == TOGGLE_PALETTE
    {
      assert d in DEFAULT_KEYBINDINGS && !HasCommand(FullFile(), d.command);
      if d.command != TOGGLE_PALETTE.command {
        FullFileHas(d);
      }
    }
  }

  lemma KeptCoverNothing(rules: seq<Rule>)
    requires forall r :: r in rules ==>
               r == TOGGLE_PALETTE || exists i: nat :: 0 < i < MAX_KEYBINDINGS_COUNT && r == FullFile()[i]
    ensures !Covers(rules, TOGGLE_TERMINAL)
  {
    CommandsDiffer();
    PaletteIsApart();
    hide DEFAULT_KEYBINDINGS, FullFile, HasSameShortcutContext, TOGGLE_TERMINAL, TOGGLE_PALETTE, FullFileCommand;
    forall r | r in rules
      ensures r.command != TOGGLE_TERMINAL.command && !HasSameShortcutContext(r, TOGGLE_TERMINAL)
    {
      if r != TOGGLE_PALETTE {
        var i: nat :| 0 < i < MAX_KEYBINDINGS_COUNT && r == FullFile()[i];
        RuleOfFullFile(i, TOGGLE_TERMINAL);
      }
    }
  }

  lemma PaletteIsApart()
    ensures !HasSameShortcutContext(TOGGLE_PALETTE, TOGGLE_TERMINAL)
  {
    TwoDefaults();
    DefaultsCompile();
    hide DEFAULT_KEYBINDINGS, HasSameShortcutContext, CompileRule, ParseShortcut, ModKey;
    CompiledContextMeaning(TOGGLE_PALETTE, TOGGLE_TERMINAL);
  }

  /** Without room the sync need not be a fixed point, and it can drop a rule of the user. */
  lemma TruncatingSyncMayRepeat()
    ensures SyncForgets(FullFile())
  {
    FullFileLoads();
    OnlyPaletteMissing();
    CommandsDiffer();
    hide DEFAULT_KEYBINDINGS, FullFile, UsableRules, UnusableCount, EntriesOf, MissingDefaults,
      HasSameShortcutContext, FullFileCommand, TOGGLE_TERMINAL, TOGGLE_PALETTE;
    var custom := FullFile();
    var file := Entries(EntriesOf(custom));
    var missing := MissingDefaults(DEFAULT_KEYBINDINGS, custom);
    var all, t := Everything(DEFAULT_KEYBINDINGS, file), DroppedCount(DEFAULT_KEYBINDINGS, file);
    assert t == |missing| > 0;
    forall r | r in all[t..]
      ensures r == TOGGLE_PALETTE || exists i: nat :: 0 < i < MAX_KEYBINDINGS_COUNT && r == custom[i]
    {
      var k: nat :| k < |all| - t && all[t..][k] == r;
      assert r == all[t + k];
      assert t + k >= |custom| ==> r == missing[t + k - |custom|];
    }
    KeptCoverNothing(all[t..]);
    assert all[..t][0] == custom[0] && custom[0] in all[..t];
    assert custom[0].command == TOGGLE_TERMINAL.command;
    assert Covers(all[..t], TOGGLE_TERMINAL);
    SyncWithDefaults(file);
  }
}

/** The keybinding store of apps/server/src/keybindings.ts: compiling rules, merging them with the
    defaults, and keeping the file on disk and a one-entry cache in step. */
module KeybindingStore {
  import opened Wrappers
  import opened Selections
  import opened Shortcuts
  import Text
  import WhenExpressions

  const MAX_KEYBINDINGS_COUNT: nat := 256

  datatype Resolved = Resolved(command: string, shortcut: Shortcut, whenAst: Option<WhenExpressions.Node>)

  // ---------- Compiling and merging ----------

  const MAX_KEYBINDING_VALUE_LENGTH: nat := 64

  /** What the schema of resolved rules asks of a key. */
  predicate IsKeybindingValue(key: string) {
    Text.IsTrimmed(key) && 1 <= |key| <= MAX_KEYBINDING_VALUE_LENGTH
  }

  /** Compile a rule, and check the shortcut it yields against the schema of resolved rules. */
  function CompileRule(rule: Rule): Option<Resolved> {
    var shortcut := ParseShortcut(rule.key);
    if shortcut.None? || !IsKeybindingValue(shortcut.value.key) then None
    else if rule.when.Some? then
      var ast := WhenExpressions.ParseWhen(rule.when.value);
      if ast.None? then None else Some(Resolved(rule.command, shortcut.value, ast))
    else Some(Resolved(rule.command, shortcut.value, None))
  }

  /** The text is an expression of the `when` grammar, with the tree `ast`. */
  ghost predicate Expresses(text: string, ast: WhenExpressions.Node) {
    && WhenExpressions.Lex(text, 0).Some?
    && var tokens := WhenExpressions.Lex(text, 0).value;
       WhenExpressions.IsOr(tokens, 0, |tokens|, ast, 0)
  }

  /** What a rule compiles to: its command, the shortcut its key spells, and the tree of its condition,
      if it has one. */
  ghost predicate IsCompiled(rule: Rule, r: Resolved) {
    && r.command == rule.command
    && ParseShortcut(rule.key) == Some(r.shortcut) && IsKeybindingValue(r.shortcut.key)
    && (r.whenAst.Some? <==> rule.when.Some?)
    && (rule.when.Some? ==> Expresses(rule.when.value, r.whenAst.value))
  }

  lemma CompileRuleMeaning(rule: Rule, r: Resolved)
    ensures CompileRule(rule) == Some(r) <==> IsCompiled(rule, r)
  {
    hide ParseShortcut, WhenExpressions.Lex, WhenExpressions.IsOr, WhenExpressions.ParseWhen, IsKeybindingValue;
    if rule.when.Some? {
      forall ast
        ensures WhenExpressions.ParseWhen(rule.when.value) == Some(ast) <==> Expresses(rule.when.value, ast)
      {
        WhenExpressions.ParserMatchesGrammar(rule.when.value, ast);
      }
    }
  }

  predicate BothPartsParse(rule: Rule) {
    ParseShortcut(rule.key).Some? && (rule.when.Some? ==> WhenExpressions.ParseWhen(rule.when.value).Some?)
  }

  /** Of the rules whose key has legal length and whose parts parse, exactly those for the space key
      do not compile. */
  lemma OnlySpaceKeyIsRefused(rule: Rule)
    ensures BothPartsParse(rule) && |rule.key| <= MAX_KEYBINDING_VALUE_LENGTH ==>
              (CompileRule(rule).None? <==> ParseShortcut(rule.key).value.key == " ")
  {
    hide ParseShortcut, WhenExpressions.ParseWhen, IsParsedKey, Text.IsTrimmed;
    if BothPartsParse(rule) {
      ParsedKeys(rule.key);
      ParsedKeyIsTrimmed(ParseShortcut(rule.key).value.key);
      ParsedKeyLength(rule.key);
    }
  }

  /** `mod+space` parses, but a rule for it never compiles. */
  lemma ModSpaceNeverCompiles(rule: Rule)
    requires rule.key == "mod+space"
    ensures ParseShortcut(rule.key) == Some(Shortcut(" ", false, false, false, false, true))
    ensures CompileRule(rule).None?
  {
    var s := Shortcut(" ", false, false, false, false, true);
    assert IsParsedKey(" ");
    assert Modifiers(s) + ["space"] == ["mod", "space"] && ["mod", "space"][1..] == ["space"];
    assert EncodeShortcut(s) == Some("mod" + "+" + "space") && "mod" + "+" + "space" == "mod+space";
    hide ParseShortcut, EncodeShortcut, IsParsedKey;
    EncodeThenParse(s);
  }

  lemma CompiledWhenHasNoNul(rule: Rule)
    ensures CompileRule(rule).Some? ==> NUL !in WhenText(rule)
  {
    hide ParseShortcut, WhenExpressions.Lex, WhenExpressions.Disjuncts;
    if CompileRule(rule).Some? && rule.when.Some? {
      WhenExpressions.LexedHasNoNul(rule.when.value);
    }
  }

  /** Rules that compile share a shortcut context exactly when their keys parse to the same
      shortcut and their `when` texts agree. */
  lemma CompiledContextMeaning(left: Rule, right: Rule)
    ensures CompileRule(left).Some? && CompileRule(right).Some? ==>
              (HasSameShortcutContext(left, right) <==>
               ParseShortcut(left.key) == ParseShortcut(right.key) && WhenText(left) == WhenText(right))
  {
    CompiledWhenHasNoNul(left);
    CompiledWhenHasNoNul(right);
    assert CompileRule(left).Some? ==> ParseShortcut(left.key).Some?;
    hide ParseShortcut, CompileRule, HasSameShortcutContext, Shadows;
    ContextMeaning(left, right);
    ShadowsByNul(left, right);
    ShadowsByNul(right, left);
  }

  /** A rule that shadows another never compiles, so it is never compared. */
  lemma ShadowingRulesDoNotCompile(left: Rule, right: Rule)
    ensures Shadows(left, right) ==> CompileRule(left).None?
  {
    hide ParseShortcut, CompileRule, Shadows;
    ShadowsByNul(left, right);
    CompiledWhenHasNoNul(left);
  }

  function CompileAll(rules: seq<Rule>): seq<Resolved> {
    if rules == [] then []
    else
      var init, last := CompileAll(rules[..|rules| - 1]), CompileRule(rules[|rules| - 1]);
      if last.Some? then init + [last.value] else init
  }

  function Compilable(rules: seq<Rule>): set<nat> {
    set i: nat | i < |rules| && CompileRule(rules[i]).Some?
  }

  /** `compiled` are, one by one and in order, what the rules that compile do compile to. */
  ghost predicate IsCompilation(rules: seq<Rule>, compiled: seq<Resolved>) {
    exists kept :: IsSelection(rules, Compilable(rules), kept) && AreCompiled(kept, compiled)
  }

  ghost predicate AreCompiled(kept: seq<Rule>, compiled: seq<Resolved>) {
    |kept| == |compiled| && forall k :: 0 <= k < |kept| ==> IsCompiled(kept[k], compiled[k])
  }

  lemma {:induction false} CompileAllMeaning(rules: seq<Rule>)
    ensures IsCompilation(rules, CompileAll(rules))
    decreases |rules|
  {
    hide CompileRule, IsCompiled, IsSelection;
    if rules == [] {
      NothingSelected(rules);
      assert AreCompiled([], []) && Compilable(rules) == {};
    } else {
      var init, last := rules[..|rules| - 1], rules[|rules| - 1];
      CompileAllMeaning(init);
      var kept :| IsSelection(init, Compilable(init), kept) && AreCompiled(kept, CompileAll(init));
      SelectNext(init, Compilable(init), kept, last, CompileRule(last).Some?);
      assert init + [last] == rules;
      assert Compilable(rules) == if CompileRule(last).Some? then Compilable(init) + {|init|} else Compilable(init);
      if CompileRule(last).Some? {
        CompileRuleMeaning(last, CompileRule(last).value);
        assert AreCompiled(kept + [last], CompileAll(rules));
      }
    }
  }

  method CompileResolvedKeybindingsConfig(config: seq<Rule>) returns (compiled: seq<Resolved>)
    ensures compiled == CompileAll(config) && IsCompilation(config, compiled)
  {
    hide CompileRule;
    compiled := [];
    for i := 0 to |config|
      invariant compiled == CompileAll(config[..i])
    {
      assert config[..i + 1][..i] == config[..i];
      var result := CompileRule(config[i]);
      if result.Some? {
        compiled := compiled + [result.value];
      }
    }
    assert config[..|config|] == config;
    CompileAllMeaning(config);
  }

  /** The last MAX_KEYBINDINGS_COUNT rules: later rules have higher precedence. */
  function Capped<T>(rules: seq<T>): (r: seq<T>)
    ensures |r| <= MAX_KEYBINDINGS_COUNT
    ensures |r| <= |rules| && r == rules[|rules| - |r|..]
    ensures |rules| <= MAX_KEYBINDINGS_COUNT ==> r == rules
  {
    if |rules| > MAX_KEYBINDINGS_COUNT then rules[|rules| - MAX_KEYBINDINGS_COUNT..] else rules
  }

  /** `r` is all of it, or as much of its end as the cap allows. */
  predicate IsCapped<T(==)>(all: seq<T>, r: seq<T>) {
    |r| <= |all| && r == all[|all| - |r|..] && (|r| == |all| || |r| == MAX_KEYBINDINGS_COUNT)
  }

  function Commands(rules: seq<Resolved>): set<string> {
    set r | r in rules :: r.command
  }

  function NotOverridden(defaults: seq<Resolved>, commands: set<string>): (r: seq<Resolved>)
    ensures |r| <= |defaults|
  {
    if defaults == [] then []
    else
      var init, last := NotOverridden(defaults[..|defaults| - 1], commands), defaults[|defaults| - 1];
      if last.command in commands then init else init + [last]
  }

  function MergeWithDefaults(defaults: seq<Resolved>, custom: seq<Resolved>): seq<Resolved> {
    if custom == [] then defaults
    else Capped(NotOverridden(defaults, Commands(custom)) + custom)
  }

  function OfOtherCommands(defaults: seq<Resolved>, commands: set<string>): set<nat> {
    set i: nat | i < |defaults| && defaults[i].command !in commands
  }

  lemma {:induction false} NotOverriddenAreKept(defaults: seq<Resolved>, commands: set<string>)
    ensures IsSelection(defaults, OfOtherCommands(defaults, commands), NotOverridden(defaults, commands))
    decreases |defaults|
  {
    hide IsSelection;
    if defaults == [] {
      NothingSelected(defaults);
      assert OfOtherCommands(defaults, commands) == {};
    } else {
      var init, last := defaults[..|defaults| - 1], defaults[|defaults| - 1];
      NotOverriddenAreKept(init, commands);
      SelectNext(init, OfOtherCommands(init, commands), NotOverridden(init, commands), last, last.command !in commands);
      assert init + [last] == defaults;
      assert OfOtherCommands(defaults, commands) ==
        if last.command !in commands then OfOtherCommands(init, commands) + {|init|}
        else OfOtherCommands(init, commands);
    }
  }

  /** `merged` is, within the cap, the kept defaults followed by the custom rules. */
  ghost predicate IsMerge(defaults: seq<Resolved>, custom: seq<Resolved>, merged: seq<Resolved>, kept: seq<Resolved>) {
    && IsSelection(defaults, OfOtherCommands(defaults, Commands(custom)), kept)
    && IsCapped(kept + custom, merged)
  }

  /** A merge is, within the cap, all defaults of commands without a custom rule, in order, followed
      by the custom rules; beyond the cap only rules at the front are dropped. */
  lemma MergeMeaning(defaults: seq<Resolved>, custom: seq<Resolved>)
    requires |defaults| <= MAX_KEYBINDINGS_COUNT
    ensures |MergeWithDefaults(defaults, custom)| <= MAX_KEYBINDINGS_COUNT
    ensures exists kept :: IsMerge(defaults, custom, MergeWithDefaults(defaults, custom), kept)
  {
    if custom == [] {
      MergeOfNothing(defaults);
    } else {
      MergeOfSome(defaults, custom);
    }
  }

  lemma MergeOfNothing(defaults: seq<Resolved>)
    ensures IsMerge(defaults, [], defaults, NotOverridden(defaults, {}))
  {
    hide IsSelection;
    assert Commands([]) == {};
    NotOverriddenAreKept(defaults, {});
    NothingOverridden(defaults);
    assert defaults + [] == defaults;
  }

  lemma MergeOfSome(defaults: seq<Resolved>, custom: seq<Resolved>)
    requires custom != []
    ensures |MergeWithDefaults(defaults, custom)| <= MAX_KEYBINDINGS_COUNT
    ensures IsMerge(defaults, custom, MergeWithDefaults(defaults, custom), NotOverridden(defaults, Commands(custom)))
  {
    hide IsSelection, NotOverridden, Capped, IsCapped, OfOtherCommands, Commands;
    NotOverriddenAreKept(defaults, Commands(custom));
    CappedIsCapped(NotOverridden(defaults, Commands(custom)) + custom);
  }

  lemma CappedIsCapped<T>(all: seq<T>)
    ensures IsCapped(all, Capped(all)) && |Capped(all)| <= MAX_KEYBINDINGS_COUNT
    ensures |all| <= MAX_KEYBINDINGS_COUNT ==> Capped(all) == all
  {
  }

  lemma {:induction false} NothingOverridden(defaults: seq<Resolved>)
    ensures NotOverridden(defaults, {}) == defaults
    decreases |defaults|
  {
    if defaults == [] {
    } else {
      NothingOverridden(defaults[..|defaults| - 1]);
      assert defaults == defaults[..|defaults| - 1] + [defaults[|defaults| - 1]];
    }
  }

  // ---------- The file ----------

  datatype Entry = Decoded(rule: Rule) | Undecodable

  /** The file: absent, not a JSON array, or an array of entries that decode as rules or do not. */
  datatype File = Missing | Malformed | Entries(entries: seq<Entry>)

  function EntriesOf(rules: seq<Rule>): seq<Entry> {
    seq(|rules|, i requires 0 <= i < |rules| => Decoded(rules[i]))
  }

  predicate IsUsable(entry: Entry) {
    entry.Decoded? && CompileRule(entry.rule).Some?
  }

  /** The rules of the usable entries, in file order. */
  function UsableRules(entries: seq<Entry>): seq<Rule> {
    if entries == [] then []
    else
      var init, last := UsableRules(entries[..|entries| - 1]), entries[|entries| - 1];
      if IsUsable(last) then init + [last.rule] else init
  }

  function LoadedRules(file: File): seq<Rule> {
    if file.Entries? then UsableRules(file.entries) else []
  }

  function IssueCount(file: File): nat {
    match file
    case Missing => 0
    case Malformed => 1
    case Entries(entries) => UnusableCount(entries)
  }

  function UnusableCount(entries: seq<Entry>): nat {
    if entries == [] then 0
    else UnusableCount(entries[..|entries| - 1]) + if IsUsable(entries[|entries| - 1]) then 0 else 1
  }

  function UsableEntries(entries: seq<Entry>): set<nat> {
    set i: nat | i < |entries| && IsUsable(entries[i])
  }

  /** The rules that are loaded are those of the usable entries, in file order; every other entry is an
      issue. */
  lemma {:induction false} LoadingMeaning(entries: seq<Entry>)
    ensures IsSelection(entries, UsableEntries(entries), EntriesOf(UsableRules(entries)))
    ensures |UsableRules(entries)| + UnusableCount(entries) == |entries|
    ensures UnusableCount(entries) == 0 ==> EntriesOf(UsableRules(entries)) == entries
    decreases |entries|
  {
    hide IsSelection, CompileRule;
    if entries == [] {
      NothingSelected(entries);
      assert UsableEntries(entries) == {} && EntriesOf([]) == [];
    } else {
      var init, last := entries[..|entries| - 1], entries[|entries| - 1];
      LoadingMeaning(init);
      assert init + [last] == entries;
      assert UsableEntries(entries) ==
        if IsUsable(last) then UsableEntries(init) + {|init|} else UsableEntries(init);
      hide IsUsable, UsableEntries;
      var usable := UsableRules(init);
      SelectNext(init, UsableEntries(init), EntriesOf(usable), last, IsUsable(last));
      if IsUsable(last) {
        UsableIsDecoded(last);
        assert EntriesOf(usable + [last.rule]) == EntriesOf(usable) + [last];
      }
    }
  }

  lemma UsableIsDecoded(entry: Entry)
    ensures IsUsable(entry) ==> entry.Decoded?
  {
  }

  datatype Snapshot = Snapshot(keybindings: seq<Resolved>, issueCount: nat)

  function FreshLoad(defaults: seq<Rule>, file: File): Snapshot {
    Snapshot(MergeWithDefaults(CompileAll(defaults), CompileAll(LoadedRules(file))), IssueCount(file))
  }

  /** Loading what was written compiles to what the written rules compile to. */
  lemma {:induction false} WrittenRulesCompile(rules: seq<Rule>)
    ensures CompileAll(UsableRules(EntriesOf(rules))) == CompileAll(rules)
    ensures UnusableCount(EntriesOf(rules)) == 0 ==> UsableRules(EntriesOf(rules)) == rules
    decreases |rules|
  {
    hide CompileRule;
    if rules == [] {
    } else {
      var init, last := rules[..|rules| - 1], rules[|rules| - 1];
      WrittenRulesCompile(init);
      assert EntriesOf(rules)[..|rules| - 1] == EntriesOf(init);
      var usable := UsableRules(EntriesOf(init));
      assert (usable + [last])[..|usable|] == usable;
      assert init + [last] == rules;
    }
  }

  // ---------- Replacing the rules of one command ----------

  function WithoutCommand(rules: seq<Rule>, command: string): seq<Rule> {
    if rules == [] then []
    else
      var init, last := WithoutCommand(rules[..|rules| - 1], command), rules[|rules| - 1];
      if last.command != command then init + [last] else init
  }

  function OfCommand(rules: seq<Rule>, command: string): seq<Rule> {
    if rules == [] then []
    else
      var init, last := OfCommand(rules[..|rules| - 1], command), rules[|rules| - 1];
      if last.command == command then init + [last] else init
  }

  function NextRules(rules: seq<Rule>, command: string, replacement: seq<Rule>): seq<Rule> {
    Capped(WithoutCommand(rules, command) + replacement)
  }

  lemma {:induction false} WithoutCommandHasNone(rules: seq<Rule>, command: string)
    ensures forall r :: r in WithoutCommand(rules, command) <==> r in rules && r.command != command
    decreases |rules|
  {
    if rules == [] {
    } else {
      WithoutCommandHasNone(rules[..|rules| - 1], command);
      assert forall r :: r in rules <==> r in rules[..|rules| - 1] || r == rules[|rules| - 1];
    }
  }

  lemma {:induction false} OfCommandNone(rules: seq<Rule>, command: string)
    requires forall r :: r in rules ==> r.command != command
    ensures OfCommand(rules, command) == []
    decreases |rules|
  {
    if rules == [] {
    } else {
      OfCommandNone(rules[..|rules| - 1], command);
      assert rules[|rules| - 1] in rules;
    }
  }

  lemma {:induction false} OfCommandAppend(rules: seq<Rule>, more: seq<Rule>, command: string)
    requires forall r :: r in more ==> r.command == command
    ensures OfCommand(rules + more, command) == OfCommand(rules, command) + more
    decreases |more|
  {
    if more == [] {
      assert rules + more == rules;
    } else {
      var init := more[..|more| - 1];
      OfCommandAppend(rules, init, command);
      var all := rules + more;
      assert all[..|all| - 1] == rules + init && all[|all| - 1] == more[|more| - 1];
      assert more[|more| - 1] in more;
      assert OfCommand(all, command) == OfCommand(rules + init, command) + [all[|all| - 1]];
      hide OfCommand;
      assert init + [more[|more| - 1]] == more;
    }
  }

  lemma {:induction false} OfCommandOnly(rules: seq<Rule>, command: string)
    ensures forall r :: r in OfCommand(rules, command) ==> r.command == command
    decreases |rules|
  {
    if rules == [] {
    } else {
      OfCommandOnly(rules[..|rules| - 1], command);
    }
  }

  function OfOthers(rules: seq<Rule>, command: string): set<nat> {
    set i: nat | i < |rules| && rules[i].command != command
  }

  lemma {:induction false} WithoutCommandKeeps(rules: seq<Rule>, command: string)
    ensures IsSelection(rules, OfOthers(rules, command), WithoutCommand(rules, command))
    decreases |rules|
  {
    hide IsSelection;
    if rules == [] {
      NothingSelected(rules);
      assert OfOthers(rules, command) == {};
    } else {
      var init, last := rules[..|rules| - 1], rules[|rules| - 1];
      WithoutCommandKeeps(init, command);
      SelectNext(init, OfOthers(init, command), WithoutCommand(init, command), last, last.command != command);
      assert init + [last] == rules;
      assert OfOthers(rules, command) ==
        if last.command != command then OfOthers(init, command) + {|init|} else OfOthers(init, command);
    }
  }

  /** `next` is, within the cap, the rules for other commands, in order, followed by the new ones. */
  ghost predicate IsPersisted(rules: seq<Rule>, command: string, replacement: seq<Rule>, next: seq<Rule>,
                              others: seq<Rule>) {
    && IsSelection(rules, OfOthers(rules, command), others)
    && IsCapped(others + replacement, next)
  }

  /** After rules were persisted for a command, the file's rules for that command are exactly those
      if and only if they fit and are rules for it, which nothing checks; all rules for other commands
      stay in front of them, in order, and only beyond the cap rules at the front are dropped. */
  lemma PersistedRulesOfCommand(rules: seq<Rule>, command: string, replacement: seq<Rule>)
    ensures var next := NextRules(rules, command, replacement);
            && |next| <= MAX_KEYBINDINGS_COUNT
            && (OfCommand(next, command) == replacement <==>
                && |replacement| <= MAX_KEYBINDINGS_COUNT
                && forall r :: r in replacement ==> r.command == command)
            && exists others :: IsPersisted(rules, command, replacement, next, others)
  {
    hide IsSelection;
    var next := NextRules(rules, command, replacement);
    WithoutCommandKeeps(rules, command);
    assert IsPersisted(rules, command, replacement, next, WithoutCommand(rules, command));
    OfCommandOnly(next, command);
    if forall r :: r in replacement ==> r.command == command {
      PersistedOwnRules(rules, command, replacement);
    }
  }

  lemma PersistedOwnRules(rules: seq<Rule>, command: string, replacement: seq<Rule>)
    requires forall r :: r in replacement ==> r.command == command
    ensures OfCommand(NextRules(rules, command, replacement), command) == replacement <==>
            |replacement| <= MAX_KEYBINDINGS_COUNT
  {
    var others := WithoutCommand(rules, command);
    var all := others + replacement;
    var next := Capped(all);
    var cut := |all| - |next|;
    WithoutCommandHasNone(rules, command);
    if |replacement| <= MAX_KEYBINDINGS_COUNT {
      assert next == others[cut..] + replacement;
      OfCommandNone(others[cut..], command);
      OfCommandAppend(others[cut..], replacement, command);
      assert [] + replacement == replacement;
    } else {
      var tail := replacement[cut - |others|..];
      assert next == tail;
      assert forall r :: r in tail ==> r in replacement;
      OfCommandAppend([], tail, command);
      assert [] + tail == tail;
    }
  }

  /** An input on which the file does not end up with the rules asked for: replacing the rules of
      `chat.new` by one for another command is accepted, and leaves no rule for `chat.new`. */
  lemma ForeignRulesAreAccepted(rules: seq<Rule>)
    ensures var replacement := [Rule("mod+j", "terminal.toggle", None)];
            var next := NextRules(rules, "chat.new", replacement);
            OfCommand(next, "chat.new") == [] && replacement[0] in next
  {
    var replacement := [Rule("mod+j", "terminal.toggle", None)];
    var next := NextRules(rules, "chat.new", replacement);
    WithoutCommandHasNone(rules, "chat.new");
    hide WithoutCommand, Capped, OfCommand;
    var others := WithoutCommand(rules, "chat.new");
    CappedIsCapped(others + replacement);
    assert next[|next| - 1] == (others + replacement)[|others|] == replacement[0];
    forall r | r in next ensures r.command != "chat.new" {
      assert r in others + replacement;
    }
    OfCommandNone(next, "chat.new");
  }

  // ---------- Backfilling defaults at startup ----------

  predicate HasCommand(rules: seq<Rule>, command: string) {
    exists r :: r in rules && r.command == command
  }

  /** Some rule already uses the shortcut context of `rule`. */
  predicate IsBlocked(rules: seq<Rule>, rule: Rule) {
    exists r :: r in rules && HasSameShortcutContext(r, rule)
  }

  /** The rules leave nothing to add for a default: they have its command or use its shortcut. */
  predicate Covers(rules: seq<Rule>, d: Rule) {
    HasCommand(rules, d.command) || IsBlocked(rules, d)
  }

  /** The defaults whose command the custom rules lack and whose shortcut they leave free. */
  function MissingDefaults(defaults: seq<Rule>, custom: seq<Rule>): (r: seq<Rule>)
    ensures forall d :: d in r <==> d in defaults && !HasCommand(custom, d.command) && !IsBlocked(custom, d)
    ensures r == [] <==> forall d :: d in defaults ==> Covers(custom, d)
    ensures |r| <= |defaults|
  {
    if defaults == [] then []
    else
      var init, last := MissingDefaults(defaults[..|defaults| - 1], custom), defaults[|defaults| - 1];
      assert forall d :: d in defaults <==> d in defaults[..|defaults| - 1] || d == last;
      if HasCommand(custom, last.command) || IsBlocked(custom, last) then init else init + [last]
  }

  function Uncovered(defaults: seq<Rule>, custom: seq<Rule>): set<nat> {
    set i: nat | i < |defaults| && !Covers(custom, defaults[i])
  }

  /** They keep the order of the defaults. */
  lemma {:induction false} MissingDefaultsMeaning(defaults: seq<Rule>, custom: seq<Rule>)
    ensures IsSelection(defaults, Uncovered(defaults, custom), MissingDefaults(defaults, custom))
    decreases |defaults|
  {
    hide IsSelection, HasCommand, IsBlocked;
    if defaults == [] {
      NothingSelected(defaults);
      assert Uncovered(defaults, custom) == {};
    } else {
      var init, last := defaults[..|defaults| - 1], defaults[|defaults| - 1];
      MissingDefaultsMeaning(init, custom);
      SelectNext(init, Uncovered(init, custom), MissingDefaults(init, custom), last, !Covers(custom, last));
      assert init + [last] == defaults;
      assert Uncovered(defaults, custom) ==
        if Covers(custom, last) then Uncovered(init, custom) else Uncovered(init, custom) + {|init|};
    }
  }

  /** What a startup sync writes, or None when it writes nothing. */
  function SyncWrites(defaults: seq<Rule>, file: File): Option<seq<Rule>> {
    if file == Missing then Some(defaults)
    else if IssueCount(file) > 0 then None
    else
      var custom := LoadedRules(file);
      var missing := MissingDefaults(defaults, custom);
      if missing == [] then None else Some(Capped(custom + missing))
  }

  /** `written` is, within the cap, the rules of the file followed by the missing defaults, in order. */
  ghost predicate IsSynced(defaults: seq<Rule>, file: File, written: seq<Rule>, missing: seq<Rule>) {
    && IsSelection(defaults, Uncovered(defaults, LoadedRules(file)), missing)
    && IsCapped(LoadedRules(file) + missing, written)
  }

  /** A sync writes exactly for a missing file, or when all entries of the file are usable and some
      default is not covered by them; then it adds exactly the defaults that are not. */
  lemma SyncMeaning(defaults: seq<Rule>, file: File)
    requires file.Entries?
    ensures SyncWrites(defaults, Missing) == Some(defaults) && SyncWrites(defaults, Malformed) == None
    ensures SyncWrites(defaults, file).Some? <==>
              && EntriesOf(LoadedRules(file)) == file.entries
              && exists d :: d in defaults && !Covers(LoadedRules(file), d)
    ensures SyncWrites(defaults, file).Some? ==>
              exists missing :: IsSynced(defaults, file, SyncWrites(defaults, file).value, missing)
  {
    hide Covers, CompileRule, IsSelection;
    var missing := MissingDefaults(defaults, LoadedRules(file));
    LoadingMeaning(file.entries);
    MissingDefaultsMeaning(defaults, LoadedRules(file));
    assert EntriesOf(LoadedRules(file)) == file.entries ==> |LoadedRules(file)| == |file.entries|;
    if SyncWrites(defaults, file).Some? {
      assert IsSynced(defaults, file, SyncWrites(defaults, file).value, missing);
    }
  }

  predicate Truncates(defaults: seq<Rule>, file: File) {
    file.Entries? && |LoadedRules(file)| + |MissingDefaults(defaults, LoadedRules(file))| > MAX_KEYBINDINGS_COUNT
  }

  /** The rules of the file after a sync. */
  function SyncedRules(defaults: seq<Rule>, file: File): seq<Rule> {
    if SyncWrites(defaults, file).Some? then SyncWrites(defaults, file).value else LoadedRules(file)
  }

  /** After a sync of a file without issues that does not truncate, whether it wrote or not, the
      rules of the user are in front, and each default's command is there or its shortcut was taken. */
  lemma SyncCoversDefaults(defaults: seq<Rule>, file: File)
    requires IssueCount(file) == 0 && !Truncates(defaults, file)
    ensures var rules := SyncedRules(defaults, file);
            && LoadedRules(file) <= rules
            && forall d :: d in defaults ==> HasCommand(rules, d.command) || IsBlocked(LoadedRules(file), d)
  {
    hide HasSameShortcutContext, CompileRule, UnusableCount, UsableRules;
    var rules, custom := SyncedRules(defaults, file), LoadedRules(file);
    var missing := MissingDefaults(defaults, custom);
    if file != Missing {
      assert rules == custom + missing;
      forall d | d in defaults ensures HasCommand(rules, d.command) || IsBlocked(custom, d) {
        CoveredByMore(custom, missing, d);
        assert d in missing ==> HasCommand(missing, d.command);
      }
    }
  }

  lemma CoveredByMore(a: seq<Rule>, b: seq<Rule>, d: Rule)
    ensures HasCommand(a + b, d.command) <==> HasCommand(a, d.command) || HasCommand(b, d.command)
    ensures IsBlocked(a + b, d) <==> IsBlocked(a, d) || IsBlocked(b, d)
  {
    hide HasSameShortcutContext;
    assert forall r :: r in a + b <==> r in a || r in b;
  }

  /** ... and it is a fixed point: a second sync of what it wrote writes nothing. */
  lemma SyncIsFixedPoint(defaults: seq<Rule>, file: File)
    requires SyncWrites(defaults, file).Some? && !Truncates(defaults, file)
    ensures SyncWrites(defaults, Entries(EntriesOf(SyncWrites(defaults, file).value))) == None
  {
    hide HasSameShortcutContext, CompileRule;
    var written := SyncWrites(defaults, file).value;
    SyncCoversDefaults(defaults, file);
    hide IssueCount, UsableRules, MissingDefaults, Capped;
    forall d | d in defaults ensures Covers(written, d) {
      if IsBlocked(LoadedRules(file), d) {
        var r :| r in LoadedRules(file) && HasSameShortcutContext(r, d);
        assert r in written;
      }
    }
    SecondSync(defaults, written);
  }

  /** Whether the sync of a file that was just written writes depends on what was written alone. */
  lemma SecondSync(defaults: seq<Rule>, written: seq<Rule>)
    ensures SyncWrites(defaults, Entries(EntriesOf(written))) == None <==>
            (exists r :: r in written && CompileRule(r).None?) || forall d :: d in defaults ==> Covers(written, d)
  {
    hide HasSameShortcutContext, CompileRule, MissingDefaults, Covers;
    WrittenRulesCompile(written);
    WrittenEntriesAreUsable(written);
  }

  lemma {:induction false} WrittenEntriesAreUsable(rules: seq<Rule>)
    ensures UnusableCount(EntriesOf(rules)) == 0 <==> forall r :: r in rules ==> CompileRule(r).Some?
    decreases |rules|
  {
    hide CompileRule;
    if rules == [] {
    } else {
      var init, last := rules[..|rules| - 1], rules[|rules| - 1];
      WrittenEntriesAreUsable(init);
      assert EntriesOf(rules)[..|rules| - 1] == EntriesOf(init);
      assert forall r :: r in rules <==> r in init || r == last;
    }
  }

  lemma {:induction false} UsableRulesCompile(entries: seq<Entry>)
    ensures forall r :: r in UsableRules(entries) ==> CompileRule(r).Some?
    decreases |entries|
  {
    hide CompileRule;
    if entries == [] {
    } else {
      UsableRulesCompile(entries[..|entries| - 1]);
    }
  }

  /** Everything there was to write, and how much of its front was dropped. */
  function Everything(defaults: seq<Rule>, file: File): seq<Rule> {
    LoadedRules(file) + MissingDefaults(defaults, LoadedRules(file))
  }

  function DroppedCount(defaults: seq<Rule>, file: File): (t: nat)
    ensures t <= |Everything(defaults, file)|
    ensures t > 0 <==> |Everything(defaults, file)| > MAX_KEYBINDINGS_COUNT
  {
    var n := |Everything(defaults, file)|;
    if n > MAX_KEYBINDINGS_COUNT then n - MAX_KEYBINDINGS_COUNT else 0
  }

  /** A sync that writes keeps the rules of the user in front exactly when it does not truncate. */
  lemma SyncKeepsUserRulesExactly(defaults: seq<Rule>, file: File)
    requires file.Entries? && |defaults| <= MAX_KEYBINDINGS_COUNT
    ensures SyncWrites(defaults, file).Some? ==>
              (LoadedRules(file) <= SyncWrites(defaults, file).value <==> !Truncates(defaults, file))
  {
    hide HasSameShortcutContext, CompileRule, IssueCount, UsableRules;
    var custom := LoadedRules(file);
    var missing := MissingDefaults(defaults, custom);
    if SyncWrites(defaults, file).Some? && Truncates(defaults, file) {
      var written := SyncWrites(defaults, file).value;
      var all := custom + missing;
      var k := MAX_KEYBINDINGS_COUNT - |missing|;
      assert written[k] == all[|custom|] == missing[0] && missing[0] in missing;
      assert custom[k] in custom && custom[k].command != missing[0].command;
    }
  }

  /** When a sync of a file has written, the next one writes nothing exactly when every default
      that the dropped front covered is still covered by the rest, or the written file has issues. */
  lemma SyncRepeatsExactly(defaults: seq<Rule>, file: File)
    requires file.Entries? && SyncWrites(defaults, file).Some?
    ensures var all, t := Everything(defaults, file), DroppedCount(defaults, file);
            && SyncWrites(defaults, file) == Some(all[t..])
            && (SyncWrites(defaults, Entries(EntriesOf(all[t..]))) == None <==>
                || (exists r :: r in all[t..] && CompileRule(r).None?)
                || forall d :: d in defaults && Covers(all[..t], d) ==> Covers(all[t..], d))
  {
    hide HasSameShortcutContext, CompileRule, IssueCount, UsableRules, HasCommand, IsBlocked;
    var custom := LoadedRules(file);
    var missing := MissingDefaults(defaults, custom);
    var all, t := Everything(defaults, file), DroppedCount(defaults, file);
    assert all == all[..t] + all[t..];
    forall d | d in defaults ensures Covers(all[..t], d) || Covers(all[t..], d) {
      CoveredByMore(custom, missing, d);
      CoveredByMore(all[..t], all[t..], d);
      assert d in missing ==> HasCommand(missing, d.command) by { CommandOf(missing, d); }
    }
    SecondSync(defaults, all[t..]);
  }

  lemma CommandOf(rules: seq<Rule>, d: Rule)
    ensures d in rules ==> HasCommand(rules, d.command)
  {
  }

  // ---------- The store ----------

  datatype Failure = ReadFailed | WriteFailed

  class Store {
    const defaults: seq<Rule>
    var file: File
    var cache: Option<Snapshot>
    /** The snapshots published to subscribers. */
    var changes: seq<Snapshot>

    /** What every operation keeps, also while the cache is stale: the cap. */
    ghost predicate Bounded()
      reads this
    {
      && |CompileAll(defaults)| <= MAX_KEYBINDINGS_COUNT
      && (cache.Some? ==> |cache.value.keybindings| <= MAX_KEYBINDINGS_COUNT)
    }

    /** The cached keybindings, if any, are those a fresh load of the file gives. */
    ghost predicate Coherent()
      reads this
    {
      Bounded() && (cache.Some? ==> cache.value.keybindings == FreshLoad(defaults, file).keybindings)
    }

    constructor (defaults: seq<Rule>, file: File)
      requires |CompileAll(defaults)| <= MAX_KEYBINDINGS_COUNT
      ensures Coherent() && this.defaults == defaults && this.file == file && cache == None && changes == []
    {
      this.defaults, this.file := defaults, file;
      cache, changes := None, [];
    }

    /** The file is edited by someone else: the cache may be stale until it is revalidated. */
    method EditOutside(edited: File)
      requires Bounded()
      modifies this`file
      ensures Bounded() && file == edited
    {
      file := edited;
    }

    /** A cached snapshot is returned as it is; it is that of a fresh load unless the file was edited
        outside since. */
    method GetSnapshot() returns (snapshot: Snapshot)
      requires Bounded()
      modifies this`cache
      ensures Bounded() && cache == Some(snapshot)
      ensures |snapshot.keybindings| <= MAX_KEYBINDINGS_COUNT
      ensures old(cache).Some? ==> cache == old(cache)
      ensures old(cache).None? ==> snapshot == FreshLoad(defaults, file)
      ensures old(cache).None? || old(Coherent()) ==>
                Coherent() && snapshot.keybindings == FreshLoad(defaults, file).keybindings
    {
      hide CompileAll, MergeWithDefaults, LoadedRules, IssueCount;
      MergeMeaning(CompileAll(defaults), CompileAll(LoadedRules(file)));
      if cache.None? {
        cache := Some(FreshLoad(defaults, file));
      }
      return cache.value;
    }

    /** Whatever happened to the file, afterwards the cache and the last published change agree with it. */
    method RevalidateAndEmit()
      requires Bounded()
      modifies this`cache, this`changes
      ensures Coherent() && cache == Some(FreshLoad(defaults, file))
      ensures changes == old(changes) + [FreshLoad(defaults, file)]
    {
      cache := None;
      var snapshot := GetSnapshot();
      changes := changes + [snapshot];
    }

    method MissingDefaultRules(custom: seq<Rule>) returns (missing: seq<Rule>)
      ensures missing == MissingDefaults(defaults, custom)
    {
      hide HasSameShortcutContext;
      missing := [];
      for i := 0 to |defaults|
        invariant missing == MissingDefaults(defaults[..i], custom)
      {
        assert defaults[..i + 1][..i] == defaults[..i];
        var defaultRule := defaults[i];
        if exists r :: r in custom && r.command == defaultRule.command {
          continue;
        }
        if exists r :: r in custom && HasSameShortcutContext(r, defaultRule) {
          continue;
        }
        missing := missing + [defaultRule];
      }
      assert defaults[..|defaults|] == defaults;
    }

    /** Backfill missing defaults; `writable` is whether the file can be written. Like every write that
        succeeds it repairs a cache that an edit from outside had made stale. */
    method SyncDefaultsOnStartup(writable: bool) returns (result: Result<(), Failure>)
      requires Bounded()
      modifies this`file, this`cache
      ensures Bounded() && (result.Ok? || old(Coherent()) ==> Coherent())
      ensures var w := SyncWrites(defaults, old(file));
              if w.None? then file == old(file) && cache == None && result == Ok(())
              else if writable then file == Entries(EntriesOf(w.value)) && cache == None && result == Ok(())
              else file == old(file) && cache == old(cache) && result == Err(WriteFailed)
    {
      hide CompileAll, UsableRules, UnusableCount, MissingDefaults, MergeWithDefaults, EntriesOf, Capped;
      if file == Missing {
        if !writable {
          return Err(WriteFailed);
        }
        file := Entries(EntriesOf(defaults));
        cache := None;
        return Ok(());
      }
      if IssueCount(file) > 0 {
        cache := None;
        return Ok(());
      }
      var customConfig := LoadedRules(file);
      var missingDefaults := MissingDefaultRules(customConfig);
      if missingDefaults == [] {
        cache := None;
        return Ok(());
      }
      var nextConfig := customConfig + missingDefaults;
      var cappedConfig := Capped(nextConfig);
      if !writable {
        return Err(WriteFailed);
      }
      file := Entries(EntriesOf(cappedConfig));
      cache := None;
      return Ok(());
    }

    /** Replace one command's rules: refused when the file is malformed or cannot be written. */
    method PersistCommandRules(command: string, rules: seq<Rule>, writable: bool)
      returns (result: Result<seq<Resolved>, Failure>)
      requires Bounded()
      modifies this`file, this`cache, this`changes
      ensures Bounded() && (result.Ok? || old(Coherent()) ==> Coherent())
      ensures result.Ok? <==> old(file) != Malformed && writable
      ensures result.Err? ==> file == old(file) && cache == old(cache) && changes == old(changes)
      ensures result.Ok? ==>
                && file == Entries(EntriesOf(NextRules(LoadedRules(old(file)), command, rules)))
                && result.value == FreshLoad(defaults, file).keybindings
                && cache == Some(Snapshot(result.value, 0)) && changes == old(changes) + [Snapshot(result.value, 0)]
                && |result.value| <= MAX_KEYBINDINGS_COUNT
    {
      hide CompileAll, UsableRules, WithoutCommand, MergeWithDefaults, EntriesOf, Capped;
      if file == Malformed {
        return Err(ReadFailed);
      }
      var customConfig := LoadedRules(file);
      var nextConfig := WithoutCommand(customConfig, command) + rules;
      var cappedConfig := Capped(nextConfig);
      if !writable {
        return Err(WriteFailed);
      }
      file := Entries(EntriesOf(cappedConfig));
      var compiled := CompileResolvedKeybindingsConfig(cappedConfig);
      var nextResolved := MergeWithDefaults(CompileAll(defaults), compiled);
      WrittenRulesCompile(cappedConfig);
      MergeMeaning(CompileAll(defaults), compiled);
      cache := Some(Snapshot(nextResolved, 0));
      changes := changes + [Snapshot(nextResolved, 0)];
      return Ok(nextResolved);
    }

    method UpsertKeybindingRule(rule: Rule, writable: bool) returns (result: Result<seq<Resolved>, Failure>)
      requires Bounded()
      modifies this`file, this`cache, this`changes
      ensures Bounded() && (result.Ok? || old(Coherent()) ==> Coherent())
      ensures result.Ok? <==> old(file) != Malformed && writable
      ensures result.Err? ==> file == old(file) && cache == old(cache) && changes == old(changes)
      ensures result.Ok? ==>
                && file == Entries(EntriesOf(NextRules(LoadedRules(old(file)), rule.command, [rule])))
                && result.value == FreshLoad(defaults, file).keybindings
                && cache == Some(Snapshot(result.value, 0)) && changes == old(changes) + [Snapshot(result.value, 0)]
                && |result.value| <= MAX_KEYBINDINGS_COUNT
    {
      result := PersistCommandRules(rule.command, [rule], writable);
    }
  }
}

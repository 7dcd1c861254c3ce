# Verified models of the keybindings, durable files, account transport and release tooling

This project models the parts of the repository whose correctness is an argument rather than a
glance, and proves what they promise for all inputs and all runs.

- `WhenExpressions`, `Shortcuts`, `KeybindingStore`, `DefaultKeybindings` model
  `apps/server/src/keybindings.ts`: the tokenizer, the depth-bounded recursive-descent parser with
  its shared cursor, the printer, the shortcut codec, the store with its file, its cap and its
  one-entry cache, and the list of defaults.
- `KillOrder` models the process-tree walk of `scripts/dev-runner.ts`.
- `DurableFile` and `WriteQueue` model `scripts/lib/durableFile.ts`: the multi-step replace with its
  fallback, crashes and concurrent two-step readers, and the per-path queue of promises.
- `ConnectAccountBroker` and `ConnectAccountTransport` model the two desktop modules of those names
  as one state machine: every function is cut at its awaits, and the transport machine contains the
  broker machine.
- `UpdateManifest`, `ManifestGrammar` and `ManifestMerge` model `scripts/lib/update-manifest.ts`: the
  parser and printer, which texts are accepted and what they mean, and the merge.
- `PrMedia`, `ListeningDetector`, `ReleaseTags` with `TagPrecedence`, `Attachments`, `NestedThreads`
  model the marker section of pull request bodies, the windowed search for the listening line, the
  order of release tags, the attachment id codec, and the three-call creation of nested threads.
- `Text`, `Selections` and `Wrappers` hold what the others share: string operations, filters told by
  the indices of what they keep, and result types.

Code that changes state step by step is modelled by classes and loops that are proved equal to a
specification function or to a step of a state machine; the properties are then lemmas about that
function or machine.

## What the proofs found

- The printed form of a `when` expression does not always parse: a flat chain of more than 64
  operators is accepted, but its fully parenthesised form is refused
  (`WhenExpressions.FlatChainsParseButMayNotReparse`). The round trip holds exactly up to that depth.
- Rules that compile are compared faithfully by their shortcut contexts
  (`KeybindingStore.CompiledContextMeaning`). The joining with NUL could confuse only rules that do
  not compile, and those never reach the comparison.
- A startup sync of a full file can drop a rule of the user, and the next sync then writes again, as
  an example with the actual defaults shows (`DefaultKeybindings.TruncatingSyncMayRepeat`);
  `DefaultKeybindings.SyncWithDefaults` says exactly when.
- Prerelease identifiers are compared with `localeCompare`, while section 11.4.2 of Semantic
  Versioning 2.0.0 fixes ASCII order. The order of the code is that of the standard exactly for
  collations that agree with ASCII on the non-numeric identifiers of tags
  (`TagPrecedence.ComparisonIsStandardExactly`); one that ignores letter case does not
  (`TagPrecedence.CollationsDisagree`).
- Replacing the rules of a command does not check that the new rules are for it, so a request can
  leave the command without rules (`KeybindingStore.ForeignRulesAreAccepted`).
- A rule for the space key parses but never compiles: its key is white space, which the schema of
  compiled rules refuses (`KeybindingStore.OnlySpaceKeyIsRefused`).
- A route inserted after an invalidation is stale for good, yet later connects find it again until
  the next invalidation (`ConnectAccountTransport.StaleRoutesStayStale`); no tunnel ever uses it.
- If a rename onto an absent target could fail with one of the fallback codes, line 43 of
  `scripts/lib/durableFile.ts` would delete the only copy
  (`DurableFile.FallbackWithoutFileLosesData`); with that excluded no run loses the committed value,
  and `DurableFile.RunsAreDurableExactly` says which runs do.
- `mergeExtras` looks keys up in a plain object, so an extra that only the second manifest has and
  that is named like an inherited property (`constructor`, `toString`, ...) is a conflict
  (`ManifestMerge.InheritedNamesConflict`). Merging is commutative and associative exactly up to
  such names.

## Assumptions

- A rename onto an absent target never fails with `EEXIST`, `ENOTEMPTY` or `EPERM`.
- The decoded side of the library's `Trim` schema requires text without white space around it, and
  `toType` keeps that check and those on length; so the key of a compiled rule is checked again.
- Route ids, tickets and sockets are new each time; invalidation listeners do not call back into the
  broker.
- The string collation behind `localeCompare` is a preorder, given as a parameter.
- Path normalization leaves names without slash, backslash and dot alone.
- A backend call that succeeds was committed, and one that fails with a definitive error was not.

## Model

| member | source | states |
|---|---|---|
| `WhenExpressions.TokenizeWhenExpression` | apps/server/src/keybindings.ts:166-213 | The imperative tokenizer yields exactly the token list of the specification `Lex`, and null on the same texts. |
| `WhenExpressions.LexKeepsText` | apps/server/src/keybindings.ts:166-213 | Spelling the tokens out again gives the text without its white space, so no character is lost or invented; every identifier token is an identifier. |
| `WhenExpressions.TokenizerMatchesWords` | apps/server/src/keybindings.ts:166-213 | A text is tokenized into these tokens if and only if it consists of them, spelled out, with any white space between them and some between two identifiers: both which texts are refused and where identifiers end. |
| `WhenExpressions.WhenParser.ParsePrimary` | apps/server/src/keybindings.ts:220-244 | The procedure moves the shared cursor to where the specification of primaries does and returns its node; null in the same cases. |
| `WhenExpressions.WhenParser.ParseUnary` | apps/server/src/keybindings.ts:246-265 | The loop over `!` and its count bound agree with the specification of unaries, cursor included. |
| `WhenExpressions.WhenParser.ParseAnd` | apps/server/src/keybindings.ts:267-279 | The `&&` loop agrees with the specification of conjunctions, cursor included. |
| `WhenExpressions.WhenParser.ParseOr` | apps/server/src/keybindings.ts:281-293 | The `\|\|` loop agrees with the specification of disjunctions, cursor included. |
| `WhenExpressions.ParseKeybindingWhenExpression` | apps/server/src/keybindings.ts:215-298 | The whole imperative parser computes `ParseWhen`: an AST only when every token was consumed. |
| `WhenExpressions.ParserMatchesGrammar` | apps/server/src/keybindings.ts:215-298 | A text parses to `n` if and only if its tokens derive `n` in the grammar Or, And, Unary, Primary with the nesting and not-count bounds. |
| `WhenExpressions.GrammarUnambiguous` | apps/server/src/keybindings.ts:215-298 | No token sequence derives two trees: `!` binds before `&&` before `\|\|`, and both group to the left. |
| `WhenExpressions.EncodeThenParse` | apps/server/src/keybindings.ts:413-424 | For every AST with well-formed identifiers, the printed text parses back to it exactly when its printed parenthesis depth is at most 64, and to null otherwise. |
| `WhenExpressions.ParseThenEncode` | apps/server/src/keybindings.ts:413-424 | For every text that parses, re-encoding the result is read as the same AST exactly when the AST prints within the bound. |
| `WhenExpressions.FlatChainsParseButMayNotReparse` | apps/server/src/keybindings.ts:267-279 | A flat `a&&a&&...` chain always parses, but its printed form parses only up to 64 operators; with 65 the chain has 196 characters, so a rule of legal length can turn into one that is refused. |
| `Shortcuts.SplitTokens` | apps/server/src/keybindings.ts:103-115 | The pop loop with its `+` flag computes the token list: trailing empty pieces stand for one `+` key. |
| `Shortcuts.ParseKeybindingShortcut` | apps/server/src/keybindings.ts:102-164 | The loop with its early returns computes `ParseShortcut`. |
| `Shortcuts.FromTokensMeaning` | apps/server/src/keybindings.ts:116-163 | Tokens parse to a shortcut if and only if none is empty, exactly one is no modifier word and names the key (`space` and `esc` under their other names), and each flag says whether one of its words, aliases included, occurs; order does not matter. |
| `Shortcuts.TokensMeaning` | apps/server/src/keybindings.ts:103-115 | The tokens are the trimmed lower-case pieces between the pluses, and one `+` for the empty pieces at the end, if there are any. |
| `Shortcuts.EncodeThenParse` | apps/server/src/keybindings.ts:400-411 | A shortcut has an encoding that parses back to it if and only if its key is one the parser can produce. |
| `Shortcuts.ParseThenEncode` | apps/server/src/keybindings.ts:400-411 | Whatever the parser accepts encodes to a non-empty text that parses to the same shortcut. |
| `Shortcuts.EncodingInjective` | apps/server/src/keybindings.ts:400-411 | Different parsed shortcuts have different encodings. |
| `Shortcuts.EncodingOrder` | apps/server/src/keybindings.ts:400-411 | Modifiers are printed under their first names in the order mod, meta, ctrl, alt, shift. |
| `Shortcuts.ContextMeaning` | apps/server/src/keybindings.ts:385-398 | For any two rules: they share a shortcut context if and only if both keys parse to the same shortcut and the `when` texts agree, or one shadows the other (its `when` text starts, up to a NUL, with what the other encoding has more); so the law holds for a pair exactly when neither shadows the other. |
| `Shortcuts.ShadowsByNul` | apps/server/src/keybindings.ts:385-391 | A rule that shadows another has a NUL in its `when` text. |
| `Shortcuts.NulConfusesContexts` | apps/server/src/keybindings.ts:385-391 | Rules that shadow exist, with different shortcuts in a shared context, so for rules that need not compile the law fails. |
| `KeybindingStore.ShadowingRulesDoNotCompile` | apps/server/src/keybindings.ts:301-319 | A rule that shadows another does not compile, and so never reaches the comparison. |
| `KeybindingStore.CompiledContextMeaning` | apps/server/src/keybindings.ts:301-319 | For rules that compile, the only ones the code compares, sharing a context means exactly that the keys parse to the same shortcut and the `when` texts agree, whatever characters the keys have. |
| `KeybindingStore.CompileResolvedKeybindingsConfig` | apps/server/src/keybindings.ts:321-332 | The loop yields, one by one and in order, what exactly those rules that compile do compile to. |
| `KeybindingStore.CompileRuleMeaning` | apps/server/src/keybindings.ts:301-319 | A rule compiles to `r` if and only if `r` has its command, the shortcut its key parses to (a key the schema of resolved rules takes), and, exactly if it has a `when` text, the tree that the grammar derives from that text. |
| `KeybindingStore.OnlySpaceKeyIsRefused` | apps/server/src/keybindings.ts:334-349 | Of the rules with a key of legal length whose parts parse, exactly those for the space key fail the schema check of the compiled rule and so do not compile. |
| `KeybindingStore.ModSpaceNeverCompiles` | apps/server/src/keybindings.ts:334-349 | A concrete one: `mod+space` parses, and no rule for it compiles. |
| `KeybindingStore.MergeMeaning` | apps/server/src/keybindings.ts:473-490 | The merge is the end, within the cap, of all defaults of commands without a custom rule, in order, followed by the custom rules; nothing but a front is dropped, and only beyond the cap. |
| `KeybindingStore.WrittenRulesCompile` | apps/server/src/keybindings.ts:642-725 | Loading the file that was written compiles to what the written rules compile to, also when some of them do not compile. |
| `KeybindingStore.LoadingMeaning` | apps/server/src/keybindings.ts:642-698 | The rules that are loaded are those of the usable entries of the file, in order, and every other entry is one issue. |
| `KeybindingStore.PersistedRulesOfCommand` | apps/server/src/keybindings.ts:905-909 | The file then holds, within the cap, the rules for other commands in order followed by the new ones, and only rules at the front are dropped; the rules of the command in it are exactly the new ones if and only if these fit the cap and are all rules for that command. |
| `KeybindingStore.ForeignRulesAreAccepted` | apps/server/src/keybindings.ts:942-942 | An input where they are not: replacing the rules of `chat.new` by a rule for another command leaves no rule for `chat.new`. |
| `KeybindingStore.SyncMeaning` | apps/server/src/keybindings.ts:746-834 | A startup sync writes the defaults for a missing file; for another one it writes exactly when all entries are usable and some default is not covered, and then, within the cap, the rules of the file followed by exactly the defaults that are not covered, in order. |
| `KeybindingStore.SyncCoversDefaults` | apps/server/src/keybindings.ts:746-834 | After a startup sync of a file without issues that does not truncate, whether it wrote or not, the rules of the user are a prefix and every default command is present or blocked by a shortcut conflict. |
| `KeybindingStore.SyncIsFixedPoint` | apps/server/src/keybindings.ts:746-834 | A second sync of the file such a sync wrote writes nothing. |
| `KeybindingStore.SyncKeepsUserRulesExactly` | apps/server/src/keybindings.ts:819-833 | A sync that writes keeps the rules of the user as a prefix if and only if it does not truncate. |
| `KeybindingStore.SyncRepeatsExactly` | apps/server/src/keybindings.ts:819-833 | After any sync that wrote, the next one writes nothing if and only if every default that the dropped front covered is covered by the rest (or what was written has issues). |
| `KeybindingStore.Store.GetSnapshot` | apps/server/src/keybindings.ts:720-736 | A cached snapshot is returned as it is, otherwise a fresh load; at most 256 keybindings in any case, and those of a fresh load unless the file was edited outside since. |
| `KeybindingStore.Store.RevalidateAndEmit` | apps/server/src/keybindings.ts:738-744 | Whatever happened to the file, afterwards the cache and the last published change are a fresh load of it. |
| `KeybindingStore.Store.MissingDefaultRules` | apps/server/src/keybindings.ts:773-796 | The loop collects exactly the defaults whose command is missing and whose shortcut context is free. |
| `KeybindingStore.Store.SyncDefaultsOnStartup` | apps/server/src/keybindings.ts:746-834 | From any cache, stale or not: the sync writes what `SyncWrites` says or nothing and drops the cache on every path but a failed write, so success leaves no stale cache; the file is left alone when it has issues. |
| `KeybindingStore.Store.PersistCommandRules` | apps/server/src/keybindings.ts:898-930 | From any cache: success exactly for a file that is no malformed document and can be written; then file, cache, published change and result all agree with a fresh load. On failure nothing changes. |
| `KeybindingStore.Store.UpsertKeybindingRule` | apps/server/src/keybindings.ts:941-941 | The same for the one-rule operation, from any cache. |
| `DefaultKeybindings.DefaultsCompile` | apps/server/src/keybindings.ts:61-93 | The fixed list of 40 default keybindings compiles without exception, each with the mod key. |
| `DefaultKeybindings.SyncWithDefaults` | apps/server/src/keybindings.ts:746-834 | With these defaults, for every file whose sync writes: the rules of the user stay a prefix exactly when nothing is dropped, and the next sync writes nothing exactly when every default the dropped front covered is covered by the rest. |
| `DefaultKeybindings.TruncatingSyncMayRepeat` | apps/server/src/keybindings.ts:819-833 | A concrete full file of rules that compile on which a sync with these defaults loses a rule of the user and the next sync writes again. |
| `KillOrder.Walk.Visit` | scripts/dev-runner.ts:589-594 | One depth-first visit keeps the white, grey and black sets consistent, finishes the process it was called for last, and adds only processes it reaches; it terminates on any listing. |
| `KillOrder.ComputeProcessTreeKillOrder` | scripts/dev-runner.ts:573-597 | For every listing, cyclic or with duplicates: each process reachable from the root exactly once, the root last, each child before its parent unless the child reaches the parent; empty for an unknown root. |
| `KillOrder.OrderIsKillOrder` | scripts/dev-runner.ts:586-596 | What the finished walk has collected is such an order: reachability is reached by closure, not by the call structure. |
| `KillOrder.AcyclicMeansLeavesFirst` | scripts/dev-runner.ts:573-597 | Off every cycle the order puts a child strictly before its parent. |
| `DurableFile.StepKeepsInvariant` | scripts/lib/durableFile.ts:30-53 | Each file-system step, each failure and a crash at any point keep the last committed value in the file, or in `.previous` while the file is absent. |
| `DurableFile.LastCommittedValueSurvives` | scripts/lib/durableFile.ts:30-53 | In every run, at every instant, one of the two files holds the last committed value. |
| `DurableFile.RemovingBackupIsSafeExactlyWhen` | scripts/lib/durableFile.ts:43-43 | Removing the old backup keeps that guarantee if and only if the file itself is there or nothing was ever committed. |
| `DurableFile.RunsAreDurableExactly` | scripts/lib/durableFile.ts:30-53 | Over every run, with no assumption on renames: the last committed value stays in one of the two files throughout if and only if the backup is never removed while the file is absent and something is committed. |
| `DurableFile.FallbackWithoutFileLosesData` | scripts/lib/durableFile.ts:37-50 | A run in which a rename onto an absent target fails with a fallback error loses the only copy: the assumption on renames is needed. |
| `DurableFile.ReadsAreCommittedValues` | scripts/lib/durableFile.ts:63-70 | Whatever a two-step read returns was the committed value at some moment during the read, under every interleaving with writes, failures and crashes. |
| `DurableFile.PreviousWasCommitted` | scripts/lib/durableFile.ts:41-50 | What `.previous` holds at the end of a stretch it held before, or it was the committed value within the stretch. |
| `DurableFile.ReadsMayMissTheFile` | scripts/lib/durableFile.ts:63-70 | A read can find nothing although a value is committed throughout: the law is about successful reads only. |
| `DurableFile.QuietReadsFindTheLastValue` | scripts/lib/durableFile.ts:63-70 | In every run a read between two steps finds exactly the last committed value, and nothing only if nothing was committed. |
| `DurableFile.MissedReadsMeetAWrite` | scripts/lib/durableFile.ts:63-70 | In every run a read that finds nothing although a value was committed when it began has met a write that put a new value in place. |
| `DurableFile.DurableFile.WriteContents` | scripts/lib/durableFile.ts:29-54 | The queued part of a write takes only steps of the machine. From the outcomes of its operations alone: when the new value is put in place, when success is reported, what the file and its backup then hold, and that otherwise the old value can still be read. |
| `DurableFile.DurableFile.ReplaceContents` | scripts/lib/durableFile.ts:34-50 | The same before the temporary file is removed: rename, or the fallback exactly on a fallback error; put in place and success if and only if the operations that matter succeed. |
| `DurableFile.DurableFile.ReplaceWithBackup` | scripts/lib/durableFile.ts:41-50 | The fallback puts the value in place if and only if the old backup is removed, an existing file is set aside and the second rename succeeds; success also needs the last removal; otherwise the old value can still be read. |
| `DurableFile.DurableFile.CommitReplacement` | scripts/lib/durableFile.ts:49-50 | Its last two steps: committed exactly when the rename succeeds, success exactly when the removal does too. |
| `WriteQueue.WriteQueues.Call` | scripts/lib/durableFile.ts:26-29 | A call chains onto the latest promise of its path, if there is one, and becomes it; other paths are untouched. |
| `WriteQueue.WriteQueues.Start` | scripts/lib/durableFile.ts:27-29 | A write starts only when every earlier write to its path has settled. |
| `WriteQueue.WriteQueues.Release` | scripts/lib/durableFile.ts:56-60 | The map entry is deleted only by the write it names. |
| `WriteQueue.CallKeepsOrder` | scripts/lib/durableFile.ts:26-55 | Chaining keeps the queue orderly although settled entries are deleted from the map. |
| `WriteQueue.EarlierAreSettled` | scripts/lib/durableFile.ts:26-29 | Waiting for one promise is enough: when it has settled, all earlier writes to the path have. |
| `WriteQueue.NeverOverlap` | scripts/lib/durableFile.ts:26-60 | Two writes to one path are never under way together. |
| `WriteQueue.WritesRunInCallOrder` | scripts/lib/durableFile.ts:26-60 | In every run of calls, starts, ends and releases from the empty queue: a write starts only after every earlier call for its path has settled, and two writes to one path are never under way together. |
| `WriteQueue.SomeWriteCanGoOn` | scripts/lib/durableFile.ts:26-60 | In every run, while some write has not settled, one is under way or may start: deleting settled entries never stalls the queue. |
| `WriteQueue.QueueHoldsExactly` | scripts/lib/durableFile.ts:55-60 | In every run the map holds, for each path, exactly the latest write to it, and only until the caller of that write has returned. |
| `WriteQueue.SettledMeansEnded` | scripts/lib/durableFile.ts:26-29 | In every run a write has settled if and only if it ended, whichever way; a failed write holds up no other. |
| `ConnectAccountBroker.StepKeepsInvariant` | apps/desktop/src/connectAccountBroker.ts:16-101 | Every step of every interleaving keeps: targets and sessions are tied to dials of the generation, account and environment they were started for. |
| `ConnectAccountBroker.EachGenerationShowsOneAccount` | apps/desktop/src/connectAccountBroker.ts:16-54 | Between any two moments of a run in the same generation the account shown is the same and no environment disappears. |
| `ConnectAccountBroker.CachedTargetsAreCurrent` | apps/desktop/src/connectAccountBroker.ts:72-84 | In every run a target cached under an environment id was dialled in the current generation for the account shown now, so keying by environment alone is sound. |
| `ConnectAccountBroker.DeliveriesStayInTheirGeneration` | apps/desktop/src/connectAccountBroker.ts:83-99 | In every run each target, URL and response is delivered in the generation its driver call was made in, under its account. |
| `ConnectAccountBroker.GenerationMovesExactly` | apps/desktop/src/connectAccountBroker.ts:16-48 | The generation moves on, by one, if and only if there is an invalidation or an answer of this generation takes away the account shown or one of its environments; refreshes that keep them change nothing. |
| `ConnectAccountBroker.EpochsTellInvalidation` | apps/desktop/src/connectAccountBroker.ts:23-33 | Over every run: comparing a captured epoch with the generation tells exactly whether an invalidation came in between. |
| `ConnectAccountBroker.ShownIsLastAnswer` | apps/desktop/src/connectAccountBroker.ts:33-47 | Over every run: what is shown is the last answer accepted since the last invalidation, or nothing. |
| `ConnectAccountBroker.PendingExactly` | apps/desktop/src/connectAccountBroker.ts:28-54 | In every run a call of discover joins the latest driver call exactly while that is of this generation and has not run its `finally`: one at a time, and a finished one is never joined. |
| `ConnectAccountBroker.CachedTargetIsTheOpenOne` | apps/desktop/src/connectAccountBroker.ts:74-82 | In every run the cached target of an environment is the one driver call of this generation for it that has not failed: calls are shared, and after a failure the next connect dials again. |
| `ConnectAccountBroker.DialsEndAsAnswered` | apps/desktop/src/connectAccountBroker.ts:76-83 | In every run a driver call counts as answered or failed exactly if that is what happened. |
| `ConnectAccountBroker.DeliversExactly` | apps/desktop/src/connectAccountBroker.ts:83-98 | In every run a target, URL or response that comes back is handed out if and only if no invalidation came since its session began; otherwise nothing changes. |
| `ConnectAccountBroker.RequestsExactly` | apps/desktop/src/connectAccountBroker.ts:87-96 | In every run a request is passed on to the driver if and only if no invalidation came since its session began. |
| `ConnectAccountBroker.Broker.Invalidate` | apps/desktop/src/connectAccountBroker.ts:16-22 | The four fields change as in the state machine, whose invariant holds. |
| `ConnectAccountBroker.Broker.Discover` | apps/desktop/src/connectAccountBroker.ts:28-54 | A discovery under way is joined, otherwise a new one is started in the current epoch. |
| `ConnectAccountBroker.Broker.OnDiscovered` | apps/desktop/src/connectAccountBroker.ts:33-48 | An answer of the present generation is what is shown afterwards, and invalidates first exactly when the account changes or an environment vanishes; a late one changes nothing. |
| `ConnectAccountBroker.Broker.Connect` | apps/desktop/src/connectAccountBroker.ts:72-83 | Up to its await, connect captures the epoch, reuses or starts the dial of the environment, and throws exactly when the account is not the one shown. |
| `ConnectAccountBroker.Broker.OnDialRejected` | apps/desktop/src/connectAccountBroker.ts:77-80 | A failed dial removes its own cache entry and never that of a later one. |
| `ConnectAccountBroker.Broker.ResumeConnect` | apps/desktop/src/connectAccountBroker.ts:83-84 | After its await, connect hands out the target exactly when epoch and account are still current. |
| `ConnectAccountBroker.Broker.ResumeRequest` | apps/desktop/src/connectAccountBroker.ts:87-98 | A URL or response is handed out exactly when epoch and account are still current after the await. |
| `ConnectAccountTransport.StepKeepsInvariant` | apps/desktop/src/connectAccountTransport.ts:30-131 | Every step of the composed broker and transport keeps the invariant on routes, tickets, sockets and upgrades. |
| `ConnectAccountTransport.LiveTunnelsAreCurrent` | apps/desktop/src/connectAccountTransport.ts:72-127 | In every run a live tunnel has its route in the table and both its ends registered; the connection behind it is that of the route, for its account and environment, made in the current generation, and for the account shown now, although a route may be added after an invalidation. |
| `ConnectAccountTransport.TicketsAreSingleUse` | apps/desktop/src/connectAccountTransport.ts:40-69 | In every run no ticket admits two upgrades, and none after its expiry. |
| `ConnectAccountTransport.AdmissionNeedsRoute` | apps/desktop/src/connectAccountTransport.ts:55-70 | An upgrade is admitted exactly when its ticket is present and unexpired, its route exists and the origin is trusted; the ticket is spent in any case. Admitted, it is registered with the session of its route; refused, its socket is destroyed. |
| `ConnectAccountTransport.TicketsAdmitExactly` | apps/desktop/src/connectAccountTransport.ts:40-69 | In every run an issued ticket admits its first trusted presentation within 30 seconds, whatever other tickets are issued meanwhile, if and only if no invalidation came in between; then for the route it was issued for. |
| `ConnectAccountTransport.UpgradesGoOnExactly` | apps/desktop/src/connectAccountTransport.ts:72-127 | In every run, while its socket lives: an upgrade gets its URL exactly when its session is of the present generation, and then goes on whenever it is answered, to become a tunnel with both ends registered. |
| `ConnectAccountTransport.UpgradesEnd` | apps/desktop/src/connectAccountTransport.ts:72-131 | An upgrade that fails, or whose socket is gone where that is looked at, ends; whenever one ends its socket is destroyed, and with it the upstream socket that was about to be tied to it. |
| `ConnectAccountTransport.TunnelsLiveOn` | apps/desktop/src/connectAccountTransport.ts:111-127 | In every run a live tunnel goes on living if and only if no invalidation comes and none of its own ends is destroyed; nothing that happens to other upgrades, tickets or routes ends it. |
| `ConnectAccountTransport.ClosingTakesOtherEnd` | apps/desktop/src/connectAccountTransport.ts:71-119 | When one end of a tunnel closes it is no longer registered, and the other end is destroyed. |
| `ConnectAccountTransport.InvalidationKillsEverything` | apps/desktop/src/connectAccountTransport.ts:30-38 | Right after an invalidation there is no route, ticket or registered socket, the socket of every open upgrade and both ends of every tunnel are destroyed, and no upgrade begun before it ever becomes a live tunnel. |
| `ConnectAccountTransport.RoutesAreCurrentExactly` | apps/desktop/src/connectAccountTransport.ts:153-162 | In every run a route in the table is current if and only if its target was delivered in the generation the broker is in now. |
| `ConnectAccountTransport.StaleRoutesStayStale` | apps/desktop/src/connectAccountTransport.ts:151-176 | In every run a stale route never becomes current; it stays in the table, to be found by every later lookup, until the next invalidation, and no upgrade on it gets past its first check. |
| `ConnectAccountTransport.StaleRoutesHappen` | apps/desktop/src/connectAccountTransport.ts:157-160 | A run in which the account changes between the delivery of a target and the insertion of its route, which leaves a stale route. |
| `ConnectAccountTransport.DropExpired` | apps/desktop/src/connectAccountTransport.ts:41-44 | The loop keeps exactly the unexpired tickets. |
| `ConnectAccountTransport.Transport.Invalidate` | apps/desktop/src/connectAccountTransport.ts:30-38 | Tables emptied, every registered socket destroyed. |
| `ConnectAccountTransport.Transport.FindRoute` | apps/desktop/src/connectAccountTransport.ts:153-155 | The lookup finds a route of the account and environment if and only if there is one. |
| `ConnectAccountTransport.Transport.IssueTicket` | apps/desktop/src/connectAccountTransport.ts:40-48 | The new ticket is stored with its expiry after the expired ones were dropped. |
| `ConnectAccountTransport.Transport.OnUpgrade` | apps/desktop/src/connectAccountTransport.ts:52-71 | The handler up to its await: the ticket is consumed first, then all five checks decide. |
| `ConnectAccountTransport.Transport.OnAuthorizedUrl` | apps/desktop/src/connectAccountTransport.ts:74-78 | The check after the URL arrives: socket and route still there, or both given up. |
| `ConnectAccountTransport.Transport.OnUpstream` | apps/desktop/src/connectAccountTransport.ts:105-127 | The check after the upstream answers; only then are the two sockets tied together. |
| `UpdateManifest.CollapseUndoesDouble` | scripts/lib/update-manifest.ts:22-27 | Collapsing doubled quotes undoes doubling them, for every text, adjacent and trailing quotes included. |
| `ManifestGrammar.CollapseMeaning` | scripts/lib/update-manifest.ts:22-27 | In every text: of each longest run of quotes half remain, rounded up, and the text around it stays. |
| `UpdateManifest.ParsePrintedScalar` | scripts/lib/update-manifest.ts:54-65 | Every printed scalar is read back as itself, so quoting keeps strings apart from numbers and booleans. |
| `UpdateManifest.ParseUpdateManifest` | scripts/lib/update-manifest.ts:67-186 | The line loop over the mutable record computes `Parse`, errors included. |
| `ManifestGrammar.ParserMatchesGrammar` | scripts/lib/update-manifest.ts:67-186 | A text is parsed to `m` if and only if its lines spell `m`: a file entry reaches to the next url or top-level line and needs a digest and a size, the last line for a key counts, lines for `path` and `sha512`, blank lines and further `files:` lines say nothing, and carriage returns do not matter. |
| `ManifestGrammar.BuilderManifestsParse` | scripts/lib/update-manifest.ts:67-186 | Every manifest of the shape builders write, with a bare version, `path` and top-level `sha512`, is read as its version, date and files. |
| `ManifestGrammar.ScalarMeaning` | scripts/lib/update-manifest.ts:54-65 | A value is read as what it says: quoted text as a string without its quotes, bare text as a boolean, a decimal number, or itself. |
| `ManifestGrammar.NumberMeaning` | scripts/lib/update-manifest.ts:61-63 | A text is read as a number if and only if it is a decimal numeral for it, sign and zeros at the end included. |
| `ManifestGrammar.ErrorsNameTheirCause` | scripts/lib/update-manifest.ts:86-150 | Each kind of error is reported only for a line, and a state, that it names. |
| `UpdateManifest.ParseYieldsParsed` | scripts/lib/update-manifest.ts:67-186 | What any text parses to: one-line fields, at least one file, legal extra keys, canonical numbers. |
| `UpdateManifest.SortKeys` | scripts/lib/update-manifest.ts:264-264 | The extra keys in strictly ascending order, none lost. |
| `UpdateManifest.SerializeUpdateManifest` | scripts/lib/update-manifest.ts:250-278 | The printer produces the lines of the manifest with its extras in ascending key order. |
| `ManifestGrammar.SerializationText` | scripts/lib/update-manifest.ts:250-278 | The printed text, character for character, for every manifest. |
| `UpdateManifest.SerializeThenParse` | scripts/lib/update-manifest.ts:250-278 | A manifest is read back from its serialization if and only if it is well formed: what a parse can yield, with file fields that are non-blank, trimmed and not wrapped in single quotes. |
| `ManifestMerge.MergeExtras` | scripts/lib/update-manifest.ts:188-206 | The loop computes the union of the extras or finds a conflict, inherited names of a plain object included. |
| `ManifestMerge.MergeFiles` | scripts/lib/update-manifest.ts:219-228 | The map loop keeps each url once, in order of first occurrence, and fails exactly when a url has two different entries. |
| `ManifestMerge.MergeUpdateManifests` | scripts/lib/update-manifest.ts:208-237 | The method computes `Merge`, errors in the order of the code. |
| `ManifestMerge.MergeMeaning` | scripts/lib/update-manifest.ts:208-237 | It succeeds exactly when versions agree, no url or extra key has two values, and inherited names of the second are covered by the first; the result has all files, each url once where it first occurs and in that order, all extras, and the later date. |
| `ManifestMerge.MergeAssociative` | scripts/lib/update-manifest.ts:208-237 | Both groupings of three give the same outcome, file order and failure included, if and only if, should all three agree, the second manifest has every inherited name the third has. |
| `ManifestMerge.MergeCommutative` | scripts/lib/update-manifest.ts:208-237 | Swapping gives the same manifest up to file order, and fails in the same cases exactly up to inherited names. |
| `ManifestMerge.MergeIdempotent` | scripts/lib/update-manifest.ts:208-237 | Merging a manifest with itself gives it back if and only if its urls are distinct. |
| `ManifestMerge.InheritedNamesConflict` | scripts/lib/update-manifest.ts:188-206 | Two manifests with one shared file that agree on everything fail to merge in one order only: an extra called `constructor` meets an inherited property. |
| `PrMedia.AcceptedBodies` | scripts/lib/prMedia.ts:63-76 | A body is accepted exactly when it has no marker, or exactly one start marker before exactly one end marker. |
| `PrMedia.ReplaceManaged` | scripts/lib/prMedia.ts:76-80 | In a body with a managed section only the section changes: the text before and after stays character for character. |
| `PrMedia.ReplaceUnmanaged` | scripts/lib/prMedia.ts:76-80 | To a body without markers the section is appended, after its trailing space was cut and a blank line. |
| `PrMedia.PlacedMarkers` | scripts/lib/prMedia.ts:64-80 | The markers in a spliced body are the two that were put there and those inside the section: none forms across a seam. |
| `PrMedia.PlacedShape` | scripts/lib/prMedia.ts:63-80 | The result has exactly one managed section when the section is free of markers, and is ambiguous from then on when it is not. |
| `PrMedia.ReplaceTwice` | scripts/lib/prMedia.ts:63-80 | For every accepted body: a second replacement is accepted if and only if the first section is free of markers, and then gives what replacing once with the second gives. |
| `PrMedia.SectionIsFree` | scripts/lib/prMedia.ts:46-61 | A rendered section contains a marker exactly when the head or a url does; file names cannot bring one in. |
| `PrMedia.SectionMeaning` | scripts/lib/prMedia.ts:46-61 | A section is made if and only if there are captures and all are uploaded; then it is the heading, the line about the head, and a paragraph for each capture, in order. |
| `PrMedia.ImagesAreEmbedded` | scripts/lib/prMedia.ts:53-58 | PNG and JPEG captures are embedded as images; videos are given by their label and a bare url. |
| `PrMedia.LabelMeaning` | scripts/lib/prMedia.ts:55-55 | A label is the file name with one space for each run of white space, without the six characters of markup, everything else kept in order. |
| `PrMedia.SnapshotsAccepted` | scripts/lib/prMedia.ts:121-138 | A pull request passes the check if and only if its head is the recorded one and its body contains the section between the two markers; the separate look for each url adds nothing. |
| `PrMedia.VerifiesExactlyWhatWasWritten` | scripts/lib/prMedia.ts:121-138 | A body that replacing produced passes the published-body check for the section written into it and, that section being free of markers, for no other one. |
| `PrMedia.UploadMissing` | scripts/lib/prMedia.ts:97-107 | The upload loop: uploads exactly missing urls in ascending order, saves after each, and stops only when an upload or a save fails. |
| `PrMedia.PublishPrMedia` | scripts/lib/prMedia.ts:87-114 | The body is written exactly when all is uploaded and saved and the head has not moved; success is reported exactly when both later checks pass and every file downloads with its recorded size and digest. |
| `PrMedia.ResumeUploadsTheRest` | scripts/lib/prMedia.ts:99-107 | From any saved publication a new run uploads exactly what was still missing there. |
| `PrMedia.VerifyContent` | scripts/lib/prMedia.ts:165-184 | Reading chunk by chunk and stopping early accepts a file exactly when its content is complete and has the recorded size and digest. |
| `PrMedia.VerifyPrMedia` | scripts/lib/prMedia.ts:144-185 | With retries on 404 only and at most six attempts, a file is accepted exactly when its url is an attachment and the first other answer delivers the recorded content. |
| `PrMedia.VerifyPrMediaPublication` | scripts/lib/prMedia.ts:116-142 | Succeeds exactly when both readings of the pull request show the publication and every file downloads as recorded. |
| `PrMedia.WrittenBodyChecks` | scripts/lib/prMedia.ts:108-113 | A pull request that shows the written body passes the check. |
| `ListeningDetector.WindowSuffices` | apps/desktop/src/serverListeningDetector.ts:42-50 | Searching the last `window` characters and the new text agrees with searching the whole stream, for every stream and text, if and only if the pattern is at most one longer than the window. |
| `ListeningDetector.OutcomeMeaning` | apps/desktop/src/serverListeningDetector.ts:20-55 | The promise is settled by the first event that is a failure or completes the fragment in the whole stream, and pends while there is none. |
| `ListeningDetector.OutcomeStays` | apps/desktop/src/serverListeningDetector.ts:20-33 | Once settled it never changes. |
| `ListeningDetector.CutsDoNotMatter` | apps/desktop/src/serverListeningDetector.ts:36-51 | However the output is cut into chunks, the detector has resolved exactly when the whole output without carriage returns contains the fragment. |
| `ListeningDetector.RemoveCrMeaning` | apps/desktop/src/serverListeningDetector.ts:42-42 | Exactly the carriage returns are removed, everything else stays in order. |
| `ListeningDetector.ServerListeningDetector.Push` | apps/desktop/src/serverListeningDetector.ts:36-51 | With its truncated buffer the class keeps the promise of the detector that searches everything. |
| `ListeningDetector.ServerListeningDetector.Fail` | apps/desktop/src/serverListeningDetector.ts:53-55 | A failure rejects a pending promise and changes no settled one. |
| `ReleaseTags.CompareStableVersions` | scripts/resolve-previous-release-tag.ts:46-69 | The index loop computes `CompareStable`. |
| `ReleaseTags.StableOrdered` | scripts/resolve-previous-release-tag.ts:30-69 | For every collation that is a preorder, the comparison of stable versions is one: antisymmetric in sign and transitive. |
| `ReleaseTags.NightlyOrdered` | scripts/resolve-previous-release-tag.ts:92-98 | The comparison of nightly versions is a total order: zero only for equal versions, and below zero exactly for the earlier one by numbers, then date, then run. |
| `ReleaseTags.ComparisonIsPrecedence` | scripts/resolve-previous-release-tag.ts:30-69 | Its sign is the precedence of section 11 of Semantic Versioning 2.0.0, defined independently by the first identifiers that differ, with the order of strings left as the collation that the code uses. |
| `TagPrecedence.ComparisonIsStandardExactly` | scripts/resolve-previous-release-tag.ts:30-90 | The code orders all tags that parse by the precedence of the standard, ASCII order included, if and only if the collation agrees with ASCII order on the non-numeric identifiers that tags can have. |
| `TagPrecedence.CollationsDisagree` | scripts/resolve-previous-release-tag.ts:43-43 | With a collation that ignores letter case the two differ: 1.0.0-beta then precedes 1.0.0-RC, and by the standard follows it. |
| `TagPrecedence.CollationsResolveDifferently` | scripts/resolve-previous-release-tag.ts:118-137 | It shows in the answer: before v1.0.0-RC, of v0.9.0 and v1.0.0-beta, such a collation picks v1.0.0-beta and ASCII order v0.9.0. |
| `ReleaseTags.MatchStableExact` | scripts/resolve-previous-release-tag.ts:71-90 | The stable tag pattern matches a tag with groups `g` if and only if printing valid groups `g` gives the tag. |
| `ReleaseTags.MatchNightlyExact` | scripts/resolve-previous-release-tag.ts:100-117 | The same for the nightly pattern, with and without its legacy prefix. |
| `ReleaseTags.VersionOfStableTag` | scripts/resolve-previous-release-tag.ts:71-90 | Every stable tag has, field by field, the version written in it; build metadata says nothing, and a `nightly` prerelease is none. |
| `ReleaseTags.VersionOfNightlyTag` | scripts/resolve-previous-release-tag.ts:100-116 | Every nightly tag, with or without its legacy prefix, has, field by field, the version written in it. |
| `ReleaseTags.ChannelsAreDisjoint` | scripts/resolve-previous-release-tag.ts:78-82 | No tag is a release of both channels. |
| `ReleaseTags.SortedIsSorted` | scripts/resolve-previous-release-tag.ts:135-135 | The stable sort used to choose a tag gives an ordered permutation. |
| `ReleaseTags.PickMeaning` | scripts/resolve-previous-release-tag.ts:129-137 | Filter, sort and first element: nothing exactly when there is no candidate, else the first listed of the greatest candidates. |
| `ReleaseTags.ResolveMeaning` | scripts/resolve-previous-release-tag.ts:118-152 | On both channels, in the order of the code: an error exactly for an invalid current tag, nothing exactly when no tag precedes it, otherwise a tag that precedes it with none in between, the first such in the listing. |
| `Attachments.SegmentIsSegment` | apps/server/src/attachmentStore.ts:21-34 | A segment has at most 80 characters from a-z, 0-9, `_` and `-`, no double dash, and no dash or underscore at its ends. |
| `Attachments.SegmentMeaning` | apps/server/src/attachmentStore.ts:21-34 | What a text becomes: its word characters in lower case and in order, one dash for each run of others, stripped of dashes and underscores at both ends and cut at the limit; nothing if and only if it has no letter and no digit. |
| `Attachments.SegmentsAreFixed` | apps/server/src/attachmentStore.ts:21-34 | Slugging leaves a text as it is if and only if it is such a segment; in particular it is idempotent. |
| `Attachments.MatchExact` | apps/server/src/attachmentStore.ts:14-19 | The id pattern matches with a segment and a UUID if and only if the id is the two joined by a dash and both fit their patterns. |
| `Attachments.SegmentMatchesPattern` | apps/server/src/attachmentStore.ts:14-14 | Every segment is words joined by single dashes, as the id pattern wants. |
| `Attachments.CreateThenParse` | apps/server/src/attachmentStore.ts:36-54 | For every thread id and every UUID, parsing the created id gives exactly the segment of the thread id. |
| `Attachments.ParseMeaning` | apps/server/src/attachmentStore.ts:44-54 | Of names without slash, backslash and dot exactly the ids are parsed, whatever their letter case, and to their segment in lower case. |
| `Attachments.CreatedIdsAreDistinct` | apps/server/src/attachmentStore.ts:36-42 | Created ids are equal only when segments and UUIDs are. |
| `NestedThreads.OutcomeIsTrue` | apps/server/src/nestedThreadCreation.ts:113-206 | Against a backend where success means committed and a definitive error means not committed, and nothing is known of other failures: created means the thread and its turn are live, retryable means nothing is left behind, and a thread that is left behind is named. |
| `NestedThreads.RetryableExactly` | apps/server/src/nestedThreadCreation.ts:113-206 | An outcome is retryable if and only if in every course of events that explains what the caller saw nothing was left behind. |
| `NestedThreads.CleanupOnlyAfterRejection` | apps/server/src/nestedThreadCreation.ts:155-169 | Cleanup runs exactly when the thread was created and the turn cannot have been accepted. |
| `NestedThreads.OutcomeNamesLastFailure` | apps/server/src/nestedThreadCreation.ts:98-206 | The report is about the last call that failed, with its message, and is ambiguous exactly when that failure is, in particular when it came without an error; it carries the workspace flag, the thread, its url, and a cleanup exactly where one succeeded. |
| `NestedThreads.RetriesAreSafe` | apps/server/src/nestedThreadCreation.ts:113-206 | A caller that retries only on retryable outcomes never has more than one live thread, nor more than one accepted turn, at any moment of any number of attempts. |

## Left out

- Letter case, white space and digits are modelled for ASCII letters and the white space of the
  language; Unicode case folding, surrogate pairs and UTF-8 decoding across chunks are not.
- Schema checks of keybinding rules as they are read (lengths, trimming, command names), JSON text,
  issue wording and log messages: entries either decode or do not. The check of the compiled key is
  modelled.
- Effect interruption between writing the file and setting the cache, and file-watch events other
  than as edits from outside followed by a revalidation.
- Failures of reading the keybindings file or asking whether it exists.
- Text of errors and line numbers in manifest errors; numbers in exponent or hexadecimal notation,
  beyond double precision, or signed with a plus.
- The conflicts and duplicates that a startup sync only logs.
- DurableFile.ReadsAreCommittedValues: says nothing about reads that find no file, because
  `DurableFile.ReadsMayMissTheFile` shows that they happen, though only during a write
  (`DurableFile.MissedReadsMeetAWrite`); other read errors are not modelled.
- File modes, and permission or space failures other than as a failed step.
- Plain HTTP requests through the transport and their abort controllers; starting and closing its
  server.
- Header and URL rewriting of tunnelled upgrades, and the bytes that flow through a tunnel.
- Login and logout of the driver: they appear as the invalidations and discoveries they make.
- Extras that hold non-finite numbers: the type of scalars has only decimals.
- The pauses and the time limit of downloads, and checks of a capture before it is uploaded.
- Which of several routes of one account and environment a lookup finds.
- Loss of precision in very long digit runs of version numbers, which are naturals here.
- Thread ids with non-ASCII letters that lower-case into ASCII, which count as unsafe characters
  here; looking attachment files up on disk, and their extensions.
- The fixed wording of outcome messages of nested threads; the batch and dry-run outcomes.
- Window, menu, zoom and mobile code, build and release scripts, reducers and settings: plumbing, or
  settled by reading one branch.

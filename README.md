# Intox-system, modelled in Dafny

Intox-system is a SillyTavern extension. For every chat and every character in
it, it keeps two scores on a 0–100 scale: intoxication and arousal. It turns them
into a single SYSTEM prompt and injects that prompt into the chat.

The model covers the extension's core in `index.js`:

- **Identity keys** (`identity.dfy`, module `Identity`): normalizeCharacterKey
  ``String(name || 'Unknown').trim().toLowerCase()``. The trim follows
  String.prototype.trim's set of white-space characters.
- **Discovery** (`discovery.dfy`, module `Discovery`): discoverCharactersInChat.
  - There are three passes: the message log, then the current character and
    the group, then the chat display. Each pass sets names into one
    insertion-ordered Map keyed by identity key.
  - If nothing is found, the result is the default identity `character` /
    `Character`.
  - The imperative `Discover` is proved equal to the pure `Resolve`.
- **Records** (`records.dfy`, module `Records`): the record
  `{name, intoxication, arousal, updatedAt}`, a chat's bucket, and clamp01.
- **Reconciliation** (`reconciler.dfy`, module `Reconciler`): getChatBucket,
  ensureCharacterEntry, and the loop that runs it for every discovered
  identity. It only merges and never prunes. `Merged` is a key-by-key reference
  definition, and the loop is proved equal to it.
- **Edits** (`edits.dfy`, module `Edits`): the bucket changes behind "Reset all
  to 0", a row's "Reset", a row's "Forget", and a slider's setVal.
- **Prompt** (`prompt.dfy` and `text.dfy`, modules `Prompt` and `Text`):
  buildSystemPrompt.
  - It writes the seven header lines, then one line per record. The records
    are sorted case-insensitively by name, and each line shows the clamped
    scores.
  - The lines are joined with `'\n'`.
  - `Text` holds the join, its inverse `split`, and the decimal rendering.
- **Injection** (`injection.dfy`, module `Injection`): injectPromptForChat's
  three calling conventions, tried in order:
  1. `(key, prompt, {type, role})`;
  2. `(key, prompt, type, role)`;
  3. `(prompt, type)`.

  A host without a setter gets nothing. The host's prompt table is modelled as
  a map, so the module can state the single-slot guarantee of the one
  `intox-system:state` key.
- **State** (`store.dfy`, class `StoreState.Store`): the mutable `state`.
  - It holds the chats and `ui.lastKnownChatId`, with loadState and the
    operations that update them in place: getChatBucket, ensureCharacterEntry,
    buildSystemPrompt, injectPromptForChat, renderUI (without the DOM),
    reconcileAndInject, the chat-swap observer, and the panel's handlers.
  - Each method states its full new state in terms of the pure functions
    above.
  - The calls they make, and the prompt they deliver, are stated with
    `Injection.Tried` and `Injection.Delivered`.

Two facts about the code worth knowing:

- **Display names are printed as stored.** No case is changed in the prompt,
  so `Prompt.OrderingExample` prints `alice` before `Bob`.
- **buildSystemPrompt is not pure.** It calls getChatBucket, which creates an
  empty bucket for a chat that has none. `Store.BuildSystemPrompt` models
  that.

## Model

| member | source | states |
|---|---|---|
| Identity.Trim | index.js:95 | The result is the infix of the name left after dropping white space at both ends. Everything dropped is white space, and the result has no white space at either end. |
| Identity.Lower | index.js:95 | `toLowerCase`, on ASCII letters: the result has the same length, no upper-case letter, and each character is the lowered character of the name. |
| Identity.TrimFixedPoint | index.js:95 | A string is its own trim exactly when it has no white space at either end. |
| Identity.Fold | index.js:95 | The trimmed, lower-cased form of a name is key-shaped (trimmed, no upper-case letters) and no longer than the name. |
| Identity.NormalizeKey | index.js:93-96 | A truthy name gives the fold of the name. A missing or empty name gives "unknown". The key is key-shaped either way. |
| Identity.FoldFixedPoint | index.js:93-96 | Folding leaves a string unchanged exactly when it is already key-shaped. |
| Identity.FoldIdempotent | index.js:93-96 | Folding twice is folding once. |
| Identity.NormalizeIdempotentIff | index.js:93-96 | Normalising a key again returns it exactly when the key is not empty. |
| Identity.BlankNameGivesEmptyKey | index.js:93-96 | The exception: a blank name normalises to "", which then normalises to "unknown". |
| Identity.FoldOfTrim | index.js:143-146 | A display name that is reported trimmed still has the key of the untrimmed name. |
| Identity.LastNameSpec | index.js:101-146 | The name a table keeps for key k is present exactly when k was reported, and it comes from the last report of k. |
| Discovery.MergeAll | index.js:101-146 | Setting the reports one after another into the Map keeps the table well formed: every key listed once, and every key in the order. |
| Discovery.MergeAllSpec | index.js:101-146 | The merged Map holds exactly the reported keys. Each key's name is the one carried by that key's last report. |
| Discovery.MessageName | index.js:108 | A message's name is its first truthy field of name, character_name, author and from, and it is truthy exactly when one of them is. |
| Discovery.NodeName | index.js:143 | A display node's name is its data-author attribute when that is truthy, and its text otherwise. |
| Discovery.Set | index.js:111 | `Map.prototype.set` of one report, as at index.js:111, 123, 132, 146 and 154. It has no `ensures` of its own: `Discovery.Put` states that it replaces the name, appends a new key and keeps a known key's position, and `Discovery.MergeAllSpec` states the result of setting every report. |
| Discovery.Values | index.js:157 | `[...out.values()]`, in insertion order. It has no `ensures` of its own: `Discovery.ResolveLastWins` and `Discovery.ResolveUnique` state which identities it lists. |
| Discovery.Resolve | index.js:98-158 | The pure discoverCharactersInChat. It has no `ensures` of its own: `Discovery.ResolveLastWins`, `Discovery.ResolveFallback` and `Discovery.ResolveUnique` state its result, and `Discovery.Discover` is proved equal to it. |
| Discovery.Put | index.js:111 | `out.set`: the name is replaced. A new key goes last, and a known key keeps its position. |
| Discovery.ScanMessages | index.js:104-116 | The message pass sets each message's first truthy author field, in log order. |
| Discovery.ScanCharacter | index.js:120-124 | The current character is set when its name is truthy. |
| Discovery.ScanGroup | index.js:126-134 | Each group member with a truthy name is set, in roster order. |
| Discovery.ScanNodes | index.js:140-150 | Each display node's data-author or text is set, trimmed, in document order. |
| Discovery.Discover | index.js:98-158 | The imperative passes return exactly `Resolve` of the sources: the Map's values, or the default identity when the Map stayed empty. |
| Discovery.ReportsEmptyIff | index.js:103-153 | The passes report nothing exactly when no source holds a truthy name. |
| Discovery.ResolveFallback | index.js:152-155 | With no names at all, discovery yields exactly the default identity. |
| Discovery.ResolveLastWins | index.js:101-157 | When some name is found, there is no default identity and the keys are exactly the reported keys. Each identity carries the name of the last report of its key. |
| Discovery.ResolveUnique | index.js:157 | Discovery yields at least one identity and never two with the same key. |
| Discovery.ResolveNonEmpty | index.js:152-157 | Discovery never yields an empty list. |
| Discovery.ReportsFolded | index.js:103-150 | Every report pairs a name with the key folded from it. |
| Discovery.ResolveKeysFolded | index.js:101-157 | Every identity's key is the fold of the display name it carries, including the default identity. |
| Discovery.SentinelFolded | index.js:154 | The default identity's key is the fold of its name. |
| Records.Put | index.js:374 | Writing one score changes that score only. |
| Records.Clamp01 | index.js:186-190 | The result lies in [0, 100]. A value not a number gives 0, a value below 0 gives 0, a value above 100 gives 100, and a value in range is kept. |
| Records.ClampIdempotent | index.js:186-190 | Clamping a clamped value changes nothing. |
| Reconciler.BucketOf | index.js:160-163 | The bucket getChatBucket returns, empty for a chat without one. It has no `ensures` of its own: `StoreState.Store.GetChatBucket` states that the store creates it on first use and changes nothing else. |
| Reconciler.EnsureEntry | index.js:166-181 | A known key keeps its scores and time and takes the new name. An unknown key gets a record at zero stamped now. No other record changes. |
| Reconciler.ReconcileBucket | index.js:449-450 | The loop `for (const c of chars) ensureCharacterEntry(chatId, c)`, also run by renderUI at index.js:290. It has no `ensures` of its own: `Reconciler.ReconcileIsMerged` proves it equal to `Merged`, and `Reconciler.ReconcileKeys`, `Reconciler.ReconcileKeepsValues`, `Reconciler.ReconcileNames`, `Reconciler.ReconcileIdempotent` and `Reconciler.ReconcileInRange` state its effect. |
| Reconciler.MergedSnoc | index.js:449-450 | One more ensureCharacterEntry on the reference bucket gives the reference bucket of the longer candidate list. |
| Reconciler.ReconcileIsMerged | index.js:449-450 | The loop over the candidates computes the key-by-key reference definition `Merged`. |
| Reconciler.ReconcileKeys | index.js:449-450 | Reconciliation removes nothing. It adds exactly the candidate keys the bucket lacked. |
| Reconciler.ReconcileKeepsValues | index.js:168-173 | Reconciliation never changes an existing record's scores or timestamp. A record no candidate names stays exactly as it was. |
| Reconciler.ReconcileNames | index.js:169-179 | A candidate's record carries the name of the last candidate with its key. A new record starts at zero, stamped now. |
| Reconciler.ReconcileIdempotent | index.js:445-454 | A second pass with the same candidates, at any later time, changes nothing, field for field. |
| Reconciler.ReconcileInRange | index.js:166-181 | Reconciliation keeps every score in [0, 100]. |
| Edits.Zeroed | index.js:333-335 | One record reset: both scores 0 and the time written, as at index.js:333-335 and 402-404. It has no `ensures` of its own: `Edits.ResetAllBucket`, `Edits.ResetOneBucket` and `Prompt.ZeroLine` state what a zeroed record is and how it prints. |
| Edits.ResetAllBucket | index.js:331-336 | Every record's scores go to 0 and its name is kept. No record is added or removed. |
| Edits.ResetOneBucket | index.js:399-404 | Only the named record is zeroed, and only when it exists. |
| Edits.ForgetBucket | index.js:418 | Exactly the one key is removed, and every other record is unchanged. |
| Edits.SetValBucket | index.js:367-376 | The clamped value goes into the one field. A missing record is first created at zero. The row's name and the time are written. No other record changes. |
| Edits.ResetEachSpec | index.js:399-404 | Resetting rows one after another zeroes exactly the listed records that exist. |
| Edits.ResetAllIsResetEachRow | index.js:331-336 | "Reset all to 0" equals a row "Reset" on every row, in any order. |
| Edits.EditsKeepRange | index.js:331-418 | Every edit keeps every score in [0, 100]. |
| Edits.ForgetThenReconcile | index.js:414-422 | After "Forget" and the re-render, a character that is still discovered is back at zero with the discovered name, and one that is not is gone. |
| Edits.ResetAllThenReconcile | index.js:330-339 | After "Reset all to 0" and the re-render, every record, old or newly discovered, is at zero. |
| Text.StrLeTotal | index.js:196 | The string order is total. |
| Text.StrLeAntisymmetric | index.js:196 | The string order is antisymmetric. |
| Text.StrLeTransitive | index.js:196 | The string order is transitive. |
| Text.Join | index.js:213 | `lines.join('\n')`. It has no `ensures` of its own: `Text.SplitJoin`, `Text.JoinSplit` and `Text.JoinAppend` state it. |
| Text.Split | index.js:213 | `split('\n')` always returns at least one piece. |
| Text.SplitJoin | index.js:213 | Joining lines that contain no newline, then splitting, gives the lines back. |
| Text.JoinSplit | index.js:213 | Splitting, then joining, gives the text back. |
| Text.JoinAppend | index.js:213 | Joining two non-empty runs of lines puts exactly one newline between them. |
| Text.SplitAppend | index.js:213 | A newline splits a text into the pieces before it and the pieces after it. |
| Text.SplitJoinAppend | index.js:198-213 | Appending newline-free lines to the lines adds exactly those lines to the split of the joined text. |
| Text.Decimal | index.js:210 | A score prints as a non-empty run of digits with no leading zero. |
| Text.DecimalRoundTrip | index.js:210 | Reading the printed digits back gives the score. |
| Prompt.EntryLeTotal | index.js:196 | Any two entries are comparable in display order. |
| Prompt.EntryLeTransitive | index.js:196 | Display order is transitive. |
| Prompt.EntryLeAntisymmetric | index.js:196 | Two entries that precede each other have the same key. |
| Prompt.EntryLe | index.js:196 | The sort comparator, with localeCompare replaced as stated under "## Left out". It has no `ensures` of its own: `Prompt.EntryLeTotal`, `Prompt.EntryLeTransitive` and `Prompt.EntryLeAntisymmetric` show it is a total order, and `Prompt.ListingSorted` that the listing follows it. |
| Prompt.MinKeyUnique | index.js:196 | At most one key comes first in display order. |
| Prompt.MinKey | index.js:196 | The chosen key's entry precedes every entry of the bucket. |
| Prompt.Listing | index.js:194-196 | The listing has one entry per record. |
| Prompt.ListingEntries | index.js:194-195 | Each listed entry is a record of the bucket, with that record's own key. |
| Prompt.ListingDistinct | index.js:194-195 | No key is listed twice. |
| Prompt.ListingCovers | index.js:194-195 | Every key of the bucket is listed. |
| Prompt.ListingSorted | index.js:196 | The listing is sorted by case-insensitive name, with ties broken by key. |
| Prompt.ListingSpec | index.js:194-196 | The listing is a sorted arrangement of the bucket's records, each exactly once. |
| Prompt.ListingSameOrder | index.js:194-196 | Buckets with the same keys and names list their records in the same order, whatever their scores. |
| Prompt.Lines | index.js:207-211 | There is one line per entry. |
| Prompt.Line | index.js:208-210 | The line of one record, `${c.name}: intoxication=${intox}, arousal=${ar}` with the clamped scores. It has no `ensures` of its own: `Prompt.ZeroLine`, `Prompt.LineNoNewline` and `Text.DecimalRoundTrip` state how it prints. |
| Prompt.PromptLines | index.js:198-211 | The pushed lines: the constant `Header` (the seven lines of index.js:199-205), then `Line` of each listed entry. It has no `ensures` of its own: `Prompt.PromptShape` states its length, its header and its i-th record line. |
| Prompt.PromptText | index.js:192-213 | The pure buildSystemPrompt of a bucket. It has no `ensures` of its own: `Prompt.PromptShape` and `Prompt.PromptRoundTrip` state its lines, and `Prompt.BuildSystemPrompt` is proved equal to it. |
| Prompt.BuildSystemPrompt | index.js:192-214 | The loop that pushes the header, then a line per sorted entry, and joins, computes `PromptText` of the bucket. |
| Prompt.PromptShape | index.js:198-213 | The prompt has the 7 header lines (the last one empty), then one line per record. The i-th line after the header shows the i-th record in display order. An empty bucket gives the header alone. |
| Prompt.LineNoNewline | index.js:210 | A record line holds no newline when the name holds none. |
| Prompt.PromptRoundTrip | index.js:198-213 | Splitting the prompt text at newlines gives the header's pieces and then exactly the record lines, provided no name contains a newline. |
| Prompt.ZeroLine | index.js:210 | A record at zero prints as `<name>: intoxication=0, arousal=0`. |
| Prompt.ResetAllShowsZeros | index.js:331-336 | After "Reset all to 0" the prompt lists the same characters, in the same order, each at zero. |
| Prompt.ForgetOmitsLine | index.js:418 | After "Forget" the prompt loses exactly the forgotten character's line, and only if it had one. |
| Prompt.OrderingExample | index.js:194-211 | For "Bob" (0, 0) and "alice" (70, 10), the prompt lists `alice: intoxication=70, arousal=10` before `Bob: intoxication=0, arousal=0`. |
| Injection.Position | index.js:19-21 | A host that exports no extension_prompt_types gets 'in_chat'. A host that exports a table passes its IN_CHAT entry, and `undefined` (None) when the table has none. |
| Injection.CallFor | index.js:224-248 | Each convention passes the prompt and the position. The two keyed conventions pass `intox-system:state` and 'system', and the last passes neither. |
| Injection.Tried | index.js:224-248 | The calls injectPromptForChat makes. It has no `ensures` of its own: `Injection.InjectSpec` and `Injection.TriedUnrolled` state them. |
| Injection.Delivered | index.js:224-248 | The call that took effect, if any. It has no `ensures` of its own: `Injection.InjectSpec`, `Injection.TriedUnrolled` and `Injection.DeliveredKeyed` state it. |
| Injection.FirstAcceptedSpec | index.js:224-248 | The first accepted convention is the least accepted position, and there is none exactly when no convention is accepted. |
| Injection.InjectSpec | index.js:216-249 | Without a setter nothing is called. Otherwise the conventions are tried in order, 1 to 3 calls, and every call before the last was rejected. Something is delivered exactly when some convention is accepted, and it is the last call made. When none is accepted, all three calls were made. |
| Injection.TriedUnrolled | index.js:224-248 | The three try blocks, spelled out: which calls are made and which one is delivered, for each set of accepted conventions. |
| Injection.NewestHostCalledOnce | index.js:224-230 | A host that takes the options-object call sees only that call. |
| Injection.SingleSlot | index.js:29-30 | However many prompts are injected under the keyed conventions, the host's table gains only the one key. That key holds the last prompt, and no other entry changes. |
| Injection.ReinjectIdempotent | index.js:511-518 | Re-injecting the same prompt, as the periodic safety timer does, changes nothing. |
| Injection.DeliveredKeyed | index.js:224-240 | A prompt delivered to a host that accepts a keyed convention went through a keyed call. |
| StoreState.Store.constructor | index.js:56 | With nothing stored, the state starts with no chats and no last chat. |
| StoreState.Store.Load | index.js:53-65 | A parsed object keeps its chats, or none when they are missing, and its last chat. Anything unreadable starts empty. |
| StoreState.Store.GetChatBucket | index.js:160-164 | Returns the chat's bucket after creating an empty one on first use. Nothing else changes. |
| StoreState.Store.EnsureCharacterEntry | index.js:166-181 | The chat's bucket becomes `EnsureEntry` of it, and the returned record is the stored one. |
| StoreState.Store.ReconcileChat | index.js:449-450 | The loop leaves the chat's bucket at `ReconcileBucket` of the candidates, and leaves everything unchanged when there are none. |
| StoreState.Store.BuildSystemPrompt | index.js:192-214 | Returns `PromptText` of the chat's bucket, which is created if missing. |
| StoreState.Store.InjectPromptForChat | index.js:216-249 | Without a setter nothing happens. Otherwise the calls made and the delivered call are `Tried` and `Delivered` of the chat's prompt. |
| StoreState.Store.RenderUI | index.js:284-440 | Discovers, reconciles into the chat's bucket, and returns the preview, which is the prompt of the new bucket. Scores stay in [0, 100]. |
| StoreState.Store.ReconcileAndInject | index.js:445-455 | Remembers the chat and leaves its bucket at `ReconcileBucket` of the discovered identities. The delivered prompt equals the preview the later render shows. Scores stay in [0, 100]. |
| StoreState.Store.OnChatMutation | index.js:495-500 | Runs reconcileAndInject exactly when the chat differs from the last one seen. Afterwards the chat is the last one seen either way. Scores stay in [0, 100]. |
| StoreState.Store.OnRefresh | index.js:320-323 | "Refresh characters" reconciles, then delivers the same prompt it previews. Scores stay in [0, 100]. |
| StoreState.Store.RenderAndInject | index.js:337-339 | The common tail of the buttons: reconcile the edited bucket, preview it, and inject it. Scores stay in [0, 100]. |
| StoreState.Store.OnResetAll | index.js:330-340 | The bucket becomes `ResetAllBucket`, then reconciled by the re-render. Every record is then at zero, and the same prompt is previewed and delivered. Scores stay in [0, 100]. |
| StoreState.Store.OnResetRow | index.js:398-409 | Runs exactly when the row's record exists. Then the bucket is `ResetOneBucket` and then reconciled, and the same prompt is previewed and delivered. Scores stay in [0, 100]. |
| StoreState.Store.OnForget | index.js:415-422 | The bucket is `ForgetBucket`, then reconciled. The prompt is previewed and delivered. Scores stay in [0, 100]. |
| StoreState.Store.OnSetVal | index.js:367-379 | Returns the clamped value, and the bucket becomes `SetValBucket`. The new bucket's prompt is delivered, and scores stay in [0, 100]. |

## Left out

- **The DOM.** Element building, the settings container, the table rows and the
  slider widgets are not modelled. `RenderUI` keeps only the reconcile and the
  preview text.
- **Storage.** localStorage, JSON parsing and saveState are not modelled.
  loadState's input is the `Saved` parameter.
- **The current chat id.** getCurrentChatId and its probing of host accessors
  are not modelled; the chat id is a parameter.
- **renderUI's second reads.** renderUI calls getCurrentChatId() and
  discoverCharactersInChat() again (index.js:285-286). Its callers
  `ReconcileAndInject`, `OnRefresh` and `RenderAndInject` pass it their own
  chat id and sources instead. The guarantee that the delivered prompt equals
  the preview assumes those second reads return the same values. The handler
  runs synchronously, so nothing can change them in between, but the model
  does not show this.
- **The clock.** Date.now is a parameter. The code calls now() for each record
  it stamps (index.js:178, 335, 373, 376, 404). Reading the clock once per
  handler, so that all records it stamps carry the same time, is a
  simplification of this model.
  - `ReconcileAndInject` takes a second time for its closing render.
  - `Store.OnResetAll` stamps its resets and the re-render's new records with
    the same time.
- **Events and timers.** Event subscription, the MutationObserver, setInterval,
  init and DOMContentLoaded are not modelled as plumbing.
  - The observer's callback is `Store.OnChatMutation`.
  - For the timer's re-injection, `Injection.ReinjectIdempotent` shows only
    that re-injecting an unchanged prompt under a keyed convention leaves
    the host's table unchanged. It says nothing about the keyless
    convention, whose calls `Apply` does not model.
- **The host.** setExtensionPrompt is modelled by which conventions it accepts.
  For the keyless `(prompt, type)` convention, the host's effect on its table is
  not modelled, so `Injection.SingleSlot` covers the keyed conventions only.
  - The host's extension_prompt_types is the table the code picks at
    index.js:19-21, either SillyTavern's or the window's. Which of the two it
    came from is not modelled.
  - An IN_CHAT entry is modelled as a string or missing. A non-string value,
    such as a number, is not modelled.
- **Sources that fail partway.** Such a source is represented by the part it
  read before failing; the host accessors themselves are not modelled.
- **Value types.** Names are strings or absent. Non-string names and
  `String(name)` of other values are not modelled.
- **Numbers.** Scores are integers and `Number(x)` is `Option<int>`, with None
  standing for NaN. Fractional values are not modelled, and neither is the
  `Math.max`/`Math.min` behaviour on them.
- **Malformed stored buckets.** The `||=` replacement of a falsy stored bucket
  or `characters` object cannot arise in this model, because a stored bucket
  is always a map.
  - A stored score is always an integer, so a record whose score is missing
    or not a number cannot be represented.
  - The code prints such a score as 0 (index.js:208-209); `Line` always
    passes `Some(..)` to `Clamp01`.
- **Lower-casing.** It is modelled on ASCII letters only.
- Prompt.EntryLe: localeCompare is replaced. The model compares Lower(name)
  by code units, and ties are broken by key. The code's stable sort would keep
  Object.entries order on ties.
- Prompt.PromptRoundTrip: it is stated relative to the header's split. It uses
  `Split(Join(Header))` rather than the seven header lines themselves.
  Showing that the long literal header lines are free of newlines was too
  costly for the verifier.
- Identity.NormalizeIdempotentIff: it holds only for non-empty keys.
  Normalisation is idempotent only when the key is not empty: a whitespace-only
  name gives the key "".
- Reconciler.EnsureEntry: a bucket is a map, so it has no inherited keys. In
  the code it is a plain object, so a lookup at index.js:168 also finds
  properties inherited from Object.prototype.
  - For the key "constructor" (a character named "Constructor"), the lookup
    finds the inherited Object function, which is truthy. index.js:171 then
    assigns to its read-only `name`, which throws a TypeError under
    `'use strict'` (index.js:10).
  - Nothing catches that error in the loops at index.js:290 and 450. So
    reconcileAndInject neither saves nor injects, and renderUI does not draw
    the panel, while such a character is discovered.
  - For the key "__proto__", index.js:171 writes `Object.prototype.name` and
    no record is added.
  - The model adds a zeroed record for both keys, so `Reconciler.ReconcileKeys`
    and the lemmas built on it do not describe the code for them.

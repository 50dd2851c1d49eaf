# Verified model of the ZAION merge engine and channel adapters

A Dafny 4.11 model of five parts of ZAION, with proofs about every input, every run or every reachable state.

1. **Chunk merge and syntax gate** (`zaion-aci`). `chunk_source` cuts a text into top-level chunks with a one-line
   lookahead and a running bracket depth; `AstDiff::diff` aligns base and branch chunks in three passes;
   `AstMergeResolver::merge` folds any number of branches into one text; `apply_resolution` and `replace_in_memory`
   substitute text under the gate. The main theorem joins all of them: on accepted quote- and slash-free sources a merge
   is reported valid exactly when it is conflict-free. The link is that the splitter's single depth and the gate's three
   counters agree at zero.
2. **Token cache** (`dingtalk.rs`, `feishu.rs`). Double-checked locking as a state machine whose steps are interleaved by
   any number of callers while a clock advances. A call can be dropped at any step, releasing its guard.
3. **Telegram receive and send** (`telegram_adapter.rs`, `channel.rs`). Watermark, albums, UTF-16 chunking and slicing,
   MarkdownV2 escaping with its plain-text retry.
4. **Inbound state machines** (`email.rs`, `homeassistant.rs`). A bounded memory of UIDs with a conserving report; watch
   rules, cooldown and the websocket handshake.
5. **Signal mentions** (`signal.rs`). Right-to-left replacement in place.

Loops and mutable objects are methods and classes; each is proved equal to a specification function, and the theorems
are lemmas about those functions. The `*Laws` files, `TelegramAlbums` and the `...Exactly` lemmas say what each operation
returns without referring to how it is computed: by counting, by texts and positions, or by another recursion. `*Theory`, `Rechunk`, `Overlay`, `SelfMerge`, `UntouchedText`, `ResolveAll` and
`TelegramRuns` hold the theorems, `Witnesses` the inputs on which the code fails its promise; the other files hold the
operations. `dafny verify dfyconfig.toml` checks the project.

## Where the code differs from what it says

- *Untouched branches can rewrite the base.* The base index keeps the last of several equal chunks, while matching takes
  the first equal branch chunk. Merging chunks A, B, B, A with an unchanged branch gives B, A, A, B and reports no
  conflict (`SelfMerge.UntouchedMergeScrambles`, and `Witnesses.ImportsScrambled` on a source). `SelfMerge.UntouchedMerge`
  gives the exact condition on chunks; `DiffTheory.SelfDiff` the one under which a self-diff is all unchanged.
- *Cutting loses text, so merging does.* Blank lines before a block, carriage returns before line feeds and a missing
  final line feed do not come back: two imports with a blank line between them merge with an untouched branch into two
  adjacent lines (`Witnesses.BlankLineLost`). `UntouchedText.UntouchedExactly` says when the text itself comes back.
- *A deletion by a single branch is a conflict* (merge.rs:276-306), although the documented rules name a conflict only
  for a deletion against a modification.
- *"conflict markers always fail syntax"* (merge.rs:324) is not what the gate does: text with markers passes it
  (`ResolveAll.MarkedMergePasses`, and `Witnesses.MarkersPass` on sources). `syntax_valid` is false on conflicts only
  because the code sets it so.
- *Re-chunking* is idempotent exactly when no kept line ends in a carriage return (`Rechunk.RechunkIdempotent`); a line
  that ends in two loses one each time (`Witnesses.RechunkDrifts`).
- *`replacen` replaces the first match*, which is not the conflict at hand when an earlier resolution spells its marker
  (`ResolveAll.MaskingResolution`). `ResolveAll.ResolveNext` says exactly when it is.
- *Message ids* of Home Assistant events are unique over every run exactly when the cooldown is on
  (`HomeAssistantTheory.IdsDistinctExactly`).
- The third case of the settling code (merge.rs:269-275, one modification with all other branches unchanged), the
  whole-source fallback of `chunk_source` (merge.rs:478-481) and, without concurrent polls, the second duplicate check of
  the email poller are unreachable; each stands in the model as `assert false`.

## Representation

- `short_hash` is taken to be collision-free: a chunk's text stands for its hash.
- The keyword table of `chunk_source` is a parameter, so every theorem holds for every table.
- Bracket counters and depth are unbounded integers; the 32-bit overflow of extreme inputs is not modelled. Home
  Assistant epochs are 64-bit with the saturating subtraction written out; the `usize` overflow check of UTF-16 slicing
  is written out.
- `lines()`, `trim()`, `matches().count()`, `replacen` and `sort_by_key` are written out; stable sorts are insertion sorts.
- Byte offsets into strings are character positions where the code only ever lands on character boundaries.
- Server answers, parse results, clocks and JSON field lookups are parameters. In the token cache, time is a real number.

## Model

| member | source | states |
|---|---|---|
| `SyntaxGate.CheckBracketBalance` | crates/zaion-aci/src/syntax_gate.rs:284-385 | The nested loops over counters, mode flags and the carried previous character compute the recursive scanner's verdict, error line and counts included. |
| `SyntaxGate.CheckUnclosedString` | crates/zaion-aci/src/syntax_gate.rs:388-414 | No error exactly when every line closes its double-quoted strings; otherwise the error names an existing line. |
| `SyntaxGate.Check` | crates/zaion-aci/src/syntax_gate.rs:111-123 | For Rust, TypeScript, JavaScript and unknown languages: valid or skipped exactly when both checks pass or the language is unknown; otherwise both errors are reported when both occur, the bracket error first. |
| `GateLaws.AcceptedExactly` | crates/zaion-aci/src/syntax_gate.rs:284-385 | On every text: the bracket check accepts exactly when the code left after skipping strings, with their escapes, and line and block comments is balanced, across line ends and with the quirk that a slash at a line end still counts. |
| `GateLaws.UnmatchedExactly` | crates/zaion-aci/src/syntax_gate.rs:357-366 | An unmatched closing bracket is reported on the first line up to which the code closes more than it opened, with the openers minus closers of the shortest such prefix. |
| `GateLaws.UnbalancedExactly` | crates/zaion-aci/src/syntax_gate.rs:370-385 | Otherwise an imbalance is reported exactly when some kind is left open, with the number left open of each kind. |
| `GateLaws.StringsExactly` | crates/zaion-aci/src/syntax_gate.rs:388-414 | The second check passes exactly when no line ends inside a double-quoted string. |
| `GateLaws.GateExactly` | crates/zaion-aci/src/syntax_gate.rs:111-188 | The whole gate: unknown languages pass; otherwise the code must be balanced and no line may end inside a double-quoted string. |
| `GateTheory.NestedIsBalanced` | crates/zaion-aci/src/syntax_gate.rs:284-385 | The scanner's running counters agree with a definition by counting: every prefix has at least as many openers as closers of each kind, and the whole text equally many. |
| `GateTheory.NeutralGate` | crates/zaion-aci/src/syntax_gate.rs:170-188 | On text without quotes and slashes the gate accepts exactly the balanced texts. |
| `GateTheory.NestedSubstitute` | crates/zaion-aci/src/syntax_gate.rs:284-385 | Replacing a balanced fragment by a balanced fragment anywhere in a balanced text keeps it balanced. |
| `GateTheory.ComposedPasses` | crates/zaion-aci/src/syntax_gate.rs:284-385 | With strings and comments: any concatenation, in any order and with repetition, of composable whole-line pieces passes, despite the previous character carried across lines. |
| `GateTheory.NeutralComposable` | crates/zaion-aci/src/syntax_gate.rs:284-385 | Neutral, balanced pieces of whole lines are composable. |
| `Chunker.LineDepth` | crates/zaion-aci/src/merge.rs:424-468 | The depth change of a line is openers minus closers. |
| `Chunker.Splitter.FlushChunk` | crates/zaion-aci/src/merge.rs:470-476 | The collected lines become one chunk unless all are blank. |
| `Chunker.Splitter.ChunkSource` | crates/zaion-aci/src/merge.rs:386-484 | The loop equals the recursive splitter, and its whole-source fallback is unreachable. |
| `Chunker.Splitter.NonBlankIsCut` | crates/zaion-aci/src/merge.rs:478-481 | A source with a non-blank line always yields a chunk, from any state of the loop. |
| `ChunkLaws.CutExactly` | crates/zaion-aci/src/merge.rs:424-468 | A chunk ends between two lines exactly when as many brackets are closed as opened and the next line, trimmed, begins with an entry of the table, or is blank and more than one byte of text precedes it; where blank lines were dropped the next chunk begins with such a keyword line. |
| `ChunkLaws.OneChunk` | crates/zaion-aci/src/merge.rs:397-468 | A source without blank lines and without keyword lines is one chunk. |
| `ChunkLaws.ChunkText` | crates/zaion-aci/src/merge.rs:433-438 | The text of a chunk is its lines, each followed by a line feed; its number is that of its first line. |
| `Text.LinesExactly` | crates/zaion-aci/src/merge.rs:391-391 | Splitting takes a text apart into lines without line feeds and their ends, a line feed with or without a carriage return, or the end of the text. |
| `Text.TrimExactly` | crates/zaion-aci/src/merge.rs:425-425 | Trimming removes whitespace at both ends and nothing else. |
| `ChunkTheory.ChunksTile` | crates/zaion-aci/src/merge.rs:386-484 | Chunks are ordered, disjoint slices of the lines starting at their `line_start`, and the gaps are blank. |
| `ChunkTheory.TilesCover` | crates/zaion-aci/src/merge.rs:424-476 | Every non-blank line is in a chunk, at its own place. |
| `ChunkTheory.ChunksBalance` | crates/zaion-aci/src/merge.rs:386-484 | Every chunk but the last has net bracket count zero. |
| `ChunkTheory.DepthIsSum` | crates/zaion-aci/src/merge.rs:424-468 | The splitter's single depth is the sum of the gate's three counters. |
| `ChunkTheory.ChunksNested` | crates/zaion-aci/src/merge.rs:386-484 | Every chunk of a balanced text is balanced on its own, kind by kind, although the splitter tracks one depth only. |
| `Rechunk.RechunkIdempotent` | crates/zaion-aci/src/merge.rs:424-476 | Splitting the joined chunks gives the same texts again if and only if no kept line ends in a carriage return. |
| `Rechunk.RechunkWithoutCr` | crates/zaion-aci/src/merge.rs:424-476 | In particular for every source without carriage returns, despite lookahead and dropped blank lines. |
| `Witnesses.RechunkDrifts` | crates/zaion-aci/src/merge.rs:424-476 | The source of one line that ends in two carriage returns is not cut the same way again, whatever the keywords. |
| `Diff.IndexBase` | crates/zaion-aci/src/merge.rs:110-114 | The index holds exactly the base texts, each at its last occurrence. |
| `Diff.MatchIdentical` | crates/zaion-aci/src/merge.rs:126-135 | Pass 1 marks exactly the base chunks that are last of their text and occur in the branch, and the first such branch chunks. |
| `Diff.PairUnmatched` | crates/zaion-aci/src/merge.rs:137-160 | Pass 2 gives every other base chunk its entry, pairing by rank, and leaves exactly the surplus branch chunks. |
| `Diff.CollectAdded` | crates/zaion-aci/src/merge.rs:162-167 | Pass 3 adds what is left, in branch order. |
| `Diff.SortByKey` | crates/zaion-aci/src/merge.rs:169-171 | The result is sorted by key and a permutation. |
| `Diff.DiffChunks` | crates/zaion-aci/src/merge.rs:105-172 | The three passes and the sort produce exactly the declared alignment, whatever order the passes pushed in. |
| `DiffLaws.UnchangedExactly` | crates/zaion-aci/src/merge.rs:126-135 | Change i is unchanged exactly when base chunk i is the last with its text and the branch has that text; it holds the first such branch chunk. |
| `DiffLaws.LoneExactly` | crates/zaion-aci/src/merge.rs:137-171 | The k-th base chunk left over is modified into the k-th branch chunk left over; further base chunks are deleted, further branch chunks added in order, and there are no other changes. |
| `DiffLaws.BranchHeld` | crates/zaion-aci/src/merge.rs:122-171 | The branch chunks held by the changes are, as a multiset, exactly the chunks of the branch. |
| `DiffTheory.DiffAligns` | crates/zaion-aci/src/merge.rs:122-171 | Change i concerns base chunk i; the rest are additions, in branch order; deletions and additions never both occur. |
| `DiffTheory.BranchUsed` | crates/zaion-aci/src/merge.rs:122-171 | Every branch chunk is used by some change. |
| `DiffTheory.BranchUsedOnce` | crates/zaion-aci/src/merge.rs:122-171 | No branch chunk is used by two changes. |
| `DiffTheory.ModifiedInOrder` | crates/zaion-aci/src/merge.rs:137-160 | Modified base chunks pair with branch chunks in increasing order. |
| `DiffTheory.SelfDiff` | crates/zaion-aci/src/merge.rs:105-172 | A text compared with itself is all unchanged if and only if its chunks are pairwise distinct. |
| `Merge.FileChanges` | crates/zaion-aci/src/merge.rs:205-232 | Every change is filed once under its base text after what was there; additions are set aside in order. |
| `Merge.SettleChunk` | crates/zaion-aci/src/merge.rs:238-307 | The branching code decides each chunk as specified; one of its cases is unreachable. |
| `Merge.MergeBranches` | crates/zaion-aci/src/merge.rs:189-333 | The whole merge equals its specification: text, count, conflicts and validity. |
| `MergeLaws.ConflictHolds` | crates/zaion-aci/src/merge.rs:276-306 | A conflict holds its base chunk and every chunk that some branch turned its text into, with that branch's id, in branch order. |
| `MergeLaws.ConflictShown` | crates/zaion-aci/src/merge.rs:293-305 | In the merged text a conflict is the base text and the first variant between the marker lines, or `(deleted)` exactly when nobody modified it. |
| `MergeLaws.MergedLayout` | crates/zaion-aci/src/merge.rs:309-317 | The text is one piece per base chunk, in order, then what the branches add, first branch first, every text once. |
| `MergeLaws.ValidExactly` | crates/zaion-aci/src/merge.rs:319-325 | For quote- and slash-free sources, accepted or not, the merge is valid exactly when it has no conflict and its text is balanced, or the language is unknown. |
| `MergeTheory.ConflictExactly` | crates/zaion-aci/src/merge.rs:238-307 | A base chunk conflicts if and only if some branch's diff deletes its text or two modifications of it differ. |
| `MergeTheory.ResolvedExactly` | crates/zaion-aci/src/merge.rs:238-307 | A resolved chunk becomes t if and only if some branch turned its text into t, or t is the text and no branch turned it. |
| `MergeTheory.MergeConserves` | crates/zaion-aci/src/merge.rs:238-332 | `auto_resolved` plus the conflict count is the base chunk count. |
| `MergeTheory.OrderIndependent` | crates/zaion-aci/src/merge.rs:238-315 | Branch lists with the same contents, whatever their order, names and repetition, give the same conflicting chunks, resolved texts, counts, set of additions and, when conflict-free, base-derived text. |
| `MergeTheory.PieceOrigin` | crates/zaion-aci/src/merge.rs:238-315 | Every resolved or added text is verbatim a chunk of the base or of a branch. |
| `MergeTheory.ComposableMergeIsValid` | crates/zaion-aci/src/merge.rs:189-333 | If the chunks involved are composable, strings and comments allowed, a merge is valid if and only if it has no conflict. |
| `MergeTheory.MergeIsValid` | crates/zaion-aci/src/merge.rs:189-333 | For quote- and slash-free base and branches that pass the gate, a merge is valid if and only if it has no conflict, for any number of branches and repeated chunks. |
| `Overlay.InPlaceChanges` | crates/zaion-aci/src/merge.rs:105-172 | Editing chunks in place to texts new to a duplicate-free base diffs to exactly those modifications. |
| `Overlay.DisjointEditsOverlay` | crates/zaion-aci/src/merge.rs:189-333 | Branches that edit disjoint positions of a duplicate-free base merge without conflict into the base with every edit in place. |
| `SelfMerge.UntouchedMerge` | crates/zaion-aci/src/merge.rs:110-171 | Chunk by chunk, merging with untouched branches gives the base chunks back if and only if the earlier copies of repeated chunks read the same as the later ones. |
| `SelfMerge.UntouchedMergeScrambles` | crates/zaion-aci/src/merge.rs:110-171 | Chunks A, B, B, A come out as B, A, A, B without a conflict. |
| `UntouchedText.UntouchedExactly` | crates/zaion-aci/src/merge.rs:189-333 | On texts: if the copies line up, the merge of untouched branches is, without conflict, what cutting keeps of the base. It is the base, without conflict, if and only if the copies line up and cutting loses nothing, provided repeated chunks hold more than one byte of text. |
| `UntouchedText.GroupsRegular` | crates/zaion-aci/src/merge.rs:424-476 | Every chunk is a run of lines in which the loop would not have cut, and every chunk but the first begins with a blank line or a block. |
| `UntouchedText.CopiesAlign` | crates/zaion-aci/src/merge.rs:386-484 | If copies of chunks, each its own or a later copy, spell the base, they are its chunks in order and nothing was dropped. |
| `Witnesses.ImportsScrambled` | crates/zaion-aci/src/merge.rs:189-333 | The source `use x; use y; use y; use x;`, one import a line, comes back as `use y; use x; use x; use y;` from a merge with untouched branches, without a conflict. |
| `Witnesses.BlankLineLost` | crates/zaion-aci/src/merge.rs:433-440 | Two imports with a blank line between them come back without it, although their copies line up. |
| `ResolutionTheory.ResolutionSucceeds` | crates/zaion-aci/src/merge.rs:339-375 | On a merge's own text, any of its conflicts and any accepted neutral resolution: the marker is found, its first occurrence is replaced and the gate accepts. |
| `ResolutionLaws.ApplyExactly` | crates/zaion-aci/src/merge.rs:357-374 | The missing-marker error is returned exactly when the marker occurs nowhere; otherwise its first occurrence is replaced and the text is returned if the gate passes it and refused if not. |
| `ResolutionLaws.RefusedExactly` | crates/zaion-aci/src/merge.rs:366-372 | For accepted sources, a step that reaches its own conflict refuses a neutral resolution exactly when that is not balanced. |
| `ResolutionTheory.MarkerNested` | crates/zaion-aci/src/merge.rs:293-305 | A marker around balanced texts, or around a deletion, is itself balanced and neutral. |
| `ResolutionTheory.ReplaceInMemorySucceeds` | crates/zaion-aci/src/ast_patcher.rs:138-166 | Swapping an accepted fragment that matches once for an accepted fragment in an accepted text succeeds. |
| `ResolutionTheory.ReplaceInMemoryMissing` | crates/zaion-aci/src/ast_patcher.rs:138-166 | The not-found error is reported exactly when the old text occurs nowhere. |
| `ResolutionLaws.ReplaceExactly` | crates/zaion-aci/src/ast_patcher.rs:138-166 | Not found exactly when the fragment occurs nowhere, ambiguous exactly when two occurrences do not overlap; otherwise the first occurrence is replaced and the text returned if it passes and refused if not. |
| `ResolveAll.ResolveNext` | crates/zaion-aci/src/merge.rs:339-375 | With k conflicts resolved, the marker of conflict k stands at its place; it is what gets replaced if and only if no earlier text spells it, and then exactly that conflict is resolved. No demand on sources or resolutions. |
| `ResolveAll.EveryConflictResolves` | crates/zaion-aci/src/merge.rs:339-375 | Resolving the conflicts of accepted sources in order with any accepted neutral texts succeeds at every step; each step resolves exactly its conflict unless earlier text spells its marker. |
| `ResolveAll.MarkerFreeUnmasked` | crates/zaion-aci/src/merge.rs:339-375 | If all chunks and resolutions are whole lines without the first line of a marker, no earlier text ever spells a marker. |
| `ResolveAll.MaskingResolution` | crates/zaion-aci/src/merge.rs:364-364 | In any merge with two conflicts, resolving the first with text that spells the marker of the second makes the next replacement hit that text instead. |
| `ResolveAll.MarkedMergePasses` | crates/zaion-aci/src/merge.rs:319-325 | Merged text passes the gate even with its markers in it. |
| `Witnesses.MarkersPass` | crates/zaion-aci/src/merge.rs:319-325 | Three accepted sources, one import each, whose merge has a conflict and whose merged text passes the gate. |
| `TokenCache.LockKept` | crates/zaion-adapters/src/dingtalk.rs:90-113 | Every step keeps: guards are held exactly by the calls inside a guarded section, and a writer is alone. |
| `TokenCache.CacheKept` | crates/zaion-adapters/src/dingtalk.rs:90-113 | Every step keeps: the cache is the last store, and a request in flight was decided when all stored tokens were stale. |
| `TokenCache.InvAlways` | crates/zaion-adapters/src/dingtalk.rs:90-113 | Both, and the honesty of the event log, hold in every state of every run. |
| `TokenCache.OneFetchAtATime` | crates/zaion-adapters/src/dingtalk.rs:231-241 | At most one token request is in flight over all callers and clones. |
| `TokenCache.NoEarlyFetch` | crates/zaion-adapters/src/dingtalk.rs:101-111 | A request, successful or not, is decided no earlier than any previous store time plus its ttl minus the buffer. |
| `TokenCache.ServedFresh` | crates/zaion-adapters/src/feishu.rs:84-107 | A token served from the cache is the last one stored and had more than the buffer left when checked. |
| `TokenCache.FetchRate` | crates/zaion-adapters/src/feishu.rs:84-107 | If every token outlives the buffer by a gap, n further successful fetches take at least n gaps. |
| `TokenCache.ReturnedExactly` | crates/zaion-adapters/src/dingtalk.rs:90-113 | Over every run, a call returns the token it was served or stored itself in its last event, and fails only after a request of its own. |
| `TokenCache.NoDeadlock` | crates/zaion-adapters/src/dingtalk.rs:90-113 | In every reachable state with a call under way, some step other than waiting or dropping a call is enabled. |
| `TelegramReceive.Receiver.Receive` | crates/zaion-adapters/src/telegram_adapter.rs:457-548 | A failed poll changes nothing; a successful one returns the fold of its updates and raises the watermark to the greatest id. |
| `TelegramTheory.BatchExactlyOnce` | crates/zaion-adapters/src/telegram_adapter.rs:497-547 | In a batch each message update is in exactly one delivered message; an album holds all updates of its key in arrival order, and its arrays are theirs concatenated in that order; the messages come in the order of their first updates; no two share an album. |
| `TelegramTheory.SumsMerged` | crates/zaion-adapters/src/telegram_adapter.rs:571-671 | Merging one more part appends its id and its five metadata arrays and keeps the album the sum of its parts. |
| `TelegramTheory.AlbumKeyExact` | crates/zaion-adapters/src/telegram_adapter.rs:556-569 | Two media-group messages have one key exactly when chat, topic and group agree. |
| `TelegramAlbums.BatchMade` | crates/zaion-adapters/src/telegram_adapter.rs:571-620 | An album's caption is the first text of its parts that is not blank, its photo count their sum, its message ids theirs without repetition; everything else is the first part's. A message outside albums is delivered as it arrived. |
| `TelegramAlbums.SiblingsTogether` | crates/zaion-adapters/src/telegram_adapter.rs:534-543 | Two parts of one media group of one chat and topic in one batch are delivered in one message. |
| `TelegramAlbums.TogetherSiblings` | crates/zaion-adapters/src/telegram_adapter.rs:534-569 | Two updates delivered in one message are parts of one media group of one chat and topic. |
| `TelegramAlbums.WatermarkIsMax` | crates/zaion-adapters/src/telegram_adapter.rs:500-506 | For updates in any order the watermark becomes the greatest of its old value and their ids. |
| `TelegramRuns.PrefixHandled` | crates/zaion-adapters/src/telegram_adapter.rs:457-548 | After any run of polls, failed ones included, the updates handled are a prefix of the server's history and the watermark is its last id. |
| `TelegramRuns.DeliveredExactlyOnce` | crates/zaion-adapters/src/telegram_adapter.rs:457-548 | Over every run the ids delivered are, as a multiset, those of the message updates among the handled ones; each of these is delivered exactly once. |
| `TelegramRuns.ReturnedWhole` | crates/zaion-adapters/src/telegram_adapter.rs:497-620 | Over every run, each message returned holds all updates of its album in one poll in arrival order, or a single update, with its arrays concatenated in that order. |
| `TelegramRuns.PollInOrder` | crates/zaion-adapters/src/telegram_adapter.rs:457-548 | A poll returns its messages after those of earlier polls, in the order of their first updates. |
| `TelegramRuns.WatermarkGrows` | crates/zaion-adapters/src/telegram_adapter.rs:500-506 | The watermark never decreases. |
| `TelegramRuns.PollProgresses` | crates/zaion-adapters/src/telegram_adapter.rs:457-548 | An answered poll of up to n updates advances by n or to the end of the history. |
| `Utf16.SubstringByUtf16Units` | crates/zaion-adapters/src/telegram_adapter.rs:1867-1894 | A result exactly when both ends fall on character boundaries of the UTF-16 encoding (section 2.1 of RFC 2781); its encoding is then the requested slice. |
| `Utf16.SliceEncodes` | crates/zaion-adapters/src/telegram_adapter.rs:1867-1894 | Cutting characters out of a text cuts their code units out of its encoding. |
| `Utf16.EncodeCharExactly` | crates/zaion-adapters/src/telegram_adapter.rs:1867-1894 | A character outside the basic plane is a high and a low surrogate from which it can be read back (section 2.1 of RFC 2781). |
| `TelegramSend.CutLine` | crates/zaion-adapters/src/telegram_adapter.rs:2458-2466 | An overlong line is cut into segments within the limit that, with the rest left over, spell it. |
| `TelegramSend.ChunkMessage` | crates/zaion-adapters/src/telegram_adapter.rs:2430-2477 | A text within the limit is one chunk. The chunks of a longer one spell its lines for every limit: only whitespace up to a line end is lost after a chunk, a chunk ends in ink unless it was cut inside a line, and neighbours with the whitespace after them come within one character of the limit. They respect a limit of 1 exactly when each non-whitespace character fits it and every limit from 2 up; none is empty then. |
| `Markdown.EscapeMarkdownV2` | crates/zaion-adapters/src/channel.rs:334-348 | The loop equals the recursive escape. |
| `Markdown.UnescapeMarkdownV2` | crates/zaion-adapters/src/telegram_adapter.rs:2385-2401 | The loop with its one-character peek equals the recursive unescape. |
| `Markdown.RoundTrip` | crates/zaion-adapters/src/telegram_adapter.rs:2385-2424 | Unescaping an escaped text returns it, backslashes included. |
| `Markdown.EscapedExactly` | crates/zaion-adapters/src/channel.rs:334-348 | In an escaped text each of the eighteen reserved characters follows a backslash; every one adds exactly one character, and a text without them stays as it is. |
| `Markdown.RetryIsPlainSend` | crates/zaion-adapters/src/telegram_adapter.rs:331-360 | After a MarkdownV2 parse error the retry is, field for field, a plain-text send of the original chunk. |
| `Markdown.FallbackKeepsText` | crates/zaion-adapters/src/telegram_adapter.rs:331-360 | At most two requests are made and each carries the original text, escaped exactly when it asks for MarkdownV2. |
| `Markdown.FallbackExactly` | crates/zaion-adapters/src/telegram_adapter.rs:331-360 | Which requests are made: a plain one after an entity error in MarkdownV2, else one without anchors after an anchor error, else none; the answer is that of the last request. |
| `Markdown.BodyExactly` | crates/zaion-adapters/src/telegram_adapter.rs:2310-2345 | A request carries chat, reply and thread as given and the trimmed mode unless it is blank. |
| `Email.Poller.MarkUidSeen` | crates/zaion-adapters/src/email.rs:472-490 | A new UID is appended and the oldest are dropped beyond the limit; an empty one is always new and never kept. |
| `Email.Poller.IngestFetchedMessages` | crates/zaion-adapters/src/email.rs:366-450 | The report counts this poll's messages and adds up to those fetched; ledger and buffer grow by the same deliveries, whose ids are reported, whatever was taken from the buffer before; a parse error ends the poll at that message. |
| `Email.Poller.Receive` | crates/zaion-adapters/src/email.rs:848-856 | The buffered messages are handed over and the buffer is emptied; memory and ledger stay, so the next poll is covered. |
| `EmailTheory.MarksSpread` | crates/zaion-adapters/src/email.rs:460-490 | Equal marks are at least the memory's limit apart, over every run. |
| `EmailTheory.Redelivery` | crates/zaion-adapters/src/email.rs:366-490 | Between two enqueues of one UID at least the limit's number of other distinct UIDs were marked. |
| `EmailTheory.RunConserves` | crates/zaion-adapters/src/email.rs:366-450 | Over every run each message is counted once and the ledger has one entry per enqueued message. |
| `EmailTheory.BrokenIsRetried` | crates/zaion-adapters/src/email.rs:366-450 | A message that fails to parse leaves no mark; after any further messages, in the same or later polls, that do not mark its UID, it is enqueued when it parses. |
| `EmailLaws.KindExactly` | crates/zaion-adapters/src/email.rs:374-400 | A message is a duplicate exactly when its UID is not empty, an earlier message of that UID was skipped or enqueued, and fewer than the limit were since; any other is broken, skipped or enqueued as it parses. |
| `EmailLaws.LedgerExactly` | crates/zaion-adapters/src/email.rs:412-446 | The ledger holds exactly the enqueued messages, in order, each with its own UID and message id. |
| `HomeAssistant.Adapter.IngestToBuffer` | crates/zaion-adapters/src/homeassistant.rs:386-494 | An event is buffered exactly when the watch rules let it through and its entity is not cooling down; only then is its time noted. |
| `HomeAssistantLaws.BufferedExactly` | crates/zaion-adapters/src/homeassistant.rs:392-455 | An event is buffered exactly when it reports a state change with a text, of a named entity that is not ignored and is watched, at least one cooldown after the time noted for it; saturating subtraction never matters. |
| `HomeAssistantLaws.DomainExactly` | crates/zaion-adapters/src/homeassistant.rs:412-415 | The domain is the text before the first dot; without a dot it is empty. |
| `HomeAssistantLaws.BufferedAllowed` | crates/zaion-adapters/src/homeassistant.rs:408-424 | Over every run nothing ignored or unwatched is buffered. |
| `HomeAssistantLaws.NotedExactly` | crates/zaion-adapters/src/homeassistant.rs:439-450 | With a cooldown, the time noted for an entity is that of its last accepted event; rejected events leave no trace. |
| `HomeAssistant.Adapter.ReadFrame` | crates/zaion-adapters/src/homeassistant.rs:536-586 | A frame completes a stage, reaches the filters, or is counted as ignored or invalid; the report stays consistent. |
| `HomeAssistant.Adapter.IngestLifecycle` | crates/zaion-adapters/src/homeassistant.rs:518-590 | Frames read = accepted + ignored + invalid + stages completed, and the invalid ones are those that are not JSON; subscribed implies authenticated implies auth-required seen; exactly the events after the subscription reach the filters. |
| `HomeAssistantTheory.RunKeepsSpacing` | crates/zaion-adapters/src/homeassistant.rs:439-450 | With a positive cooldown, accepted events of one entity are at least one cooldown apart over every run. |
| `HomeAssistantTheory.CooldownRate` | crates/zaion-adapters/src/homeassistant.rs:439-450 | k accepted events of one entity span at least (k-1) cooldowns. |
| `HomeAssistantTheory.MessageIdInjective` | crates/zaion-adapters/src/homeassistant.rs:455-455 | A message id determines entity and epoch, although entity ids may hold underscores and epochs a sign. |
| `HomeAssistantTheory.CooldownIdsDistinct` | crates/zaion-adapters/src/homeassistant.rs:439-455 | With a positive cooldown all accepted message ids are pairwise distinct across entities. |
| `HomeAssistantTheory.IdsDistinctExactly` | crates/zaion-adapters/src/homeassistant.rs:439-455 | For an adapter that lets some event through, ids are distinct in every run if and only if the cooldown is positive. |
| `HomeAssistantTheory.SubscribedExactly` | crates/zaion-adapters/src/homeassistant.rs:518-590 | Events are read exactly when auth-required, auth-ok and the acknowledgement occurred in this order, whatever lies between. |
| `HomeAssistantTheory.AuthenticatedExactly` | crates/zaion-adapters/src/homeassistant.rs:518-590 | Authentication is complete exactly when auth-required and auth-ok occurred in this order. |
| `HomeAssistantTheory.SubscriptionSplits` | crates/zaion-adapters/src/homeassistant.rs:518-590 | The events ingested are all those after the first acknowledgement and none before it. |
| `Signal.SortByStart` | crates/zaion-adapters/src/signal.rs:788-828 | Mentions are sorted by descending start and permuted. |
| `Signal.ReplaceInTurn` | crates/zaion-adapters/src/signal.rs:788-828 | Replacing from the right on the evolving text equals the left-to-right pass over the original. |
| `Signal.RenderMentions` | crates/zaion-adapters/src/signal.rs:788-838 | Without a placeholder the text is unchanged; disjoint in-range mentions in any order give one left-to-right substitution that keeps all other characters. |
| `Signal.RenderedExactly` | crates/zaion-adapters/src/signal.rs:788-828 | Of ascending mentions the last one's characters give way to its tag, what follows stays, and what precedes is rendered with the others. |
| `Signal.ReadExactly` | crates/zaion-adapters/src/signal.rs:805-820 | Defaults and tag of a mention: the number if it is text that is not blank, without a number the uuid, otherwise a stand-in. |
| `Signal.AscendingUnique` | crates/zaion-adapters/src/signal.rs:788-828 | That ascending order of the mentions is unique, so the result does not depend on the order given. |

## Left out

- SyntaxGate.Check: the TOML, JSON, Python and Shell checks are not modelled: library parsers or loose heuristics without
  a crisp specification.
- UntouchedText.UntouchedExactly: the only-if half asks that no chunk that is a single non-blank byte is repeated. With
  such chunks a text has several divisions into chunks, and whether a crosswise pairing can then spell the base is open.
- Hash collisions of `short_hash` and overflow of the 32-bit bracket counters.
- `Neutral` and `Composable` bound the validity theorems: nothing is claimed for sources whose strings or comments span chunks.
- Albums split across polls stay separate messages, as in the code; the album theorems are per poll.
- `TelegramReceive.Receiver.Receive` takes the decoded response; HTTP, JSON decoding, media download and the receive gate, which serialises polls, are not modelled.
- Concurrent email polls: the poller is modelled one poll at a time, so its second duplicate check cannot fire; signatures and receipts are not modelled.
- `HomeAssistant.Adapter.IngestLifecycle` does not model the `failure` text of the report, the websocket URL or token validation.
- Rendering of state changes, timestamps and friendly names in Home Assistant: the rendered text is part of the event.
- Poisoned locks, credentials and message formats of all adapters.
- File writes of the patcher, `insert_after_line` and the snapshot machinery.
- `chunk_message_for_platform`, retry providers, routers, SMS decoding, the run store and the other adapters: easy members, or no strong invariant.

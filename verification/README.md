# Verified model of the gateway's stateful cores

This project models the parts of the WaddleAI gateway whose correctness is
about state kept over many calls or about text that has to survive being
rewritten, and proves what they guarantee. Each module follows one source
file. Code that updates fields in place is a class whose methods are proved
against a function of the old state; what the source promises over whole runs,
interleavings or texts is then a lemma about that function.

| module | what it models |
|---|---|
| `Options` | optional values |
| `Text` | occurrence, leftmost non-overlapping replacement, decimal numerals |
| `UpstreamFilters`, `Pseudonyms` | pseudonymizing detected text before the provider call and restoring it in the response |
| `ContentFilter`, `MaskEdges` | sequential case-insensitive redaction and the filter's verdict |
| `OutputGuardrails` | redaction of a streamed response window by window |
| `DedupStore` | elision of repeated message blocks inside a request |
| `EventStream`, `JsonValues`, `Replay` | event-stream frames, a reader for them after WHATWG HTML, and the replay of cached responses |
| `Hooks`, `HookFields` | the tier-1 denylist over flattened tool input, the order of the tiers, and which patterns keep to one field |
| `CodeChunker` | the definition walk over a syntax tree and the upward class lookup |
| `Totals`, `Exact`, `ExactHistory` | the byte-quota LRU cache of exact responses, and its index told from the accesses |
| `Metering`, `MeteringProtocol`, `UsageWriter`, `UsageAccounts` | usage buffering, flushes in any interleaving, the usage table, and the accounts from events to rows |
| `RequestRouter` | provider statistics, circuit breaker, selection strategies |
| `RetrievalCache` | results cached under a corpus version while writers change the corpus |
| `Escalation` | sticky escalation of sessions |
| `Scratchpad` | the hot and durable tiers of the session scratchpad |
| `CacheConfig` | scoped cache configuration with negative caching |

How the world outside is represented: Valkey and database tables are maps or
sequences, expiry is a step that may remove any entries, clocks are `now`
parameters, and the outcome of a write, a health check, a detection, a token
count, a hash, a JSON encoder or case folding is a parameter that every lemma
quantifies over. A `nat` stands for a count that Python does not bound.

Whether a statement needs a hypothesis is part of the result. Where the code
meets a property only under a condition, the section below names the lemma that
states the exact condition and one with a concrete input on which it fails.
These hypotheses remain:

- the pseudonym results take texts, originals and rule names without brackets;
- elision takes an injective hash;
- the replay takes an encoder that its decoder undoes and that writes no line
  break (`FaithfulCodecExists` shows one), dictionaries with every key once, and
  texts where the source slices texts;
- redaction by a list is told exactly for texts that are clear of the mask or a
  part of it, and from one side for the others; for a single text exactly;
- the accounts of the byte counter take puts that follow misses, and those of
  the breaker times that do not decrease;
- the statements about joined fields take patterns without the separator;
- the weighted average takes positive latencies, and the scratchpad a time to
  live that is not negative.

## Where the code does less than its documentation says

- `shared/security/output_guardrails.py:25-27` and `:50-51` say that a match
  straddling two chunks is caught whole. It is cut whenever the total length
  received after some chunk, less 120 characters, falls inside it
  (`MatchKeptWholeIff`, `HeldBackTooLittle`). A window with a detection of
  severity "block" is emitted as it is (`WindowMeaning`).
- `shared/security/content_filter.py:1138-1140` promises complete removal.
  Among texts that are a part of the mask or clear of it, as all texts without
  brackets are, it holds unless one is a part of it and something was redacted
  (`RemovesAllIff`). A text that can meet the edge of a mask may remain
  (`MeetingAMaskDefeatsRedaction`); which single texts are removed from every
  input is told exactly by `AlwaysRemovedIff`, and lists whose texts cannot
  complete each other are removed (`CompatibleAreRemoved`).
- `shared/security/upstream_filters.py:144-155` restores placeholders in
  insertion order, so a placeholder split by a later replacement is not
  restored (`RoundTrip`, `RoundTripCanFail`).
- `shared/cache/replay.py:1-18` calls a replay indistinguishable from the
  genuine reply. The blocks received are the cached blocks only if they have
  exactly the fields that the replay sends, and likewise for completions
  (`ContentSurvivesIff`, `ReasoningIsLost`, `CompletionSurvivesIff`,
  `ToolCallsAreLost`).
- `shared/routing/escalation.py:76-77` says that the hint "auto:low"
  resets, but a sticky session stays escalated (`LowHintDoesNotReset`).
- `shared/utils/metering.py:244-247` says that the oldest rows are dropped.
  Two overlapping flushes can drop the younger ones; the ending flush drops the
  oldest exactly when the queue it makes is in age order (`OnlyOldestDropped`,
  `EndDropsOldestIff`, `OverlapDropsYounger`).
- `shared/utils/request_router.py:139-143` compares time stamps with `>`, so a
  failure in the same instant as the last success has no cooldown
  (`OpenBreakerOffersIff`, `SameInstantSkipsCooldown`).
- `shared/cache/exact.py:114-124` takes the size of the overwritten entry
  before eviction, which may remove that entry; the counter is then too low.
  It does so exactly when the write would not fit even with every older entry
  gone (`PutKeepsExactIff`, `EvictedIff`, `OverwriteUndercounts`).
- `shared/memory/scratchpad.py:171` re-warms with a full time to live, so a
  value can be served for almost twice as long, exactly until the last warming
  runs out (`ServedIff`, `GetReturnsLastPut`, `ServedAfterExpiry`).
- `shared/security/hooks_denylist.py:115-117`: the separator keeps fields apart
  for patterns whose only wildcards are stars at their ends, as in every
  built-in one, and for no others (`JoiningCreatesNoMatchIff`,
  `StarsAroundNeverCross`, `WildcardCrossesFields`).

## Model

| member | source | states |
|---|---|---|
| `UpstreamFilters.UpstreamFilter.PseudonymizeText` | `shared/security/upstream_filters.py:126-138` | The loop over the violations computes `Run`: each original that still occurs is replaced everywhere by its numbered placeholder and entered in the mapping |
| `UpstreamFilters.UpstreamFilter.Apply` | `shared/security/upstream_filters.py:72-116` | Which requests are touched at all and what is counted; mode "redact" gives the content filter's text, and only mode "pseudonymize" stores a mapping, under the fresh id and for the text returned |
| `UpstreamFilters.KeptInOrder` | `shared/security/upstream_filters.py:96-98` | With categories, the violations of those rules are kept, in order; without, all |
| `UpstreamFilters.UpstreamFilter.CountByRule` | `shared/security/upstream_filters.py:100-102` | The counts have exactly the rule names that occur, each with the number of its violations |
| `UpstreamFilters.UpstreamFilter.Depseudonymize` | `shared/security/upstream_filters.py:144-155` | The stored mapping is undone in insertion order; without a mapping the response is unchanged |
| `UpstreamFilters.UpstreamFilter.Cleanup` | `shared/security/upstream_filters.py:157-161` | Exactly the request's mapping is removed |
| `Pseudonyms.RoundTrip` | `shared/security/upstream_filters.py:126-155` | For every bracket-free text and every list of bracket-free violations, overlapping, nested and repeated originals included, restoring gives back the text if and only if no later original occurs in an earlier placeholder of the mapping |
| `Pseudonyms.RoundTripOfDetections` | `shared/security/upstream_filters.py:118-155` | The same for all detections made in the text itself, which need no further condition |
| `Pseudonyms.RoundTripForRules` | `shared/security/upstream_filters.py:126-155` | The round trip holds whenever no original occurs in any placeholder, a condition on the detections alone |
| `Pseudonyms.RoundTripCanFail` | `shared/security/upstream_filters.py:126-155` | A concrete text and two detections for which restoring does not give back the text |
| `Pseudonyms.MappingIsApplied` | `shared/security/upstream_filters.py:129-138` | The mapping lists exactly the violations whose original was found, in order, each under its own placeholder |
| `Pseudonyms.NextDetection` | `shared/security/upstream_filters.py:129-138` | One more detection: its full text, or without one the short text, is replaced everywhere by "[PSEUDO_rule_number]" and the pair goes last in the mapping; an empty or absent text is passed over |
| `Pseudonyms.InnerInjective` | `shared/security/upstream_filters.py:135` | Placeholders of different violations differ whatever the rule names are |
| `Pseudonyms.SubstRenders` | `shared/security/upstream_filters.py:137` | `str.replace` on the text is one replacement on nested tokens: a bracket-free original never straddles a placeholder's edge |
| `Pseudonyms.UndoRenders` | `shared/security/upstream_filters.py:153-154` | Restoring one placeholder on the text is replacing exactly the tokens whose inside is still intact |
| `Pseudonyms.FlatIffNoneInside` | `shared/security/upstream_filters.py:131-137` | Every placeholder stays intact if and only if no later original occurs in an earlier placeholder |
| `Pseudonyms.StuckNeverRestored` | `shared/security/upstream_filters.py:153-155` | A placeholder that was split is never restored: brackets remain in the result |
| `ContentFilter.ApplyRedactions` | `shared/security/content_filter.py:1131-1166` | The loop computes the sequential case-insensitive redaction of all violations |
| `Text.FirstMatchReplaced` | `shared/security/content_filter.py:1159-1165` | The leftmost match is replaced and the search goes on behind it |
| `Text.EmptyPattern` | `shared/security/content_filter.py:1159-1165` | An empty text matches before every character and at the end |
| `ContentFilter.DetermineAction` | `shared/security/content_filter.py:1099-1129` | Block before redact before log; only the redact violations change the text |
| `ContentFilter.RemovesAllIff` | `shared/security/content_filter.py:1131-1166` | For violation texts each of which is a part of the mask or clear of it, none is left anywhere under case folding if and only if none is a part of the mask or there was nothing to redact |
| `ContentFilter.BracketFreeIsClear` | `shared/security/content_filter.py:1159-1165` | A text without brackets is clear of the mask, whatever it is |
| `MaskEdges.AlwaysRemovedIff` | `shared/security/content_filter.py:1150-1166` | Without any hypothesis: redacting one text removes it from every input if and only if it is not empty, no part of the mask, does not begin in the end of a mask, and does not end in the beginning of one where its own redaction puts a mask |
| `MaskEdges.NotCompleted` | `shared/security/content_filter.py:1159-1165` | Redacting one text never leaves another one that its masks cannot complete, whatever their brackets |
| `MaskEdges.CompatibleAreRemoved` | `shared/security/content_filter.py:1150-1166` | From every input all texts of a list are removed if each is removed by its own redaction and each later one holds it or cannot complete it |
| `MaskEdges.ClearAreCompatible` | `shared/security/content_filter.py:1150-1166` | Lists of texts that are clear of the mask and no part of it, as all bracket-free ones outside the mask are, meet that condition |
| `ContentFilter.StaysAbsent` | `shared/security/content_filter.py:1159-1165` | One redaction removes its own text and never brings back a text that was absent, if that text is clear of the mask |
| `ContentFilter.MaskSurvives` | `shared/security/content_filter.py:1150-1166` | For any non-empty texts, once something was redacted a complete mask is in the final text |
| `ContentFilter.RedactingAgain` | `shared/security/content_filter.py:1131-1166` | Redacting a clean result again changes nothing |
| `ContentFilter.MeetingAMaskDefeatsRedaction` | `shared/security/content_filter.py:1131-1166` | A concrete pair of violations, one of which can meet the end of a mask, whose redaction leaves a violation text behind |
| `ContentFilter.VerdictMeaning` | `shared/security/content_filter.py:1099-1129` | Each action told from the severities, if and only if; after a redaction no full text of a violation to redact is left, nor its short text where it has no full one, if those are clear of the mask; otherwise the text is handed on as it is |
| `ContentFilter.NextViolation` | `shared/security/content_filter.py:1114-1166` | One more violation: its full text, or without one the short text, is replaced by "[REDACTED]" if it is to redact, and nothing happens if it is only logged |
| `ContentFilter.RedactedIsMasked` | `shared/security/content_filter.py:1150-1166` | A violation text that was there leaves "[REDACTED]" in the text handed on |
| `OutputGuardrails.ScanStream` | `shared/security/output_guardrails.py:42-86` | The windows emitted are those of the segments, in order: each redacted by the enabled tiers, raw ones as they are |
| `OutputGuardrails.ScanChunk` | `shared/security/output_guardrails.py:58-83` | What one chunk makes the scanner emit, hold and stop |
| `OutputGuardrails.RedactWindow` | `shared/security/output_guardrails.py:88-98` | One window through the detections of the enabled tiers and the filter's verdict |
| `OutputGuardrails.ScanIsFaithful` | `shared/security/output_guardrails.py:58-83` | After every chunk, emitted and held text together are the text received; at most 120 characters are held unless the budget stops the stream |
| `OutputGuardrails.SegmentsPartition` | `shared/security/output_guardrails.py:58-86` | The segments partition the whole stream, or a prefix of what was read when fail mode "closed" stops it |
| `OutputGuardrails.RawOnlyWhenOpen` | `shared/security/output_guardrails.py:61-77` | Unredacted windows leave only in fail mode "open" |
| `OutputGuardrails.RawExactlyOnOverrun` | `shared/security/output_guardrails.py:58-83` | A chunk makes at most one window, which is raw, and leaves nothing held back, exactly on an overrun in mode "open" |
| `OutputGuardrails.CutIsCutPoint` | `shared/security/output_guardrails.py:58-83` | After each chunk what was emitted ends at the cut computed from lengths and budget readings alone, in every fail mode |
| `OutputGuardrails.CutIsLengthMinusOverlap` | `shared/security/output_guardrails.py:79-83` | Away from overruns in mode "open" or "closed", that cut is everything but the last 120 characters |
| `OutputGuardrails.AllIsEmitted` | `shared/security/output_guardrails.py:58-86` | How much leaves the scanner: all of it, or up to the cut at which a budget stop found it |
| `OutputGuardrails.MatchInOneSegmentIff` | `shared/security/output_guardrails.py:42-86` | In every fail mode, a match in the emitted stream lies inside one window if and only if no cut is strictly inside it |
| `OutputGuardrails.MatchKeptWholeIff` | `shared/security/output_guardrails.py:42-86` | Away from such overruns, a match lies inside one window if and only if no chunk ends where 120 characters further back is strictly inside the match |
| `OutputGuardrails.HeldBackTooLittle` | `shared/security/output_guardrails.py:25-28` | A family of single chunks that split a match at the start of the stream, against the documented overlap guarantee |
| `OutputGuardrails.WindowMeaning` | `shared/security/output_guardrails.py:42-98` | What each window emitted for a stream still contains, over the built-in detections if tier 1 is on and the custom ones if tier 2 is on: all of it if it is raw, which needs fail mode "open", if an enabled tier finds something to block, or if both tiers are off; otherwise none of the texts that an enabled tier finds to redact, if none can be completed by a mask |
| `OutputGuardrails.OffTierDoesNotMatter` | `shared/security/output_guardrails.py:88-98` | What a tier that is off would detect changes nothing |
| `DedupStore.ElideIntraRequest` | `shared/memory/dedup_store.py:86-136` | The loop computes `Elided`: messages and savings; tools and system lists are deduplicated, an absent list or another system prompt is passed on |
| `DedupStore.RepeatsAreReplaced` | `shared/memory/dedup_store.py:107-132` | Replaced by a stub are exactly the messages whose text is no stub, has at least the floor in tokens and occurred in an earlier message (injective hash) |
| `DedupStore.DedupEntryList` | `shared/memory/dedup_store.py:45-57` | The first entry per key, in order; an absent list stays absent |
| `DedupStore.FirstOfKeeps` | `shared/memory/dedup_store.py:45-57` | The kept entries have distinct keys, cover every key, and deduplicating again changes nothing |
| `DedupStore.LaterDuplicatesGo` | `shared/memory/dedup_store.py:45-57` | An entry is dropped if and only if an earlier one has its key; the others keep their order |
| `DedupStore.ElisionIsInvertible` | `shared/memory/dedup_store.py:86-136` | Expanding each stub from the block it numbers restores the messages if and only if no input message already reads as a reference to an earlier block (injective hash) |
| `DedupStore.RestoredWithoutStubs` | `shared/memory/dedup_store.py:86-136` | Without stub-prefixed content in the input, expansion restores the messages |
| `DedupStore.CountIsDistinct` | `shared/memory/dedup_store.py:121-126` | The block counter is the number of different blocks so far (injective hash) |
| `DedupStore.StubReadsBack` | `shared/memory/dedup_store.py:32-33` | The number printed in a stub is the number read from it |
| `DedupStore.StubText` | `shared/memory/dedup_store.py:32-33` | The wording of a stub, and that what begins like one counts as one |
| `DedupStore.StubsReferBack` | `shared/memory/dedup_store.py:121-131` | A replaced message has the content of an earlier message that was kept, and its stub the number of that block among the different blocks (injective hash) |
| `DedupStore.ElidingAgain` | `shared/memory/dedup_store.py:97-136` | Eliding the result again changes nothing and saves nothing |
| `DedupStore.SavingsAreExact` | `shared/memory/dedup_store.py:128-130` | If no stub with a number up to the number of messages costs more than the floor, the savings reported are the tokens gone |
| `DedupStore.DefaultSavingsAreExact` | `shared/memory/dedup_store.py:40-42` | Under the default counter it is enough that the stub of the largest such number is within the floor |
| `DedupStore.SavingsAreExactIff` | `shared/memory/dedup_store.py:128-130` | The savings are never understated, and with an injective hash exact if and only if, for every repeated block of the input, the stub with its number costs no more than the block |
| `EventStream.ParsingUndoesPrinting` | `shared/cache/replay.py:57-82` | For any sequence of frames, reading the stream after sections 9.2.5 and 9.2.6 of WHATWG HTML gives back exactly the events sent if and only if no data contains a line break |
| `EventStream.FrameIsRead` | `shared/cache/replay.py:81-82` | One frame followed by anything is read as its event, then the rest |
| `EventStream.FrameText` | `shared/cache/replay.py:69-82` | The text of a frame |
| `EventStream.BrokenFrameIsMisread` | `shared/cache/replay.py:81-82` | A frame whose data has a line break yields a different event, whatever follows |
| `JsonValues.FaithfulCodecExists` | `shared/cache/replay.py:69` | An encoder of all JSON values into single lines, with a decoder that undoes it, exists: the hypothesis of the replay theorems can be met |
| `JsonValues.FalseValues` | `shared/cache/replay.py:48-51` | What Python takes for false, where the source writes "or" |
| `Replay.ChunksAreTheText` | `shared/cache/replay.py:34-37` | The chunks join to the text, none is empty or above 24 characters, and all but the last have 24 |
| `Replay.PayloadIsReadBack` | `shared/cache/replay.py:100-177` | The JSON of every event kind, read by its field names, gives back the event |
| `Replay.ReplayedMessageIsReassembled` | `shared/cache/replay.py:85-177` | Printed, parsed and followed by a client that accepts only start, blocks numbered from 0 with their deltas, message delta and stop, the replay is complete and carries every cached block, the stop reason and the usage |
| `Replay.ReplyMeaning` | `shared/cache/replay.py:92-167` | What a reply is, field by field and block by block, from the cached body, defaults included |
| `Replay.BlockIsRebuilt` | `shared/cache/replay.py:117-167` | A block's events, followed from any message under way, append exactly that block: text from its deltas, tool input from its JSON deltas |
| `Replay.SameStreamIff` | `shared/cache/replay.py:85-177` | Two cached messages give the same stream if and only if a client ends up with the same reply, the order of keys in the values passed on included |
| `Replay.BlockSurvivesIff` | `shared/cache/replay.py:118-165` | The client's block equals the cached block if and only if the cached one has just the fields sent |
| `Replay.ContentSurvivesIff` | `shared/cache/replay.py:117-167` | The client has the cached content if and only if every block has just the fields sent |
| `Replay.ReasoningIsLost` | `shared/cache/replay.py:144-165` | A block of another type is replayed as an empty text when it has none |
| `Replay.ChunkIsReadBack` | `shared/cache/replay.py:57-69` | The JSON of a chat chunk, read by its field names, gives back the chunk, usage only where it was sent |
| `Replay.ReplayedChatIsReassembled` | `shared/cache/replay.py:40-78` | Printed, parsed and followed by a client that accepts only role, contents, finish and the end marker under one id, the replay gives the cached content, finish reason and usage |
| `Replay.ChatReplyMeaning` | `shared/cache/replay.py:47-55` | Id, time, model and usage of a completion from the cached body, defaults included |
| `Replay.FirstChoiceIsSent` | `shared/cache/replay.py:47-51` | Text and finish reason are those of the first choice; without one there is no text |
| `Replay.SameChatStreamIff` | `shared/cache/replay.py:40-78` | Two cached completions give the same stream if and only if a client ends up with the same completion |
| `Replay.CompletionSurvivesIff` | `shared/cache/replay.py:47-78` | The client has the cached completion if and only if it has just the fields sent: one choice, a message with a text and nothing else, and no null usage |
| `Replay.ToolCallsAreLost` | `shared/cache/replay.py:48-50` | A completion whose message has tool calls does not come back as it was cached |
| `Hooks.CompileGlob` | `shared/security/hooks_denylist.py:79-98` | Each character of the pattern becomes its piece of the regular expression |
| `Hooks.PieceTakes` | `shared/security/hooks_denylist.py:79-105` | A star takes any characters up to a line break, a question mark one other than a line break, any other character itself after folding |
| `Hooks.Walk` | `shared/security/hooks_denylist.py:123-132` | The recursive walk appends every string leaf in order |
| `Hooks.FlattenToolInput` | `shared/security/hooks_denylist.py:108-135` | The flattened text is the leaves joined by the unit separator |
| `Hooks.LeafMatchIsTextMatch` | `shared/security/hooks_denylist.py:101-135` | A pattern that matches a leaf at any depth matches the flattened text, wildcards included |
| `Hooks.FirstMatchFinds` | `shared/security/hooks_denylist.py:138-145` | The denylist has a hit if and only if some entry matches |
| `Hooks.FirstMatchIsFirst` | `shared/security/hooks_denylist.py:138-145` | The first entry that matches is the one reported |
| `Hooks.DenylistIsAbsolute` | `shared/security/hooks_engine.py:140-190` | A leaf that matches a denylist entry is denied whatever rules, configuration and tier 2 say, and tier 1 answers only for a match in the text |
| `Hooks.WinnerIsMostSevere` | `shared/security/hooks_rules.py:79-93` | The winning rule applies, and no rule that applies is more severe |
| `Hooks.VerdictIff` | `shared/security/hooks_engine.py:149-261` | Exactly when a call is denied and exactly when it is allowed: denylist first, then the rules that apply, and remote evaluation with its fail mode only when none does |
| `Hooks.TierIff` | `shared/security/hooks_engine.py:149-261` | Which tier answers, and exactly when the answer is marked as degraded |
| `Hooks.LiteralMatchesOneLeaf` | `shared/security/hooks_denylist.py:101-135` | A pattern without wildcards and separator matches the flattened text if and only if it matches one leaf |
| `Hooks.WildcardCrossesFields` | `shared/security/hooks_denylist.py:115-117` | A concrete payload on which a wildcard matches across two fields and in neither |
| `HookFields.JoiningCreatesNoMatchIff` | `shared/security/hooks_denylist.py:79-135` | For a pattern without the separator, joining creates no match on any input if and only if the pattern is empty or, without the stars at its ends, is a non-empty text without wildcards |
| `HookFields.CoreFinds` | `shared/security/hooks_denylist.py:90-105` | Stars at the ends of a pattern change nothing in what it finds |
| `HookFields.WildcardCrosses` | `shared/security/hooks_denylist.py:79-135` | Every inner wildcard has two fields that the pattern matches jointly and neither alone |
| `HookFields.StarsAroundNeverCross` | `shared/security/hooks_denylist.py:44-64` | Patterns of the form of all built-in ones never match across fields |
| `CodeChunker.EnclosingClassName` | `shared/knowledge/code_chunker.py:249-256` | The upward walk finds the nearest class above the node |
| `CodeChunker.YieldsAreVisible` | `shared/knowledge/code_chunker.py:130-152` | Everything yielded is a definition with no function or method above it, with the right kind, name and class name |
| `CodeChunker.VisibleIsYielded` | `shared/knowledge/code_chunker.py:130-152` | Every such definition is yielded |
| `CodeChunker.YieldsInOrder` | `shared/knowledge/code_chunker.py:131` | The yields are in document order, each once |
| `CodeChunker.WalkIsExact` | `shared/knowledge/code_chunker.py:130-152` | For every tree the walk yields exactly the definitions with no function or method ancestor, in preorder, and the class name passed down is the one the upward walk finds |
| `Exact.ExactCache.Get` | `shared/cache/exact.py:68-89` | A hit returns the live entry and refreshes its score, a payload that does not parse is a miss that refreshes it too; no other organization changes |
| `Exact.ExactCache.Put` | `shared/cache/exact.py:91-125` | A payload above the entry limit is refused without a write; otherwise eviction, entry, index and counter are those of `Stored`, and no other organization changes |
| `Exact.ExactCache.Evict` | `shared/cache/exact.py:137-165` | The loop ends and computes `EvictToFit` |
| `Exact.EvictsOldestFirst` | `shared/cache/exact.py:137-165` | Every evicted key is older in access order than every kept key, and nothing else changes |
| `Exact.EvictsNoMoreThanNeeded` | `shared/cache/exact.py:146-158` | The loop stops when the write fits or nothing is left, and with its youngest victim back in place the write would not fit |
| `Exact.PutAfterMiss` | `shared/cache/exact.py:91-125` | A put of a key that is not live keeps the counter covering, keeps it exact if it was, and ends within the quota or with the new entry alone |
| `Exact.PutKeepsExactIff` | `shared/cache/exact.py:114-135` | From exact accounts, a put keeps them exact if and only if it is not the overwrite of a live entry that would not fit even with every older entry gone |
| `Exact.EvictedIff` | `shared/cache/exact.py:146-158` | A live entry is evicted if and only if the write would not fit even with every older entry gone |
| `Exact.OverwriteUndercounts` | `shared/cache/exact.py:114-135` | A concrete overwrite after which the counter is 600 bytes too low |
| `Exact.CounterCoversContents` | `shared/cache/exact.py:68-165` | In every run whose puts follow misses the counter is at least the size of the live entries, and equal if nothing expired |
| `Exact.QuotaAfterPut` | `shared/cache/response_cache.py:132-135` | After each accepted put of such a run the organization is within its quota or holds the new entry alone |
| `Exact.OrganizationsAreIsolated` | `shared/cache/exact.py:137-142` | In every run over all organizations, each one's entries, index and counter are what its own calls make them |
| `Exact.HitIsLastPut` | `shared/cache/exact.py:68-125` | In every run a live entry is the payload last put under that organization and key |
| `ExactHistory.IndexIsLastAccess` | `shared/cache/exact.py:68-125` | In every run the score of a key is the time of its last access, an accepted put or a get that found it, and every live entry has one |
| `ExactHistory.LeastRecentlyUsedGoes` | `shared/cache/exact.py:137-165` | In every run a key that a put of another one evicts was last accessed no later than any that it keeps, with ties going by the digest |
| `ExactHistory.OthersStay` | `shared/cache/exact.py:68-125` | An accepted put holds its payload and leaves the other entries as they were, all of them if there is room; a refused one and a get change no entry |
| `ExactHistory.ExpiryTakesEntries` | `shared/cache/exact.py:122` | Expiry takes exactly the entries it names and leaves index and counter as they were |
| `ExactHistory.HitSavesEntry` | `shared/cache/exact.py:68-165` | A run in which a hit saves an entry that would be evicted without it |
| `Metering.MeteringBuffer.Record` | `shared/utils/metering.py:255-265` | The event is appended to the buffer |
| `Metering.MeteringBuffer.TakeAll` | `shared/utils/metering.py:311-316` | The first locked section takes events and retries and leaves both empty |
| `Metering.MeteringBuffer.Requeue` | `shared/utils/metering.py:341-355` | Failed aggregates go to the back and the surplus leaves at the front |
| `Metering.MeteringBuffer.AggregateEvents` | `shared/utils/metering.py:357-400` | The loop computes the aggregates in insertion order |
| `Metering.MeteringBuffer.Flush` | `shared/utils/metering.py:301-355` | What an uninterrupted flush writes, keeps and drops, for every outcome of the writes |
| `Metering.MeteringBuffer.WriteEach` | `shared/utils/metering.py:328-339` | Each aggregate is tried in turn and ends up written or failed |
| `Metering.AggregationConserves` | `shared/utils/metering.py:357-424` | Each key has one aggregate, and for any set of keys the tokens, requests and savings of the aggregates are the sums over their events |
| `Metering.AggregateFlags` | `shared/utils/metering.py:381-398` | An aggregate is marked as estimated if and only if some event of its key was, and its status is the last one reported |
| `Metering.AggregatesKeepEvents` | `shared/utils/metering.py:398` | An aggregate holds exactly the events of its key, in order |
| `Metering.EventsBelongToTheirAggregate` | `shared/utils/metering.py:357-408` | Every event of an aggregate has its virtual key, model and provider, and a time within its minute |
| `Metering.TriedSplits` | `shared/utils/metering.py:328-339` | Every aggregate tried ends up written or failed, in order, by the fate of its own write |
| `MeteringProtocol.NothingIsLost` | `shared/utils/metering.py:255-355` | In every interleaving of recording, overlapping flushes and write outcomes, for any set of keys and every quantity: recorded = written + in flight + waiting + buffered + dropped, and the retry queue keeps its bound |
| `MeteringProtocol.WriteMeaning` | `shared/utils/metering.py:328-339` | A write that succeeds moves the next aggregate to what is written; one that fails writes nothing and keeps it for the retry |
| `MeteringProtocol.DrainedIsWritten` | `shared/utils/metering.py:301-355` | With nothing buffered, in flight or waiting, everything recorded was written or dropped |
| `MeteringProtocol.OnlyOldestDropped` | `shared/utils/metering.py:244-247` | Without overlapping flushes, whatever is dropped is no younger than whatever still waits |
| `MeteringProtocol.EndDropsOldestIff` | `shared/utils/metering.py:341-347` | In any state, whatever runs beside it, ending a flush drops only the oldest for every bound if and only if the waiting aggregates and its failed ones behind them are in age order |
| `MeteringProtocol.OverlapDropsYounger` | `shared/utils/metering.py:301-355` | A run with two overlapping flushes that drops the younger aggregate |
| `UsageWriter.PenguinDALUsageWriter.WriteAggregatedRow` | `shared/utils/metering.py:109-211` | The row of the key and day is updated, or inserted, with the breakdown merged |
| `UsageWriter.ModelKeyText` | `shared/utils/metering.py:146` | The breakdown key is the provider, an underscore, and the model with underscores for hyphens |
| `UsageWriter.TableHoldsAll` | `shared/utils/metering.py:109-211` | After any writes, colliding model keys included: one row per virtual key and day, each the sum of exactly that day's aggregates, with a breakdown that sums to the row's totals, the last non-empty cache status, and no aggregate without a row |
| `UsageWriter.TableTotals` | `shared/utils/metering.py:109-211` | The totals of the table are the totals of all aggregates written |
| `UsageWriter.EstimatedStays` | `shared/utils/metering.py:166-176` | The estimated flag of a row never goes back |
| `UsageAccounts.TableKeepsAccount` | `shared/utils/metering.py:109-355` | In every interleaving, per virtual key, day and quantity: what the recorded events of that key, with a time within that day, count for = what the row of the day says + in flight + waiting + buffered + dropped |
| `RequestRouter.RequestsAreCounted` | `shared/utils/request_router.py:341-365` | Over every history, total = successes + failures, each counted once, health checks not at all |
| `RequestRouter.StreakIsTrailingFailures` | `shared/utils/request_router.py:341-365` | The consecutive failures are those since the last success in the history |
| `RequestRouter.LatencyWithinBounds` | `shared/utils/request_router.py:357-361` | The average latency stays within any bounds on the successful latencies |
| `RequestRouter.LatencyIsWeighted` | `shared/utils/request_router.py:357-361` | For positive latencies the average is the closed sum of all of them with weights fading by a tenth, which sum to one |
| `RequestRouter.OpenBreakerOffersIff` | `shared/utils/request_router.py:139-152` | With three trailing failures a provider is offered, only as a probe, if and only if no probe is out and the last failure is 300 seconds ago, or carries the time of the last success |
| `RequestRouter.ClosedBreakerOffersIff` | `shared/utils/request_router.py:139-158` | With fewer than three trailing failures a provider is offered, never as a probe, if and only if nothing has failed, or the last success is not before the last failure, or that is 300 seconds ago |
| `RequestRouter.SameInstantSkipsCooldown` | `shared/utils/request_router.py:139-143` | A history in which the exception occurs |
| `RequestRouter.ProbingMeansProbeOut` | `shared/utils/request_router.py:148-150` | The probe flag is set if and only if there was a half-open offer since the last outcome |
| `RequestRouter.OneProbeAtATime` | `shared/utils/request_router.py:132-152` | Between two half-open offers of a provider there is an outcome of a request to it |
| `RequestRouter.OfferedMeaning` | `shared/utils/request_router.py:122-160` | A provider is offered if and only if it supports the model and the breaker does not refuse what its own history makes of it |
| `RequestRouter.OfferedInOrder` | `shared/utils/request_router.py:122-160` | The offers keep the order of the connectors, each decided by its own models, none of which stands for any, and its own history |
| `RequestRouter.LLMRequestRouter.GetAvailableProviders` | `shared/utils/request_router.py:122-160` | Computes the offers and records a consideration for every provider that supports the model |
| `RequestRouter.LLMRequestRouter.UpdateProviderStats` | `shared/utils/request_router.py:341-365` | The statistics remain those of the history with the outcome appended |
| `RequestRouter.LLMRequestRouter.RecordHealth` | `shared/utils/request_router.py:433-449` | The statistics remain those of the history with the check appended; unknown providers are ignored |
| `RequestRouter.LLMRequestRouter.RoundRobinSelection` | `shared/utils/request_router.py:193-206` | Providers in turn by the model's counter |
| `RequestRouter.TurnsGoRound` | `shared/utils/request_router.py:193-206` | From a fresh counter, turn n selects provider n modulo their number |
| `RequestRouter.LLMRequestRouter.CostOptimizedSelection` | `shared/utils/request_router.py:208-223` | The first provider of least cost, an unknown cost being infinite |
| `RequestRouter.LLMRequestRouter.LatencyOptimizedSelection` | `shared/utils/request_router.py:225-236` | The first provider of least average latency |
| `RequestRouter.LLMRequestRouter.LoadBalancedSelection` | `shared/utils/request_router.py:238-254` | The first provider of least load |
| `RequestRouter.PickedIsLeast` | `shared/utils/request_router.py:208-254` | What is selected by cost, average latency or load is not above any other available provider, latency and load being told from the histories |
| `RequestRouter.LoadMeaning` | `shared/utils/request_router.py:246-248` | The load is one for every failed request in the history and ten for every trailing failure |
| `RequestRouter.TiesGoToTheFirst` | `shared/utils/request_router.py:208-254` | Of providers of equal cost, average latency or load the first is selected |
| `RequestRouter.LLMRequestRouter.FailoverSelection` | `shared/utils/request_router.py:256-268` | The first preferred provider that is available, else the first available |
| `RequestRouter.PreferencesInOrder` | `shared/utils/request_router.py:256-268` | Preferences are tried one by one, the first available provider being last |
| `RequestRouter.LLMRequestRouter.SelectProvider` | `shared/utils/request_router.py:367-415` | The selection is always among this call's offers; the hint is honoured when its provider is offered and has affinity, and otherwise the strategy decides, of which only round robin moves the model's counter |
| `RetrievalCache.RetrievalResultCache.BumpCorpusVersion` | `shared/memory/retrieval_cache.py:49-51` | The version of this corpus goes up by one, no other changes |
| `RetrievalCache.RetrievalResultCache.GetOrCompute` | `shared/memory/retrieval_cache.py:60-86` | An uninterrupted lookup returns the entry under the current version, or computes and stores it there |
| `RetrievalCache.CacheReflectsBumps` | `shared/memory/retrieval_cache.py:45-86` | In every interleaving of readers and writers that write and then bump, anything cached under version v was computed from a corpus with every write bumped by v |
| `RetrievalCache.NoStaleResult` | `shared/memory/retrieval_cache.py:45-86` | A lookup that starts after a write's bump never returns a result that misses the write, nor one with writes of another corpus, nor one for another query or another number of hits |
| `RetrievalCache.ReturnedIsServed` | `shared/memory/retrieval_cache.py:60-86` | What was computed is stored and served again, without computing, to the next lookup for the same under the same version |
| `RetrievalCache.LookupAfterFirstWrite` | `shared/memory/retrieval_cache.py:45-86` | The first write makes version one, and a lookup after it computes from a corpus with exactly that write |
| `Escalation.StickyState.MarkEscalated` | `shared/routing/escalation.py:119-128` | The entry is set to now with a full time to live; an empty session id changes nothing |
| `Escalation.StickyState.Reset` | `shared/routing/escalation.py:179-186` | Exactly the session's entry is removed |
| `Escalation.StickyState.IsSticky` | `shared/routing/escalation.py:130-177` | Answer and new store for both policies, expiry included |
| `Escalation.StickyState.ResolveEscalation` | `shared/routing/engine.py:235-264` | The decision of one turn and the store it leaves |
| `Escalation.EscalatedIff` | `shared/routing/engine.py:235-264` | Under either policy, which turns are escalated, told from the requests alone: sticky ones, the hints "true" and "auto:high", and without the hint "auto:low" a complexity at the threshold, an unhealthy route or a failure signal |
| `Escalation.DecisionMeaning` | `shared/routing/engine.py:244-264` | Under either policy the decision and the trigger it names: sticky first, then the hints, then the first trigger the turn has |
| `Escalation.NoSessionNoState` | `shared/routing/engine.py:244-264` | Without a session id nothing is sticky and nothing is stored |
| `Escalation.EntryFollowsHistory` | `shared/routing/escalation.py:119-177` | Under idle reset the stored entry exists exactly while an escalation is carried on and holds the time of the last turn |
| `Escalation.StickyIffCarriedOn` | `shared/routing/engine.py:244-264` | Under idle reset a turn is sticky if and only if an earlier turn had a trigger and since then every gap is below the idle limit and the time to live and no turn began a new conversation |
| `Escalation.NeverStickyIff` | `shared/routing/escalation.py:151-163` | Under "never" a turn is sticky if and only if it is within the time to live of the mark kept, told from times and triggers alone; being sticky does not extend it |
| `Escalation.LowHintDoesNotReset` | `shared/routing/escalation.py:76-77` | Under either policy a turn with the hint "auto:low" is escalated, and the entry kept, if and only if the session was sticky already |
| `Escalation.SessionsAreIndependent` | `shared/routing/escalation.py:106-108` | In any interleaving a session's entry is what its own requests make it |
| `Escalation.EntryIsOfOwnTurns` | `shared/routing/escalation.py:106-108` | Under one policy that entry is the one the statements about a single session speak of |
| `Scratchpad.ScratchpadStore.Put` | `shared/memory/scratchpad.py:86-154` | Size limit, then key limit for new keys, then both tiers written, quarantined values in the durable tier only |
| `Scratchpad.AdmissionMeaning` | `shared/memory/scratchpad.py:99-113` | A value above the limit in bytes is refused, then a new key of a session and user who have as many active ones as they may, and nothing else |
| `Scratchpad.ScratchpadStore.Get` | `shared/memory/scratchpad.py:156-172` | Hot value first, else an active unexpired row, which is warmed again |
| `Scratchpad.ScratchpadStore.Delete` | `shared/memory/scratchpad.py:186-190` | The key leaves both tiers; the answer says whether there was a row |
| `Scratchpad.TiersAgree` | `shared/memory/scratchpad.py:86-190` | In every run a hot value is that of the active durable row |
| `Scratchpad.RowIsLastPut` | `shared/memory/scratchpad.py:86-190` | The durable row is that of the last admitted put with no delete since |
| `Scratchpad.GetReturnsLastPut` | `shared/memory/scratchpad.py:156-172` | A get returns only the filtered text of the last put of that very key, not quarantined nor deleted since, and before twice the time to live; within the time to live it does return it |
| `Scratchpad.ServedIff` | `shared/memory/scratchpad.py:156-172` | A get returns a value if and only if the last put was neither quarantined nor deleted and its own time to live, or that of the last warming not followed by a loss, is not over |
| `Scratchpad.HotIsWarmed` | `shared/memory/scratchpad.py:136-172` | The hot tier holds a key if and only if it was warmed, by a put or a get, and not removed since, and then until one time to live after that |
| `Scratchpad.ServedAfterExpiry` | `shared/memory/scratchpad.py:156-172` | A run in which a value is served after its row has expired |
| `CacheConfig.CacheConfigResolver.Resolve` | `shared/cache/config.py:87-115` | The configuration and the cache left, from table and cache before the call |
| `CacheConfig.CacheConfigResolver.Merge` | `shared/cache/config.py:127-138` | The loop computes the field-by-field override from broad to narrow |
| `CacheConfig.CacheConfigResolver.Invalidate` | `shared/cache/config.py:140-142` | Exactly the scope's cached entry is removed |
| `CacheConfig.CacheIsTrue` | `shared/cache/config.py:96-113` | In every run what is cached for a scope not awaiting invalidation is what the table says, missing rows included |
| `CacheConfig.ResolveGoesByRowsSeen` | `shared/cache/config.py:87-142` | After any run whatever, a lookup gives the field-wise merge of the rows that its scopes were last read with since their last invalidation or expiry, and of the present rows for the others |
| `CacheConfig.OverriddenIsNarrowest` | `shared/cache/config.py:127-138` | Each field has the value of the narrowest scope that sets it |
| `CacheConfig.ResolveIsUncached` | `shared/cache/config.py:87-142` | After any run, if no scope of the lookup awaits invalidation, it gives the uncached field-wise configuration |
| `CacheConfig.StaleUntilInvalidated` | `shared/cache/config.py:140-142` | A run in which a write without invalidation leaves a stale answer |

## Left out

- The clients of Valkey, the database and HTTP, with their failures: state is a map, and expiry is a step that may remove any entries.
- String rendering of cache keys: keys are tuples. Session ids and model names may contain a colon, so the rendered keys are not claimed to be distinct.
- The detection of violations (regular expressions, entity recognition, auditors): lists of violations are inputs, and so is the upper-case rule name.
- Unicode: characters are compared after a folding of single characters; multi-character folds and normalisation are not modelled.
- `shared/security/upstream_filters.py:50-52` (category presets) and the time to live of a mapping, which is the branch for an unknown mapping.
- Pseudonyms.RoundTrip: rule names and texts without square brackets, which are the placeholder's own delimiters; what happens to other texts is not stated.
- ContentFilter.RemovesAllIff: lists in which a mask for one violation text can complete another one; which inputs then keep such a text is not told.
- `shared/security/content_filter.py` apart from the verdict and the redaction.
- The elapsed time behind the stream budget: its reading at each chunk is an input, so the statements hold for every clock.
- `shared/memory/dedup_store.py:75-84` (canonical registry and prefix counters).
- EventStream.Field: the `retry` field is read and ignored, as it changes the reconnection time only.
- JsonValues.Faithful: JSON encoding is any encoding that its decoder undoes and that writes no line break; orjson itself is not modelled, numbers are decimal numerals, and the bytes are taken after UTF-8 decoding.
- Replay: cached bodies whose fields have types on which the source raises an exception, such as a text that is a number.
- Hooks.Winner: priority and id of a rule, which choose the rule that is named and not the decision; the matching of a rule's own fields is a predicate.
- The caching of denylists and rules in their resolvers, and metrics.
- `shared/knowledge/code_chunker.py` apart from the two walks: chunk text, leftover module groups, line windows, and tree-sitter itself.
- Exact: interleaved puts of one organization; each call is one step, as in the property about runs.
- Cancellation of a running flush in `MeteringBuffer.stop`, after which aggregates in flight are not requeued; a write that raises after it took effect, and two writes of one row at the same time, which read and update it in separate statements.
- UsageWriter.PenguinDALUsageWriter.WriteAggregatedRow: does not model the user, organization, cost, source and time-stamp columns, nor rows made by other writers.
- Recovery of a probing provider: availability filtering reserves the probe even if another provider is selected, so only safety is claimed.
- `shared/utils/request_router.py:270-339` (execution with fallback between providers), and averages in floating point: latencies are real numbers.
- RetrievalCache.NoStaleResult: computing a result reads the corpus in one step, and a version counter is never lost.
- Failures of Valkey inside the sticky state, and the rest of the routing engine (sensitivity, budget clamps, alias splitting), which is settled branch by branch.
- The scratchpad key limit as an invariant: putting a quarantined key again skips the count, so the number of active keys is not bounded by it; and `list`.
- RBAC, licensing, fleet backends, MCP servers, OIDC, and the Go, Rust and JavaScript parts.

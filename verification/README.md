# Verified models of the agent runtime's core

This project models seven parts of the runtime in Dafny and proves what they guarantee. Code that changes state step by
step is a class or a loop here too; each such method is tied to a specification function or a declarative predicate,
and the laws are proved about that specification. Where an intended guarantee does not hold for every input, the exact
condition under which it does is proved, and an input or run on which it fails is exhibited.

| Part | Files |
|---|---|
| Conversation history: the two-pass sanitizer, safe cuts, emergency compression, turn rollback | `Messages.dfy`, `Sanitizer.dfy`, `SanitizerLaws.dfy`, `ContextBudget.dfy`, `TurnRollback.dfy` |
| Message splitter | `SplitPlan.dfy`, `Splitter.dfy`, `SplitWords.dfy`, `SplitLaws.dfy`, `SplitEnds.dfy`, `SplitLoops.dfy` |
| Ref-counted media store | `MediaStore.dfy`, `MediaRuns.dfy` |
| Ogg packet decoder | `OggOpus.dfy` |
| Prompt cache validated by modification times | `PromptCache.dfy` |
| JSON-RPC client queue and projector; cron service | `Client.dfy`, `TurnProjection.dfy`, `Cron.dfy`, `CronDue.dfy`, `CronRuns.dfy`, `CronServe.dfy`, `CronOverlap.dfy` |
| Account switching; benchmark aggregation | `AccountPolicy.dfy`, `AccountRuns.dfy`, `Accounts.dfy`, `EvalAggregation.dfy` |

`dafny verify dfyconfig.toml` checks the whole project.

## What was found

- **Sanitizer.** The result is acceptable to a strict provider, and sanitizing is idempotent, if and only if no
  surviving assistant message makes a call whose id was already answered earlier (`ValidIffNoCallReused`,
  `IdempotentIffNoCallReused`). Two identical turns are enough to lose a result (`ReuseBreaksSanitizing`). Sanitizing is
  compositional at a turn boundary if and only if the two halves keep no common result id (`CompositionalIffDisjoint`).
- **Splitter.** Length and content laws hold for every text and every positive limit. Only one kind of round can fail
  to shorten the buffer: re-opening a code block whose header line does not fit next to the closing fence
  (`RoundShrinks`, `LongHeaderNeverShrinks`). The loop ends if and only if it never reaches a stuck state: one in which
  the rest begins with a header line to be re-opened that leaves no room, and the buffer with that line put back is again
  longer than the limit (`TerminatesIff`, for every text and limit; the text gives a number of rounds after which the
  question is settled). Sixteen runes are enough to be split for ever (`GoBlockNeverEnds`), also with words in front
  (`PrefacedBlockNeverEnds`). A blank line after the header does not stall the loop. Text without code blocks is cut
  inside a word only where a word is too long (`WordsStayWhole`).
- **Media store.** A file is scheduled for deletion exactly by the request that takes it out of use, and only if nobody
  who stored it since it came into use gave the text "forget_only" (`ScheduleLaw`).
- **Rollback.** For every run, unrecorded appends and background summaries included, it is told without looking at the
  restore point when a hard abort leaves exactly the surviving pre-turn messages (`AbortExact`). Without background
  summaries: if and only if no compaction took place or the last one left a recoverable record, that is, the turn's live
  messages are the newest recorded ones, and the record before them cannot be mistaken for the last pre-turn message
  (`AbortWithoutSummary`). A background summary that ends during a turn is followed by no refresh: a right restore point
  survives it if and only if it cuts no pre-turn message (`StepExact`), and an abort undoes its cut (`SummaryUndone`).
  Along runs with recorded appends a step goes wrong only in that way, or when emergency compression keeps a user message
  of the running turn (`RecordedStepExact`, `OwnUserLeakReachable`). An unrecorded append can leave messages of the
  aborted turn behind (`UnrecordedLeaks`), but need not: a later compaction may cut it off.
- **Emergency compression** can empty a history of one turn whose user message is spelled in another case
  (`CompressionKeepsNewestUser`, `CompressionEmpties`).
- **Client.** A call made in the middle of a turn never sees its response once a notification is queued
  (`MidTurnCallReturnsIff`).
- **Prompt cache.** A passing check means the cached reads are current, unless a file was created after the baseline,
  read, and deleted again before the check (`CheckExact`, `VanishedWasNew`, `TransientFileStaysCached`).
- **Accounts.** A switch overwrites the live credential without putting it away: a renewed token survives the switch
  exactly if its snapshot was already up to date (`SwitchKeepsIff`, `HardSwitchKeepsIff`); `RenewalLost` is a run that
  loses one. Importing an account does put it away (`ImportedExact`). The choice of a target is optimal if and only if
  nobody is eligible or the first best candidate of the better tier has a name and beats the initial minus one
  (`OptimalIff`); an unnamed one hides the others (`UnnamedCandidateHidesOthers`).
- **Cron.** A reminder that is added and saved in time and then left alone is called exactly once, when a check at its
  time or later is worked off (`ReminderLaw`). A job that has been collected still runs when it is disabled before its
  turn comes (`CollectedJobRuns`). If the service is stopped and started again while a check is under way, one-time jobs
  still fire at most once (`OneTimeLaw`), but the interval of repeating jobs is not kept: whenever the check still holds
  such a job, a continuation calls it twice within its interval (`OverlapBreaksInterval`).

## Model

| member | source | states |
|---|---|---|
| `Sanitizer.SanitizeHistoryForProvider` | pkg/agent/context.go:622-751 | the two-pass loop computes the specification that all sanitizer laws are about |
| `Sanitizer.FindOpenAssistant` | pkg/agent/context.go:643-658 | the backward walk decides whether the tool messages at the end of the kept prefix are headed by a tool-calling assistant |
| `Sanitizer.SecondPass` | pkg/agent/context.go:688-750 | the loop with its adjusted index is block removal followed by deduplication |
| `Sanitizer.CheckResults` | pkg/agent/context.go:704-744 | an assistant's block is complete if and only if each call id is answered in the run right after it; the run's length is the number of messages skipped otherwise |
| `SanitizerLaws.SanitizeAlways` | pkg/agent/context.go:622-751 | for every history: the result is a subsequence with all user and plain messages, no system message, every tool message under a tool-calling assistant, no id answered twice |
| `SanitizerLaws.FixedPointIffValid` | pkg/agent/context.go:622-751 | the sanitizer leaves a history unchanged if and only if a strict provider accepts it |
| `SanitizerLaws.ValidIffNoCallReused` | pkg/agent/context.go:684-750 | the result is provider-valid if and only if no surviving assistant reuses a call id answered before it |
| `SanitizerLaws.IdempotentIffNoCallReused` | pkg/agent/context.go:661-677 | idempotence holds under exactly the same condition, the predecessor rule after dropped blocks included |
| `SanitizerLaws.CompleteBlocksFacts` | pkg/agent/context.go:627-746 | before deduplication every message is well placed and every call answered |
| `SanitizerLaws.Pass1Identity` | pkg/agent/context.go:627-682 | the first pass drops nothing if and only if every message is well placed |
| `SanitizerLaws.DropPlaced` | pkg/agent/context.go:704-746 | removing incomplete blocks keeps the placement rules, across the boundary to what was kept before |
| `SanitizerLaws.DedupPlaced` | pkg/agent/context.go:689-702 | deduplication keeps the placement rules when no call id is reused |
| `SanitizerLaws.SanitizeSplit` | pkg/agent/context.go:622-751 | for every history and every cut at a plain message: sanitizing is sanitizing both parts, minus the later results whose ids the first part kept |
| `SanitizerLaws.CompositionalIffDisjoint` | pkg/agent/context.go:622-751 | sanitizing is compositional at a user message if and only if the sanitized parts share no result id |
| `SanitizerLaws.CompositionalWhenIdsSeparate` | pkg/agent/context.go:622-751 | it is compositional whenever no result id occurs on both sides of the raw cut |
| `SanitizerLaws.LocalIdsSuffice` | pkg/agent/context.go:689-702 | if equal ids occur only within one stretch of tool and system messages, the result is valid and a fixed point |
| `SanitizerLaws.ReuseBreaksSanitizing` | pkg/agent/context.go:689-702 | two equal valid turns: compositionality, validity and idempotence all fail |
| `SanitizerLaws.SanitizedIds` | pkg/agent/context.go:622-751 | sanitizing adds no result id |
| `ContextBudget.ParseTurnBoundaries` | pkg/agent/context_budget.go:20-28 | returns exactly the user positions, in increasing order |
| `ContextBudget.IsSafeBoundary` | pkg/agent/context_budget.go:33-38 | an index is safe if and only if it is an end of the history or a turn start |
| `ContextBudget.FindSafeBoundary` | pkg/agent/context_budget.go:44-85 | the last turn start in (0, target], failing that the first one after it, failing that zero |
| `ContextBudget.BoundaryMeaning` | pkg/agent/context_budget.go:44-85 | the same in the messages' roles: no user message between boundary and target, and the boundary is one, unless there is none |
| `ContextBudget.NearestBoundaryUnique` | pkg/agent/context_budget.go:44-85 | that description fixes the answer |
| `ContextBudget.SuffixValidIff` | pkg/agent/context_budget.go:30-38 | a suffix of a valid history is valid if and only if its first message neither makes nor answers a tool call |
| `ContextBudget.BoundaryCutValid` | pkg/agent/context_budget.go:40-85 | wherever the boundary search lands on a valid history, no tool sequence is torn |
| `ContextBudget.NoUserNoTools` | pkg/agent/context_budget.go:44-85 | a valid history without user messages has no tool traffic |
| `ContextBudget.ForceCompression` | pkg/agent/context_legacy.go:104-159 | keeps the part of the session the decision names, reports what was dropped, keeps the old summary in full in front of a note that names the number of messages dropped in decimal, and does nothing on two messages or fewer |
| `ContextBudget.KeptHistory` | pkg/agent/context_legacy.go:115-132 | the cut: middle turn start with two turns, boundary search otherwise, newest user message when nothing can be cut |
| `ContextBudget.NewestUserOnly` | pkg/agent/context_legacy.go:123-129 | the backward search for the newest user message, exact role comparison |
| `ContextBudget.CompressionUnique` | pkg/agent/context_legacy.go:111-132 | the declarative decision has one answer |
| `ContextBudget.CutFacts` | pkg/agent/context_legacy.go:115-121 | the cut drops whole leading turns, or the history is a single turn |
| `ContextBudget.KeepInRange` | pkg/agent/context_legacy.go:122-132 | a kept suffix is proper and nonempty; the single-message branch keeps the first message of a one-turn history |
| `ContextBudget.CompressionShrinks` | pkg/agent/context_legacy.go:104-159 | strictly shorter if and only if there were more than two messages |
| `ContextBudget.CompressionKeepsValid` | pkg/agent/context_legacy.go:104-159 | what is kept of a valid history is valid and a fixed point of the sanitizer |
| `ContextBudget.CompressionKeepsNewestUser` | pkg/agent/context_legacy.go:122-131 | the newest user message survives, except exactly when the history is one turn with a differently spelled user role |
| `ContextBudget.SummaryCut` | pkg/agent/context_legacy.go:168-176 | the summary cut keeps a valid suffix of at least one message that starts at a turn start if there is one |
| `ContextBudget.CompressionEmpties` | pkg/agent/context_legacy.go:122-131 | three messages that are compressed to nothing |
| `ContextBudget.LateTruncation` | pkg/agent/context_legacy.go:234-237 | truncating after more messages arrived is valid if and only if the count still ends at a plain message |
| `TurnRollback.MatchingTurnMessageTail` | pkg/agent/turn.go:389-397 | returns the longest length at which both tails agree |
| `TurnRollback.TurnState.CaptureRestorePoint` | pkg/agent/turn.go:333-338 | the restore point is the history and summary given |
| `TurnRollback.TurnState.AppendRecorded` | pkg/agent/loop.go:1833-1838 | an append goes to the session and into the record |
| `TurnRollback.TurnState.RefreshRestorePointFromSession` | pkg/agent/turn.go:346-359 | the restore point becomes the session without the matched tail of recorded messages |
| `TurnRollback.TurnState.RestoreSession` | pkg/agent/turn.go:378-387 | an abort puts the restore point back |
| `TurnRollback.CompactAndRefresh` | pkg/agent/loop.go:1790-1806 | compaction followed by a refresh |
| `TurnRollback.SplitMatches` | pkg/agent/turn.go:346-359 | tail matching finds exactly the live messages of the turn |
| `TurnRollback.StepExact` | pkg/agent/turn.go:333-397 | one step of any kind, both ways: an append leaves the restore point as right or wrong as it was, a compaction makes it right if and only if the record is recoverable, and a right one survives a background summary if and only if that cuts no pre-turn message |
| `TurnRollback.AbortExact` | pkg/agent/loop.go:2898-2912 | every run, unrecorded appends and background summaries included: an abort leaves exactly the surviving pre-turn messages if and only if the last refresh took as many messages too many as summaries have since cut off, and the pre-turn messages do not show a shift by that number (in particular: took none too many, and none was cut) |
| `TurnRollback.AbortWithoutSummary` | pkg/agent/loop.go:2898-2912 | every run without a background summary: the abort is exact if and only if the last compaction, if any, left a recoverable record |
| `TurnRollback.OvershootIff` | pkg/agent/turn.go:346-359 | a refresh takes neither too many nor too few messages if and only if the record is recoverable |
| `TurnRollback.SummaryBehindExact` | pkg/agent/context_legacy.go:79-93 | a right restore point stays right through appends and background summaries if and only if no pre-turn message is lost on the way |
| `TurnRollback.SummaryUndone` | pkg/agent/context_legacy.go:234-237 | an abort brings back the messages that a background summary has cut off during the turn |
| `TurnRollback.RecordedStepExact` | pkg/agent/turn.go:333-397 | with recorded appends the restore point stays right if and only if compression did not fall back to a user message of the turn itself and no background summary cut a pre-turn message |
| `TurnRollback.CleanStepsGood` | pkg/agent/turn.go:333-397 | the restore-point invariant along every clean run |
| `TurnRollback.AbortRestoresSurvivors` | pkg/agent/loop.go:2898-2912 | over whole runs an abort leaves exactly the surviving pre-turn messages, in order |
| `TurnRollback.SuffixRunsRestore` | pkg/agent/context_legacy.go:131-131 | with suffix cuts only, exactly the cut messages are missing and nothing else |
| `TurnRollback.OwnUserLeakReachable` | pkg/agent/context_legacy.go:124-129 | a run on which an abort leaves the aborted turn's own user message behind |
| `TurnRollback.RefreshRecoversIff` | pkg/agent/turn.go:346-359 | for every session and record: a refresh recovers the pre-turn history if and only if the live messages are the newest recorded ones and no older record matches further |
| `TurnRollback.MatchedTailIff` | pkg/agent/turn.go:389-397 | the match is a length at which the tails agree and beyond which they do not |
| `TurnRollback.UnrecordedLeaks` | pkg/agent/loop.go:2749-2755 | a run with one unrecorded append on which an abort leaves two messages of the aborted turn |
| `SplitPlan.PlanInRange` | pkg/channels/split.go:25-139 | every decision stays inside the buffer and the limit, and a cut always advances |
| `Splitter.SplitMessage` | pkg/channels/split.go:13-140 | the method returns the texts of the tagged chunks that the laws are about; one chunk, or none, without a positive limit |
| `Splitter.SplitLoop` | pkg/channels/split.go:25-137 | the loop over the rewritten buffer performs the rounds in order |
| `Splitter.NextChunk` | pkg/channels/split.go:31-137 | one iteration, buffer rewrite included |
| `Splitter.ChooseEnd` | pkg/channels/split.go:33-129 | the choice between finishing, cutting, and closing and re-opening a block |
| `Splitter.FindNaturalEnd` | pkg/channels/split.go:39-51 | newline first, then blank, then the bare limit |
| `Splitter.SplitInside` | pkg/channels/split.go:64-129 | the branches for a block that neither closes nor fits |
| `Splitter.FindLastUnclosedCodeBlockInRange` | pkg/channels/split.go:144-162 | the fence still open at the end of the range, or none |
| `Splitter.FindNextClosingCodeBlockInRange` | pkg/channels/split.go:166-173 | the end of the first fence at or after the start |
| `Splitter.FindNewlineFrom` | pkg/channels/split.go:177-184 | the first newline at or after the start |
| `Splitter.FindLastNewlineInRange` | pkg/channels/split.go:188-196 | the last newline within the search window, or start - 1 |
| `Splitter.FindLastSpaceInRange` | pkg/channels/split.go:200-208 | the last blank within the search window, or start - 1 |
| `SplitWords.NaturalEndIs` | pkg/channels/split.go:39-51 | the natural end is at the last newline after the start among the 200 runes before the reach of the message, else at the last blank or tab among the 100 before it, else there; the reach is given in numbers |
| `SplitWords.NaturallyAtOne` | pkg/channels/split.go:39-51 | the description leaves no choice |
| `SplitWords.PlainCut` | pkg/channels/split.go:39-62 | without a fence within reach the message is cut there |
| `SplitWords.BlockDecided` | pkg/channels/split.go:64-121 | what becomes of a block that does not close in time, by searches and numbers: closed and put back, cut off before it, or cut at it |
| `SplitWords.PlanMeans` | pkg/channels/split.go:33-129 | the whole decision of a round |
| `SplitWords.PlainTextSplit` | pkg/channels/split.go:25-137 | a text without three backticks in a row is always split to the end, message by message at its natural ends |
| `SplitWords.WordsStayWhole` | pkg/channels/split.go:39-51 | if every 100 runes of such a text hold a newline, blank or tab, no message begins or ends inside a word, at every limit whose reach is above that; below, one in fewer runes is needed |
| `SplitLaws.MessagesFit` | pkg/channels/split.go:25-139 | no message is longer than the limit, appended closing fences included, for every text and limit |
| `SplitLaws.RoundLength` | pkg/channels/split.go:31-137 | the same for each single round |
| `SplitLaws.RoundConserves` | pkg/channels/split.go:31-137 | one round moves the visible text unchanged and in order into the chunk and the rest |
| `SplitLaws.ContentConserved` | pkg/channels/split.go:13-140 | the untagged non-space runes of all chunks, in order, are those of the input |
| `SplitLaws.InnerProgress` | pkg/channels/split.go:79-99 | a cut inside a block of more than twenty runes leaves the header behind, so a blank line after the header cannot stall the loop |
| `SplitLaws.RoundShrinks` | pkg/channels/split.go:31-137 | a round shortens what is left unless the header line to re-open is too long |
| `SplitLaws.LongHeaderNeverShrinks` | pkg/channels/split.go:109-121 | and with a header that is too long it does not |
| `SplitLaws.RoundFits` | pkg/channels/split.go:91-121 | fitting header lines still fit after a buffer rewrite |
| `SplitLaws.SplitTerminates` | pkg/channels/split.go:25-137 | if every header line fits, the loop ends after at most one round per rune |
| `SplitLaws.TinyLimitTerminates` | pkg/channels/split.go:25-137 | with a limit below five it always ends |
| `SplitEnds.TerminatesIff` | pkg/channels/split.go:25-137 | for every text and every positive limit: the loop ends if and only if no state it reaches is stuck, and looking at a number of rounds given by the text is enough to tell |
| `SplitEnds.StuckAgain` | pkg/channels/split.go:109-121 | a stuck state is followed by a stuck state |
| `SplitEnds.RoundLighter` | pkg/channels/split.go:31-137 | a round that is not stuck and does not get stuck leaves at most one more message, or a rest that weighs less line by line, even where the buffer grows |
| `SplitEnds.FiveSticks` | pkg/channels/split.go:109-121 | at a limit of five every re-opened block is stuck |
| `SplitLoops.StuckNeverEnds` | pkg/channels/split.go:101-121 | a case of `TerminatesIff` told from the text alone: one that is longer than the limit, begins with a header line within six runes of it, and has no further fence ending within it, is split for ever |
| `SplitLoops.OneHeaderTerminatesIff` | pkg/channels/split.go:25-137 | told from the text alone, for one that begins with a block and whose other header lines fit: the loop ends if and only if the text fits, the first header line fits, another fence ends within the limit, or the limit is below five |
| `SplitLoops.OpenBlockTerminatesIff` | pkg/channels/split.go:101-121 | told from the text alone, for one block never closed: the loop ends if and only if the text fits, its header line does, or the limit is below five |
| `SplitLoops.GoBlockNeverEnds` | pkg/channels/split.go:109-121 | a text of sixteen runes that is never split to the end at a limit of twelve |
| `SplitLoops.PrefacedBlockNeverEnds` | pkg/channels/split.go:101-121 | the same after words in front of the block have been cut off |
| `MediaStore.FileMediaStore.Store` | pkg/media/store.go:117-148 | adds one ref to all maps and keeps the invariant; the entry, the path's eligibility and the history say forget-only exactly for the text "forget_only"; a missing file changes nothing |
| `MediaStore.FileMediaStore.AddPathRef` | pkg/media/store.go:136-145 | counts the path and keeps a borrowed path ineligible |
| `MediaStore.FileMediaStore.Resolve` | pkg/media/store.go:151-160 | resolves exactly the live refs, to the path they were stored with |
| `MediaStore.FileMediaStore.ReleaseRefLocked` | pkg/media/store.go:279-305 | removes one ref, by its recorded path or the fallback; schedules the path if and only if that was the last ref and the path is eligible |
| `MediaStore.FileMediaStore.ReleaseAll` | pkg/media/store.go:178-212 | whatever the map order: releases the scope's refs and schedules, each once, exactly the eligible paths all of whose live refs were in the scope; the history grows by exactly these releases |
| `MediaStore.FileMediaStore.CleanExpired` | pkg/media/store.go:217-266 | the same for the expired refs, and returns their number |
| `MediaStore.NextReleased` | pkg/media/store.go:189-197 | one more release in a batch: maps, schedule and history move on together |
| `MediaStore.FileMediaStore.ForgetInScope` | pkg/media/store.go:234-241 | empties the scope table entry by entry so that the scopes still partition the live refs |
| `MediaStore.DroppedConsistent` | pkg/media/store.go:178-266 | releasing any set of refs keeps all five maps in agreement |
| `MediaStore.ReleaseInParts` | pkg/media/store.go:178-266 | releasing in parts is releasing at once, and each file is scheduled by exactly one part |
| `MediaStore.ReleaseOne` | pkg/media/store.go:279-305 | the per-ref decision agrees with the set-level delete set after any refs already released |
| `MediaStore.DeleteOnlyUnreferenced` | pkg/media/store.go:279-305 | no scheduled path has a live ref left in any scope |
| `MediaStore.StoreKeepsInvariant` | pkg/media/store.go:117-148 | storing keeps the maps consistent and the eligibility flag true to the history |
| `MediaStore.StoredKeepsOwned` | pkg/media/store.go:136-145 | while a path stays in use it stays owned if and only if no forget-only ref is stored for it |
| `MediaStore.FirstStoredOwned` | pkg/media/store.go:136-145 | the first ref after the count was zero decides afresh |
| `MediaStore.DroppedTracks` | pkg/media/store.go:279-305 | releases leave the flag of surviving paths true to the history |
| `MediaStore.BorrowedNeverDeleted` | pkg/media/store.go:117-305 | a path once borrowed is not scheduled while it has stayed in use, even after the borrowing ref is gone |
| `MediaRuns.ScheduleLaw` | pkg/media/store.go:117-305 | in every run, told from the requests' texts: a request schedules a file if and only if it takes it out of use and nobody who stored it since it came into use gave "forget_only" |
| `MediaRuns.BorrowedIsSafe` | pkg/media/store.go:117-305 | after a store with "forget_only" no request schedules the file while it has stayed in use |
| `MediaRuns.OwnedIsCleared` | pkg/media/store.go:117-305 | a file only ever stored with other texts is scheduled by the request that takes it out of use |
| `MediaRuns.RefsLeft` | pkg/media/store.go:178-266 | a release takes exactly the refs stored under the scope, an expiry exactly those stored longer ago than the maximal age |
| `MediaRuns.ServeAll` | pkg/media/store.go:117-266 | a new store performs any requests as such a run |
| `OggOpus.DecodeOggOpus` | pkg/audio/ogg.go:11-57 | the nested loops compute the decoding specification: frames delivered and how decoding ended |
| `OggOpus.DecodePage` | pkg/audio/ogg.go:33-55 | the inner loop feeds the segments of one page |
| `OggOpus.RoundTrip` | pkg/audio/ogg.go:11-57 | for every packet list and every division of its lacing into pages, exactly the nonempty packets that do not begin with the characters OpusHead or OpusTags are delivered, in order |
| `OggOpus.NamesAre` | pkg/audio/ogg.go:26-48 | the magic and the two header names are those characters in ASCII |
| `OggOpus.PagingIrrelevant` | pkg/audio/ogg.go:11-57 | decoding depends only on the concatenated segments, for any callback and any incomplete page header at the end |
| `OggOpus.LaceAllFeeds` | pkg/audio/ogg.go:36-55 | feeding the lacing of the packets completes exactly the packets, 255-byte multiples included |
| `OggOpus.AcceptsIffStream` | pkg/audio/ogg.go:11-57 | decoding ends without error if and only if the bytes are well-formed pages followed by less than a page header |
| `OggOpus.StatusIff` | pkg/audio/ogg.go:11-57 | each outcome, exactly: well-formed pages, and then an incomplete page header, a wrong magic, a segment table cut off, or segment data cut off |
| `OggOpus.Decompose` | pkg/audio/ogg.go:11-57 | reconstructs those pages and the rest |
| `OggOpus.CallbackExact` | pkg/audio/ogg.go:44-51 | a callback that fails ends the decoding right there, with the frames up to that one delivered; one that does not changes nothing |
| `OggOpus.TruncationDeliversPrefix` | pkg/audio/ogg.go:11-57 | a stream cut off anywhere delivers a prefix of the frames |
| `PromptCache.ChangesAreLater` | pkg/agent/context.go:192-203 | after any writes and deletes, a file no newer than an earlier clock reading is still the file it was then |
| `PromptCache.CheckExact` | pkg/agent/context.go:317-342 | when the check passes, the cached reads are those of a fresh build if and only if nothing read has vanished |
| `PromptCache.CheckReports` | pkg/agent/context.go:317-342 | the check reports a change if and only if a file the prompt depends on, or any file under a skill root, was created, deleted or written since the baseline |
| `PromptCache.OldFilesExact` | pkg/agent/context.go:192-203 | the same from the age of the files alone |
| `PromptCache.VanishedWasNew` | pkg/agent/context.go:352-370 | a vanished file that passes the check was absent at the baseline |
| `PromptCache.TransientFileStaysCached` | pkg/agent/context.go:352-370 | a file created, read and deleted between baseline and check leaves a stale prompt that passes |
| `PromptCache.QuietBaseline` | pkg/agent/context.go:263-308 | a baseline taken while nothing changed passes its own check |
| `PromptCache.FaithfulLater` | pkg/agent/context.go:192-203 | what the build read stays true of all files older than the baseline's end |
| `PromptCache.ContextBuilder.BuildSystemPromptWithCache` | pkg/agent/context.go:173-211 | with files changing before every access: a hit is current unless something vanished, a quiet rebuild is fresh and the next check passes |
| `PromptCache.ContextBuilder.Rebuild` | pkg/agent/context.go:192-210 | baseline first, then the build, then the four cache fields |
| `PromptCache.ContextBuilder.BuildCacheBaseline` | pkg/agent/context.go:263-308 | every recorded time is at most the clock at the end of the baseline; without changes the check passes |
| `PromptCache.ContextBuilder.StatPaths` | pkg/agent/context.go:273-279 | existence and newest time, path by path |
| `PromptCache.ContextBuilder.WalkRoot` | pkg/agent/context.go:283-295 | the walk over one skill root |
| `PromptCache.ContextBuilder.SourceFilesChangedLocked` | pkg/agent/context.go:317-342 | the loops decide the declarative change predicate |
| `PromptCache.ContextBuilder.FileChangedSince` | pkg/agent/context.go:352-370 | created, deleted or newer than the baseline |
| `PromptCache.ContextBuilder.SkillFilesChangedSince` | pkg/agent/context.go:381-436 | any created, deleted or re-timed skill file, in any map order |
| `PromptCache.ContextBuilder.LoadBootstrapFiles` | pkg/agent/definition.go:79-118 | AGENTS.md and IDENTITY.md count only without AGENT.md; what is read holds of every file older than the limit |
| `PromptCache.ContextBuilder.ReadRoot` | pkg/skills/loader.go:104-140 | one root's skills, each looked at in its own moment |
| `PromptCache.ContextBuilder.BuildSystemPrompt` | pkg/agent/context.go:130-168 | the prompt renders what was read, and every read is faithful to the older files |
| `PromptCache.ContextBuilder.InvalidateCache` | pkg/agent/context.go:216-226 | the next check reports a change |
| `TurnProjection.Projector.Apply` | pkg/codexruntime/projector.go:29-50 | the fields mean the log so far, for every notification |
| `TurnProjection.Projector.ApplyAgentMessageDelta` | pkg/codexruntime/projector.go:73-83 | a delta of this turn extends its item, others change nothing |
| `TurnProjection.Projector.ApplyItemCompleted` | pkg/codexruntime/projector.go:96-117 | a nonempty completed text replaces the item's text; the first completion enters the order |
| `TurnProjection.Projector.FinalAssistantText` | pkg/codexruntime/projector.go:52-67 | the final text is a function of the log |
| `TurnProjection.FinalTextMeaning` | pkg/codexruntime/projector.go:52-67 | that text belongs to the last first-completed item, else the last first-started one |
| `TurnProjection.WhatCounts` | pkg/codexruntime/projector.go:73-117 | which notifications count for a turn: its own deltas with an item and a text, its own completed assistant items |
| `TurnProjection.ReasoningMeaning` | pkg/codexruntime/projector.go:69-94 | the reasoning text is the concatenation of the turn's own reasoning texts |
| `TurnProjection.FinalItemUnique` | pkg/codexruntime/projector.go:52-67 | that description names one item |
| `TurnProjection.TextSnoc` | pkg/codexruntime/projector.go:73-117 | an item's text is its last nonempty completed text followed by the later deltas |
| `TurnProjection.AppliedReflects` | pkg/codexruntime/projector.go:29-117 | every notification keeps the fields true to the log |
| `TurnProjection.ForeignIgnored` | pkg/codexruntime/projector.go:73-117 | notifications of other turns leave no trace |
| `Client.Client.Start` | pkg/codexruntime/client.go:85-126 | starts exactly if the initialize call is answered under its own id without an error and the initialized notification is sent; nothing is delivered, what was read before the response is queued |
| `Client.Client.Call` | pkg/codexruntime/client.go:138-150 | succeeds exactly if some message is the response to this request without an error and only notifications arrive before it, and returns that response's turn; ids are never used twice; a call delivers nothing and loses nothing |
| `Client.Client.CallLocked` | pkg/codexruntime/client.go:498-545 | the same, by quantifier over the messages on the connection; the notifications before the response are queued in order |
| `Client.OutcomeIff` | pkg/codexruntime/client.go:498-545 | the outcome of a call, message by message: a response with another id, an error, or anything but notifications before it is a failure |
| `Client.Client.ReadResponseLocked` | pkg/codexruntime/client.go:654-677 | exactly the notifications read before the response are queued, in order |
| `Client.Client.ReadMessageLocked` | pkg/codexruntime/client.go:679-687 | the head of the queue, else the head of the connection; delivered, pending and unread stay the wire's notifications |
| `Client.Client.RunTextTurn` | pkg/codexruntime/client.go:286-387 | the turn is the one named by the response to its own turn/start request, and by no other; the text returned is the one the wire's notifications determine for it from where delivery stood, and one is returned exactly when they determine one, if nothing goes wrong on the connection |
| `Client.Client.TurnLoop` | pkg/codexruntime/client.go:327-386 | and it is returned exactly when the stream determines one, if no error response or unanswerable request comes |
| `Client.MidTurnCallReturnsIff` | pkg/codexruntime/client.go:568-590 | a mid-turn call returns if and only if nothing is queued and the next message, past answered requests, is a response |
| `Client.QueuedNeverReturns` | pkg/codexruntime/client.go:568-590 | with a queued notification the wait never reads the connection again |
| `Cron.CronService.Start` | pkg/cron/service.go:83-108 | reloads, recomputes the enabled jobs, runs only if the save succeeded |
| `Cron.CronService.RecomputeNextRuns` | pkg/cron/service.go:346-354 | enabled jobs get a next run from now, others keep theirs |
| `Cron.CronService.CollectDue` | pkg/cron/service.go:172-206 | the due ids, their next runs cleared and saved before anything runs |
| `Cron.CronService.FindJob` | pkg/cron/service.go:217-232 | a collected job that is gone is skipped |
| `Cron.CronService.FinishJob` | pkg/cron/service.go:246-301 | one-time jobs are removed or disabled, others armed again from now |
| `Cron.CronService.AddJob` | pkg/cron/service.go:407-448 | the new job comes last, one-time jobs marked for removal |
| `Cron.CronService.RemoveJob` | pkg/cron/service.go:467-494 | removes the job and saves if anything was removed |
| `Cron.CronService.EnableJob` | pkg/cron/service.go:496-523 | arms or disarms the first job with the id |
| `Cron.CronService.GetNextWakeMS` | pkg/cron/service.go:356-366 | the least next run of an enabled job |
| `CronRuns.FiringLaw` | pkg/cron/service.go:172-354 | over all runs with crashes and failing saves: a one-time job fires at most once and never early, two fires of a repeating job are at least its interval apart |
| `CronRuns.StepKeeps` | pkg/cron/service.go:172-523 | each operation keeps the invariant behind it |
| `CronRuns.RunKeeps` | pkg/cron/service.go:172-523 | so does every run |
| `CronRuns.DueIdsExact` | pkg/cron/service.go:184-189 | the due list names exactly the due jobs, each once |
| `CronRuns.DueExactlyFromWake` | pkg/cron/service.go:356-366 | something is due exactly from the announced wake time on |
| `CronRuns.FinishRearms` | pkg/cron/service.go:273-292 | a later check collects a finished job if and only if it is still enabled, repeating, and its schedule has come due since |
| `CronDue.AddedDue` | pkg/cron/service.go:303-343 | an added job is due exactly from the time its schedule names on: a one-time job from its time if that is still to come, a repeating one after its interval, an expression from its next tick |
| `CronDue.ToggledDue` | pkg/cron/service.go:496-523 | so is an enabled job; a disabled one never is |
| `CronDue.RecomputedDue` | pkg/cron/service.go:346-354 | so is every enabled job after a start |
| `CronDue.FinishedExact` | pkg/cron/service.go:246-301 | what the return of a callback does to every field of every job |
| `CronDue.OneTimeGone` | pkg/cron/service.go:273-282 | a one-time job leaves the list with its callback |
| `CronDue.ReminderLaw` | pkg/cron/service.go:172-343 | in every run: a one-time job added and saved before its time and left alone until it is called is called if and only if the running service has checked at its time or later and worked it off, and then exactly once and not early |
| `CronServe.ServeAll` | pkg/cron/service.go:83-523 | the service's methods perform every run that these laws are about |
| `CronRuns.CollectedJobRuns` | pkg/cron/service.go:208-232 | disabling a collected job does not stop it |
| `CronRuns.RemovedJobNeverRuns` | pkg/cron/service.go:217-232 | removing it does |
| `CronOverlap.OneTimeLaw` | pkg/cron/service.go:83-124 | with any number of overlapping loops, crashes and failing saves: a one-time job fires at most once and never early |
| `CronOverlap.ActKeeps` | pkg/cron/service.go:83-301 | each act of any loop keeps the invariant behind it |
| `CronOverlap.OverlapBreaksInterval` | pkg/cron/service.go:83-212 | for every stopped state whose loop still holds an enabled repeating job that is on disk: starting the service has a continuation in which that job is called twice within its interval |
| `CronOverlap.OverlapReachable` | pkg/cron/service.go:83-212 | such a state is reachable |
| `AccountPolicy.ChooseTarget` | pkg/codexaccounts/policy.go:19-57 | the loop's answer is the first best candidate of the better tier that has a named one |
| `AccountPolicy.ChoiceUnique` | pkg/codexaccounts/policy.go:19-57 | the candidates fix the answer |
| `AccountPolicy.OptimalIff` | pkg/codexaccounts/policy.go:19-57 | for all candidates, unnamed ones and negative percentages included: there is a target exactly if a candidate is eligible and none is better in tier, five-hour and weekly room, if and only if nobody is eligible or the first best candidate of the better tier has a name and beats the initial minus one |
| `AccountPolicy.ChoiceOptimal` | pkg/codexaccounts/policy.go:19-57 | so with named candidates and nonnegative percentages, which are the ones the coordinator passes, the choice is optimal |
| `AccountPolicy.UnnamedCandidateHidesOthers` | pkg/codexaccounts/policy.go:50-56 | an unnamed best candidate hides the named ones of its tier |
| `AccountRuns.AddedExact` | pkg/codexaccounts/manager.go:68-126 | succeeds exactly under its checks, never changes the live credential or what is active, stores the new credential under its owner; a failure leaves at most the active snapshot fresher |
| `AccountRuns.ImportedExact` | pkg/codexaccounts/manager.go:128-171 | the imported account becomes active and the previous live credential can still be found |
| `AccountRuns.RemovedExact` | pkg/codexaccounts/manager.go:215-231 | refuses exactly the active account, and then changes nothing; touches no other account, snapshot or health entry |
| `AccountRuns.ToggledExact` | pkg/codexaccounts/manager.go:241-257 | adopts an alias exactly if a snapshot of it exists, and changes nothing but its flag |
| `AccountRuns.AliasMeaning` | pkg/codexaccounts/store.go:11-50 | a valid alias: one to 64 characters, a letter or digit first, then letters, digits, hyphens, dots and underscores |
| `AccountRuns.FiveHourMeaning` | pkg/codexaccounts/coordinator.go:265-274 | the five-hour room and the percentage used that the last limit to report it names add up to 100, with 100 below and 0 above that range; nothing reported is none left |
| `AccountRuns.WeeklyMeaning` | pkg/codexaccounts/coordinator.go:265-274 | the same for the weekly room |
| `AccountRuns.HealthReadOff` | pkg/codexaccounts/coordinator.go:259-280 | a health entry in numbers: both rooms, exhausted if one is used up, healthy from eleven and twenty percent on |
| `AccountRuns.SyncSound` | pkg/codexaccounts/coordinator.go:221-251 | the active health entry is read off the limits in numbers; the active snapshot takes over the live credential exactly when it is 21600 seconds old |
| `AccountRuns.SoftSound` | pkg/codexaccounts/coordinator.go:143-169 | a soft switch keeps ownership and logs one switch to an enabled account |
| `AccountRuns.SoftExact` | pkg/codexaccounts/coordinator.go:143-169 | it happens if and only if the active account was seen within 900 seconds with at most ten percent of its five hours and another account is usable, and goes to one that none outranks |
| `AccountRuns.HardExact` | pkg/codexaccounts/coordinator.go:171-211 | what the marked account's entry says, when a hard switch happens, and to which account for which reason |
| `AccountRuns.HardSound` | pkg/codexaccounts/coordinator.go:171-211 | so does a hard switch; without one only the health changes |
| `AccountRuns.FallbackUnique` | pkg/codexaccounts/coordinator.go:407-421 | with nobody eligible the hard switch has one target, in whatever order the accounts are listed |
| `AccountRuns.TurnSound` | pkg/codexaccounts/coordinator.go:51-71 | a turn keeps ownership and logs at most one soft and one hard switch, in that order, each away from what was active; attempts after a switch are told to resume |
| `AccountRuns.TurnExact` | pkg/codexaccounts/coordinator.go:51-141 | when there is a second attempt, when the turn is done, and what it leaves in the live credential, the snapshots and the health entry |
| `AccountRuns.StepSound` | pkg/codexaccounts/manager.go:68-290 | every operation keeps ownership; the log only grows, and the active account changes only by a logged switch or an import |
| `AccountRuns.OwnershipForever` | pkg/codexaccounts/coordinator.go:221-313 | in every state of every run from an empty directory each snapshot belongs to its account and the live credential to the active one |
| `AccountRuns.SwitchKeepsIff` | pkg/codexaccounts/coordinator.go:288-313 | the overwritten live credential survives a switch if and only if its snapshot was up to date |
| `AccountRuns.HardSwitchKeepsIff` | pkg/codexaccounts/coordinator.go:171-211 | the same for a token renewed by the attempt that ran out of quota |
| `AccountRuns.RenewalLost` | pkg/codexaccounts/coordinator.go:171-219 | a run of two imports and one turn after which the renewed token is nowhere |
| `Accounts.Manager.Add` | pkg/codexaccounts/manager.go:68-126 | with login, backup and restore performed one by one, makes exactly the step of `AddedExact` |
| `Accounts.Manager.Import` | pkg/codexaccounts/manager.go:128-171 | makes exactly the step of `ImportedExact` |
| `Accounts.Manager.Remove` | pkg/codexaccounts/manager.go:215-231 | makes exactly the step of `RemovedExact` |
| `Accounts.Manager.SetEnabled` | pkg/codexaccounts/manager.go:241-257 | makes exactly the step of `ToggledExact` |
| `Accounts.Coordinator.SwitchActiveAliasLocked` | pkg/codexaccounts/coordinator.go:288-313 | switches exactly if the target has a snapshot: its credential becomes the live one and the switch is logged |
| `Accounts.Coordinator.MaybeSoftSwitchLocked` | pkg/codexaccounts/coordinator.go:143-169 | switches if and only if fresh health is low and a candidate exists, and then to a best enabled one |
| `Accounts.Coordinator.HardSwitchLocked` | pkg/codexaccounts/coordinator.go:171-211 | marks the account exhausted, and switches if and only if another enabled account exists, to a best candidate or the alphabetically first |
| `Accounts.Coordinator.ChooseEnabledTarget` | pkg/codexaccounts/coordinator.go:392-405 | optimal among the enabled accounts in whatever order the map is read |
| `Accounts.Coordinator.FallbackAlias` | pkg/codexaccounts/coordinator.go:407-421 | the alphabetically first other enabled account, if any |
| `Accounts.Coordinator.HealthFrom` | pkg/codexaccounts/coordinator.go:259-280 | the loop computes the entry that `HealthReadOff` describes |
| `Accounts.Coordinator.RefreshHealthLocked` | pkg/codexaccounts/coordinator.go:253-286 | the active account's entry is read off the limits, nothing else changes |
| `Accounts.Coordinator.SyncLiveAuthLocked` | pkg/codexaccounts/coordinator.go:221-251 | makes exactly the step of `SyncSound`, health entry included |
| `Accounts.Coordinator.RunTextTurn` | pkg/codexaccounts/coordinator.go:51-71 | makes exactly the turn step: soft switch when due, attempt, hard switch and one retry when quota ran out, sync after success; the live credential after each is determined |
| `Accounts.Operate` | pkg/codexaccounts/manager.go:68-290 | the classes perform any list of operations as a run in the sense of `OwnershipForever`, state by state |
| `EvalAggregation.AggregateMetrics` | cmd/membench/eval.go:203-236 | the averages over all results and over each category that occurs |
| `EvalAggregation.ComputeModeAgg` | cmd/membench/eval.go:277-305 | the question-weighted averages of per-sample figures, for any figures |
| `EvalAggregation.TwoLevelsAreFlat` | cmd/membench/eval.go:203-305 | for any grouping, empty samples included, combined figures are exactly the figures of all results together |
| `EvalAggregation.GroupingIrrelevant` | cmd/membench/eval.go:203-305 | two groupings of the same results give the same figures |
| `EvalAggregation.AverageUnique` | cmd/membench/eval.go:203-236 | the flat definition has one answer |
| `EvalAggregation.AverageMeaning` | cmd/membench/eval.go:203-236 | in the scores themselves: averages times their number are the totals of the token-F1 scores and of the hit rates, overall and for each category that occurs |
| `EvalAggregation.EvaluateMode` | cmd/membench/eval.go:203-305 | aggregating sample by sample and then per mode is the flat average |

## Left out

- Messages: payloads are opaque; the role comparison that ignores case is the constructor `LooseUser`, any other text a role may hold is `OtherRole`.
- Token counting and the decision when to compact: cuts are modelled for whatever history they meet.
- `TurnRollback.AbortRestoresSurvivors`: stated for runs with recorded appends, no compression to the turn's own user message and no background summary that cuts a pre-turn message; `AbortExact` covers all runs. Runs track messages, not the summary text. Interrupted writes to the session store are not modelled.
- `TurnRollback.SuffixRunsRestore`: covers cuts that keep a suffix; the single-message branch is covered by `StepExact`.
- Summarizing itself (model calls, batching, notes about omitted messages): only the cut and the later truncation.
- `SplitLaws.SplitTerminates`: requires every header line to fit; `SplitEnds.TerminatesIff` covers all texts.
- `SplitLoops.StuckNeverEnds`: the text begins with the block, its header line is trimmed and holds no further backtick, and the text does not end in white space; the same holds for `OneHeaderTerminatesIff` and `OpenBlockTerminatesIff`. `SplitEnds.TerminatesIff` covers all texts.
- Splitter: the method is modelled where the loop ends, since a method here must end; runs that do not end are covered by the round-by-round specification. Whether chunks have balanced fences is not stated, because a fence can straddle a cut. The text is taken to be valid UTF-8, one character per rune.
- Media store: file removal after the lock is released, metadata other than the cleanup policy, and the background ticker. A store in between can register the path again, so claims are made at the point where the lock is released. New ids are assumed unused.
- `MediaStore.FileMediaStore.Resolve`: refs are looked up, metadata is not returned.
- Ogg: the callback's buffer aliasing (it sees the bytes at the time of the call), checksums and sequence numbers (the decoder ignores them), and read errors other than running out of bytes.
- Prompt cache: daily notes, which are read but not tracked, are held constant, as are identity, tool rules and the split marker. One check sees one state of the files. Directories are modelled as plain tracked paths; a skill directory is listed when its SKILL.md is there. The clock that stamps files is strictly increasing. Unreadable but existing files are modelled only for skills.
- Prompt cache: another goroutine rebuilding between the two checks is not modelled; each call runs by itself.
- `PromptCache.ContextBuilder.BuildSystemPromptWithCache`: after a rebuild during which files changed, the prompt returned may already be out of date; the contract promises only that the next check will notice.
- Client: steering in mid-turn beyond the waiting loop, tool requests and their answers (a request is either answered or not), timeouts and cancellation, results that cannot be decoded, and the refusal of a second turn while one is active (operations come one at a time).
- Projector: the classification of an item as an assistant message is a flag of the notification.
- Cron: `UpdateJob`, reloading the store while running, and the two writes of a finished job's removal (counted as one). Cron expressions are an uninterpreted next-tick function; ids are never reused; the file format is identity.
- `CronRuns.FiringLaw`: covers runs in which a stopped service is started again only after its last check is through, because the interval half fails otherwise (`OverlapBreaksInterval`); `OneTimeLaw` covers the rest for one-time jobs. It says nothing about how soon after its time a job fires, which depends on the other jobs' callbacks.
- Accounts: store writes succeed; manager and coordinator operations do not interleave; a successful login leaves the credential of the account it was for; time stamps are seconds. Thread, model and status calls are passed through and not modelled.
- Benchmark scores are real numbers, so rounding is not modelled; how scores are computed is not part of the model.
- Providers, channels, HTTP servers, process isolation, credential encryption, configuration and command-line code.
- `MessageBus.Close` against `publish`, the cascade that finishes child turns, and reloading the account manager: lifecycle code outside these models.

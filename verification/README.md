# Agent gateway: verified model

A gateway connects a chat service to coding agents.  Its Rust half receives
messages, routes them to agents and sends the agents' replies; a TypeScript
adapter runs one coding session per user and workspace and cuts the session's
output into chat messages.  This project models the parts of both halves where
state, time and interleaving make the behaviour hard to see, and proves what
they guarantee for every input, every run and every interleaving.

`dafny verify dfyconfig.toml` checks the whole project.

## How it is organised

| file | what it models |
|---|---|
| `JsStrings.dfy` | JavaScript strings: 16-bit code units, `trim`, `split`, `join`, decimals |
| `MarkdownBlocks.dfy`, `MarkdownLaws.dfy`, `LineLaws.dfy` | the line automaton that splits a reply into fences, tables and paragraphs, against a maximal-munch grammar |
| `Packing.dfy`, `PackingLaws.dfy` | greedy packing of blocks and the chopping of oversized ones under `[N/M] ` labels |
| `SplitReply.dfy`, `ReplyPipeline.dfy` | the splitter from text to messages, and from the assistant's text to what the user reads |
| `StreamingBatcher.dfy` | the buffer in front of the splitter, with its two timers |
| `QueryManager.dfy` | the two-level table of running sessions with pending approvals |
| `Scheduler.dfy`, `SchedulerLaws.dfy` | message delivery, session end, queue drains, `/cd`, `/close`, approvals and shutdown as steps in any order |
| `ExclusionLaws.dfy`, `ApprovalLaws.dfy`, `DecisionLaws.dfy` | exactly which steps let two sessions live in one workspace, which leave an approval undecided for ever, and which grant or deny one |
| `CircuitBreaker.dfy`, `DedupCache.dfy` | pruned summaries of a history, against the history itself |
| `TypingTickets.dfy` | the in-flight protocol of concurrent ticket requests |
| `ResilientSend.dfy` | the retry loop, for every sequence of server answers |
| `ContextTable.dfy`, `Routing.dfy`, `ReferenceReplies.dfy` | the bounded context table, queues and router, and replies that quote a message |
| `MediaCipher.dfy` | padding and the ECB mode over an abstract block cipher |

Code that changes state is a class or a loop here too.  Each such method is
proved equal to a function of the old state (`Step`, `Run`, `Blocks`, `Packed`
and so on), and the laws are lemmas about those functions.  Objects that several
JavaScript holders share (running queries, approval promises) are rows of a
table, and a reference is the index of a row.  What happens between two `await`s
or under one lock is one step.  Timers firing, server answers and the passing of
time are events that may come at any point.

## What the proofs found

Each of these is a lemma below, with the exact condition where there is one.

* The total M of a label `[N/M] ` is too small on the first piece of every
  oversized block list (`FirstTotalFallsShort`).  A label is printed with N above
  M exactly when some oversized block is longer than what goes behind its first
  labels, as many as there are oversized blocks, and the next label still has
  room (`LabelsWithinTotalsExactlyWhen`); under a limit of at most 6 that never
  happens (`ShortLimitsPrintNoLabels`).  Under any limit above 6 a single
  oversized block is sent as `[1/1] `, `[2/1] ` (`LabelPastTotalExample`), where
  the comment at `client/claude-code-adapter/src/streaming-batcher.ts:175-176`
  promises `[1/3]` to `[3/3]`.
* Oversized blocks move behind all others (`ReceivedInOrder`).  The blocks are
  sent in the order of the text exactly when the oversized ones come last
  (`OrderKeptExactlyWhen`, `OrderKept`); a long line in front of a short one is
  read after it (`LinesSwap`, `OrderLostExample`).
* A reply can exceed the length limit, exactly as `WhenRepliesExceedLimit` says:
  when the header leaves no room, or when the body without its surplus blank
  space fits one segment and is then sent unsplit (`LongReplyExample`).
* Two sessions can be live in one workspace.  A step leads there exactly when it
  starts a session where nothing is stored but a session is still live
  (`OneLiveExactlyWhen`), which can happen after `/close` on a running session
  (`CloseBreaksExclusion`) and after a shutdown (`ShutdownBreaksExclusion`).  The
  store stays equal to the live sessions exactly as long as no workspace in use
  is closed and no shutdown finds a session (`ExclusiveExactlyWhen`).  The end of
  a closed session then takes the newer one out of the store
  (`EndTakesEntryExactlyWhen`, `EndOfClosedSessionExample`).
* An approval can end up undecided for ever, with its timer disarmed: it is lost
  exactly in the steps `WhenApprovalsAreLost` names, and stays so after any
  further steps (`LostForever`).  A session that asks twice in a row loses its
  first approval (`AskedTwiceExample`).
* The context table keeps 199 rows where the comment at
  `gateway/src/storage/sqlite_store.rs:123` says 200 (`ReplaySmall`), and a save
  is forgotten at once exactly when the clock is behind all of 199 other rows
  (`WhenSaveIsForgotten`, `ForgottenSaveExample`).  Whatever the clock does, an id
  is lost exactly when its last save or a later one found 200 rows of which its
  own came first (`FoundExactlyWhen`).
* The retry loop makes four attempts, where its comment
  (`gateway/src/main.rs:733-734`) says up to four retries (`AtMostFourSends`).
* Only one ticket request per user is outstanding at a time
  (`OneFetchPerUser`), but the cache is not looked at again after the slot is
  won, in spite of the prevention the comment at `gateway/src/main.rs:479`
  claims.  A fetch is redundant exactly when the slot is free and a ticket was
  cached since the miss and is still fresh (`FetchIsRedundantExactlyWhen`,
  `RedundantFetch`).
* The router's answer that a message could not be converted is never given
  (`TextConverts`), and its caller cannot tell a dropped message from a queued
  one (`QuietExactlyWhen`).
* Decryption accepts everything; it loses nothing exactly for whole blocks with
  proper padding (`WhenDecryptionIsFaithful`, `OneByteExample`).

## Model

| member | source | states |
|---|---|---|
| JsStrings.TrimFacts | client/claude-code-adapter/src/streaming-batcher.ts:46 | `trim` may start at either end, is idempotent, and is empty exactly when trimming one end is |
| JsStrings.JoinOfSplit | client/claude-code-adapter/src/streaming-batcher.ts:39 | joining the lines of any text gives the text back, and no line holds a line feed |
| JsStrings.SplitOfJoin | client/claude-code-adapter/src/streaming-batcher.ts:39-46 | any non-empty list of lines without line feeds is got back by splitting its joined text |
| JsStrings.DecimalExactlyWhen | client/claude-code-adapter/src/streaming-batcher.ts:153 | the printed number is the one row of digits with that value and no zero in front, for every number |
| MarkdownBlocks.SplitMarkdownBlocks | client/claude-code-adapter/src/streaming-batcher.ts:36-102 | the one-pass automaton with its two flags delivers exactly the blocks of the maximal-munch grammar: a fence runs through the next fence line or the end, tables and paragraphs are maximal runs, blank lines separate |
| MarkdownBlocks.FlushKeepsOutcome | client/claude-code-adapter/src/streaming-batcher.ts:44-49 | flushing at a group's end leaves the blocks of the whole text unchanged |
| MarkdownBlocks.PushKeepsOutcome | client/claude-code-adapter/src/streaming-batcher.ts:68-71 | moving a line that opens or continues a group into the open group leaves the blocks of the whole text unchanged |
| MarkdownBlocks.CloseKeepsOutcome | client/claude-code-adapter/src/streaming-batcher.ts:60-65 | a fence line inside a fence ends the block there and nowhere else |
| MarkdownLaws.GroupsShape | client/claude-code-adapter/src/streaming-batcher.ts:51-100 | every group is a closed fence, all rows or all prose; only the last may be a fence left open |
| MarkdownLaws.BlockTextShape | client/claude-code-adapter/src/streaming-batcher.ts:44-49 | joining and trimming a group keeps its shape: the text of a block splits back into a group of the same kind |
| MarkdownLaws.BlocksHaveShape | client/claude-code-adapter/src/streaming-batcher.ts:36-102 | for every text, every block is trimmed, non-empty and all fence, all table or all plain text; only the last may be an unclosed fence |
| MarkdownLaws.ParseOfPrint | client/claude-code-adapter/src/streaming-batcher.ts:36-102 | any list of blocks of those shapes, joined by blank lines, parses back to itself |
| MarkdownLaws.RoundTrip | client/claude-code-adapter/src/streaming-batcher.ts:36-102 | for every text: parse, join with blank lines, parse again gives the same blocks, including a final unclosed fence |
| MarkdownLaws.BlockListsAreTheResults | client/claude-code-adapter/src/streaming-batcher.ts:36-102 | a list of texts is the result of splitting some text if and only if it has those shapes |
| MarkdownLaws.SplittingKeepsVisibleText | client/claude-code-adapter/src/streaming-batcher.ts:36-102 | splitting into blocks neither loses, copies nor reorders a character that is not white space |
| MarkdownLaws.GroupFences | client/claude-code-adapter/src/streaming-batcher.ts:54-66 | a closed fence has two fence lines, an open one has one, tables and prose have none |
| MarkdownLaws.FencesOfPrint | client/claude-code-adapter/src/streaming-batcher.ts:29-35 | a printed block list has an odd number of fence lines exactly when it ends in an open fence |
| LineLaws.SpacesAre | client/claude-code-adapter/src/streaming-batcher.ts:46-52 | the white space that is trimmed, code unit by code unit |
| LineLaws.TrimIs | client/claude-code-adapter/src/streaming-batcher.ts:46-52 | trimming takes away exactly the white space at both ends |
| LineLaws.LinesAre | client/claude-code-adapter/src/streaming-batcher.ts:39 | corollary of SplitOfJoin: the text is split at every code unit 10 and nowhere else |
| LineLaws.FenceExactlyWhen | client/claude-code-adapter/src/streaming-batcher.ts:26-66 | a line is a fence if and only if its trimmed text starts with three backticks |
| LineLaws.BlankAndRowExactlyWhen | client/claude-code-adapter/src/streaming-batcher.ts:27-88 | a line is blank if and only if nothing is left of it, and a row if and only if what is left starts with a bar |
| LineLaws.FewBackticksAreProse | client/claude-code-adapter/src/streaming-batcher.ts:26-66 | a line that starts with one or two backticks and then something else opens no fence |
| LineLaws.PlainTextIsCutAtBlankLines | client/claude-code-adapter/src/streaming-batcher.ts:73-98 | a text without fences and rows is cut exactly at its blank lines |
| LineLaws.InlineCodeExample | client/claude-code-adapter/src/streaming-batcher.ts:54-79 | a line that starts with inline code, a blank line and another line are two blocks |
| Packing.PackFitting | client/claude-code-adapter/src/streaming-batcher.ts:111-132 | the packing loop, which sees only the joined string `current`, delivers the greedy groups that fit and sets the oversized blocks aside in order |
| Packing.PackBlocks | client/claude-code-adapter/src/streaming-batcher.ts:109-143 | the packed groups in order, then the pieces of each oversized block numbered from the count so far |
| Packing.TruncateBlock | client/claude-code-adapter/src/streaming-batcher.ts:148-169 | the chopping loop terminates, also where the label leaves no room, and cuts the block into its labelled pieces |
| Packing.NextPieceCases | client/claude-code-adapter/src/streaming-batcher.ts:153-164 | the three branches of the loop are one rule: the next piece takes as much as fits behind its label, or behind none |
| Packing.GreedyStep | client/claude-code-adapter/src/streaming-batcher.ts:115-130 | one block read leaves the list of segments to be delivered unchanged, in all four branches |
| PackingLaws.GreedyIsPartition | client/claude-code-adapter/src/streaming-batcher.ts:115-132 | the greedy groups are consecutive, cover every block once, and each fits or is one oversized block |
| PackingLaws.GreedyStaysAhead | client/claude-code-adapter/src/streaming-batcher.ts:115-132 | at every point greedy needs no more further groups than any partition, or one more if it has closed one fewer |
| PackingLaws.GreedyIsOptimal | client/claude-code-adapter/src/streaming-batcher.ts:109-132 | no way of cutting the blocks into consecutive groups that fit has fewer fitting groups than the packer makes, oversized blocks or not |
| PackingLaws.PackingKeepsFittingBlocks | client/claude-code-adapter/src/streaming-batcher.ts:115-132 | the packed groups hold exactly the blocks that fit, in order, and each group joined is within the limit |
| PackingLaws.ChopConserves | client/claude-code-adapter/src/streaming-batcher.ts:148-169 | the payloads of a chopped block, joined, are the block |
| PackingLaws.ChopFits | client/claude-code-adapter/src/streaming-batcher.ts:148-169 | no piece is empty and none, with its label, exceeds the limit |
| PackingLaws.ChopLabels | client/claude-code-adapter/src/streaming-batcher.ts:153-166 | piece k carries the number start + k and the larger of the announced total and k, unless that label leaves no room |
| PackingLaws.ChopAtLeastTwo | client/claude-code-adapter/src/streaming-batcher.ts:148-169 | a block over the limit yields at least two pieces |
| PackingLaws.ChopAllNumbered | client/claude-code-adapter/src/streaming-batcher.ts:134-140 | across all oversized blocks, the number on a piece is its 1-based position in the whole list, and no piece exceeds the limit |
| PackingLaws.ChopRunsConserve | client/claude-code-adapter/src/streaming-batcher.ts:134-140 | each oversized block is exactly the join of its own run of pieces, run by run in the order of the blocks |
| PackingLaws.LabelWithinTotal | client/claude-code-adapter/src/streaming-batcher.ts:136-166 | a label has N at most M if and only if fewer pieces of its block precede it than there are oversized blocks |
| PackingLaws.ChopCount | client/claude-code-adapter/src/streaming-batcher.ts:148-169 | the number of pieces depends on the length of the block alone |
| PackingLaws.FewPiecesExactlyWhen | client/claude-code-adapter/src/streaming-batcher.ts:152-166 | a block is cut into at most k pieces if and only if it is no longer than the room behind its first k labels |
| PackingLaws.LabelsWithinTotalsExactlyWhen | client/claude-code-adapter/src/streaming-batcher.ts:134-166 | for all blocks, the pieces are labelled with position and announced total where that has room, and no printed N exceeds its M if and only if there is no oversized block that is longer than the room behind its first labels, as many as there are oversized blocks, while the next label has room: a condition on lengths |
| PackingLaws.ShortLimitsPrintNoLabels | client/claude-code-adapter/src/streaming-batcher.ts:153-157 | under a limit of at most 6 that condition always holds, as no label is printed |
| PackingLaws.FirstTotalFallsShort | client/claude-code-adapter/src/streaming-batcher.ts:136 | whenever there is an oversized block, the total announced on the first piece is less than the number of segments sent |
| PackingLaws.LabelIs | client/claude-code-adapter/src/streaming-batcher.ts:153 | a label is bracket, number, slash, total, bracket and space, in code units |
| PackingLaws.LabelPastTotalExample | client/claude-code-adapter/src/streaming-batcher.ts:153-166 | under any limit above 6 a single oversized block is sent with labels 1/1 and 2/1 |
| PackingLaws.ReadLabelExact | client/claude-code-adapter/src/streaming-batcher.ts:153 | a printed label is read back as its two numbers and exactly the payload behind it, for all numbers |
| PackingLaws.StrippingRestoresBlock | client/claude-code-adapter/src/streaming-batcher.ts:148-169 | where every label has room, deleting the labels and joining the segments restores the block |
| SplitReply.SplitLongMessage | client/claude-code-adapter/src/streaming-batcher.ts:181-189 | a text within the limit stays whole, any other is parsed into blocks and packed |
| SplitReply.SplitLongReply | client/claude-code-adapter/src/streaming-batcher.ts:196-220 | every segment of the body gets the header, with all three ways to stay unsplit |
| SplitReply.SegmentsRespectLimit | client/claude-code-adapter/src/streaming-batcher.ts:181-189 | for every text and every limit from 1, no segment exceeds the limit, label included |
| SplitReply.LabelsShowPositions | client/claude-code-adapter/src/streaming-batcher.ts:137 | where the longest label leaves room, the label read from segment i shows i + 1 |
| SplitReply.ReceivedInOrder | client/claude-code-adapter/src/streaming-batcher.ts:109-143 | what the recipient reads is the visible text of the fitting blocks and then that of the oversized ones, each in its own order |
| SplitReply.SplittingConserves | client/claude-code-adapter/src/streaming-batcher.ts:181-189 | over all segments no visible character is lost and none appears twice |
| SplitReply.OrderKeptExactlyWhen | client/claude-code-adapter/src/streaming-batcher.ts:129-140 | fitting blocks followed by oversized ones are the blocks in their own order if and only if no block that fits comes after an oversized one, for every list of blocks |
| SplitReply.OrderKept | client/claude-code-adapter/src/streaming-batcher.ts:181-189 | when the oversized blocks of a text come last, its visible text arrives in its own order |
| SplitReply.LinesSwap | client/claude-code-adapter/src/streaming-batcher.ts:129-140 | of two lines of letters, the first over the limit and the second within it, the user reads the second first |
| SplitReply.OrderLostExample | client/claude-code-adapter/src/streaming-batcher.ts:129-140 | under the limit 2 the text aaa, blank line, b arrives in another order |
| SplitReply.PackedSegmentsReparse | client/claude-code-adapter/src/streaming-batcher.ts:109-132 | parsing each packed segment again gives exactly the blocks of its group, and all groups in order the blocks that fit |
| SplitReply.FittingBlockIsWhole | client/claude-code-adapter/src/streaming-batcher.ts:29-35 | every fence, table or paragraph that fits the limit lies whole in one segment |
| SplitReply.FencesBalance | client/claude-code-adapter/src/streaming-batcher.ts:109-142 | a packed segment has an odd number of fence lines if and only if it is the last and holds the text's final unclosed fence |
| SplitReply.EveryMessageHasHeader | client/claude-code-adapter/src/streaming-batcher.ts:191-219 | corollary of the contract of SplitLongReply: every message of a reply starts with the whole header and a blank line |
| SplitReply.OneSegment | client/claude-code-adapter/src/streaming-batcher.ts:212-215 | blocks fill at most one segment if and only if all of them joined fit |
| SplitReply.WhenRepliesExceedLimit | client/claude-code-adapter/src/streaming-batcher.ts:196-220 | a message of a reply exceeds the limit if and only if header and body do, and the header leaves no room or the normalised body fits one segment |
| SplitReply.BlankLinesExceedLimit | client/claude-code-adapter/src/streaming-batcher.ts:208-215 | a line that fits behind the header, with blank lines after it up to beyond the limit, is sent as one message over the limit |
| SplitReply.LongReplyExample | client/claude-code-adapter/src/index.ts:58-60 | a letter and 2000 line feeds under the header of any workspace and the limit 2000 are sent as one message of 2018 code units and the length of the workspace's name |
| StreamingBatching.StreamingBatcher.constructor | client/claude-code-adapter/src/streaming-batcher.ts:246-262 | a new batcher is empty, live, with its activity check armed |
| StreamingBatching.StreamingBatcher.Add | client/claude-code-adapter/src/streaming-batcher.ts:268-277 | text is appended, both timers start over, and a buffer over the limit is flushed whole; nothing happens after destroy |
| StreamingBatching.StreamingBatcher.OnToolUse | client/claude-code-adapter/src/streaming-batcher.ts:282-286 | the buffer is flushed and activity is noted |
| StreamingBatching.StreamingBatcher.Flush | client/claude-code-adapter/src/streaming-batcher.ts:291-294 | the buffer is flushed without noting activity |
| StreamingBatching.StreamingBatcher.OnIdleTimer | client/claude-code-adapter/src/streaming-batcher.ts:316-318 | the idle callback flushes what is pending |
| StreamingBatching.StreamingBatcher.OnActivityTimer | client/claude-code-adapter/src/streaming-batcher.ts:326-333 | a notice goes out once per period of inactivity |
| StreamingBatching.StreamingBatcher.Close | client/claude-code-adapter/src/streaming-batcher.ts:299-345 | destroying disarms both timers for good and keeps the unflushed buffer unsent |
| StreamingBatching.StreamingBatcher.Deliver | client/claude-code-adapter/src/streaming-batcher.ts:304-309 | an empty buffer is not flushed; any other is handed over whole and the idle timer starts over |
| StreamingBatching.StreamingBatcher.ResetIdle | client/claude-code-adapter/src/streaming-batcher.ts:311-319 | the old idle timer is disarmed before the new one is armed |
| StreamingBatching.StepKeepsInvariant | client/claude-code-adapter/src/streaming-batcher.ts:268-333 | every call and callback keeps: buffer within the limit, no empty chunk, pending text of a live batcher has an armed timer due a fixed time after the last text, at most one idle timer armed, none after destroy |
| StreamingBatching.StartsEmpty | client/claude-code-adapter/src/streaming-batcher.ts:246-261 | a new batcher holds nothing, has sent nothing, and keeps the invariant |
| StreamingBatching.StepConserves | client/claude-code-adapter/src/streaming-batcher.ts:268-309 | one step passes text on unchanged and in order |
| StreamingBatching.RunConserves | client/claude-code-adapter/src/streaming-batcher.ts:268-309 | over any run from any live state, chunks followed by buffer grow by exactly the accepted text |
| StreamingBatching.EveryRun | client/claude-code-adapter/src/streaming-batcher.ts:232-345 | over every run from the start: the invariant, chunks followed by buffer are the text accepted before destroy, and notices are at most one more than signs of activity |
| StreamingBatching.FlushThenDestroyDeliversAll | client/claude-code-adapter/src/index.ts:592-608 | a run closed by flush and destroy, as a session ends, has delivered all accepted text in order |
| StreamingBatching.AddTextDoes | client/claude-code-adapter/src/streaming-batcher.ts:268-277 | on a live batcher text joins the buffer, which is handed over whole if it is then longer than the limit and kept otherwise; the idle timer and the activity clock start over |
| StreamingBatching.ToolUseFlushes | client/claude-code-adapter/src/streaming-batcher.ts:282-286 | a tool use on a live batcher hands over whatever is pending as one chunk and counts as activity |
| StreamingBatching.FlushCallFlushes | client/claude-code-adapter/src/streaming-batcher.ts:291-294 | an explicit flush hands over whatever is pending and does not count as activity |
| StreamingBatching.IdleTimerFlushes | client/claude-code-adapter/src/streaming-batcher.ts:316-318 | a due idle timer hands over whatever is pending |
| StreamingBatching.PendingTextIsFlushedInTime | client/claude-code-adapter/src/streaming-batcher.ts:311-319 | the idle timeout after the last activity the timer is due and hands over all pending text |
| StreamingBatching.NoticeExactlyWhen | client/claude-code-adapter/src/streaming-batcher.ts:326-333 | a notice goes out if and only if the batcher is live, nothing has happened for the period and none was sent since; nothing else changes |
| StreamingBatching.DestroyDoes | client/claude-code-adapter/src/streaming-batcher.ts:299-345 | destroying disarms both timers and hands over nothing |
| StreamingBatching.DestroyedDoesNothing | client/claude-code-adapter/src/streaming-batcher.ts:268-333 | after that no call and no callback does anything |
| ReplyPipeline.PackedShown | client/claude-code-adapter/src/streaming-batcher.ts:132-163 | a packed segment is sent as it is, a chopped one as its payload alone or behind a label that shows its position |
| ReplyPipeline.ReceivedAreBodies | client/claude-code-adapter/src/index.ts:489-509 | what the user reads of a chunk is, part by part, the body of the message sent, or that body less a label in front which shows the part's position |
| ReplyPipeline.ChunkConserves | client/claude-code-adapter/src/index.ts:489-509 | the messages of one chunk carry each of its visible characters once, on the split and the unsplit path |
| ReplyPipeline.EverythingArrives | client/claude-code-adapter/src/index.ts:489-608 | end to end, for every run of a session: the user reads each visible character of the assistant exactly once, however timers flushed and the splitter cut |
| ReplyPipeline.EverythingArrivesInOrder | client/claude-code-adapter/src/index.ts:489-608 | if in no chunk an oversized block precedes one that fits, the user reads the assistant's visible text in its own order |
| QueryManagement.QueryManager.Get | client/claude-code-adapter/src/query-manager.ts:70-72 | the entry under a user and workspace, if there is one |
| QueryManagement.QueryManager.StartQuery | client/claude-code-adapter/src/query-manager.ts:39-64 | a session already there is aborted and its approval disarmed; the new one replaces it |
| QueryManagement.StartReplaces | client/claude-code-adapter/src/query-manager.ts:39-64 | a session stored under the key is aborted and the timer of its approval disarmed without deciding it; the new session is stored, and nothing else changes |
| QueryManagement.QueryManager.RemoveQuery | client/claude-code-adapter/src/query-manager.ts:78-97 | the entry goes whichever session it is, its approval is disarmed and forgotten, an empty user entry goes too |
| QueryManagement.QueryManager.AbortQuery | client/claude-code-adapter/src/query-manager.ts:103-110 | abort and remove, and whether there was anything to abort |
| QueryManagement.QueryManager.SetPending | client/claude-code-adapter/src/query-manager.ts:117-131 | the approval replaces the one waited for, whose timer is disarmed; no session, no effect |
| QueryManagement.QueryManager.ClearPending | client/claude-code-adapter/src/query-manager.ts:156-166 | the awaited approval is disarmed and forgotten |
| QueryManagement.QueryManager.AbortEverything | client/claude-code-adapter/src/query-manager.ts:138-150 | the two nested loops abort every stored session and deny each awaited approval once, in any order of the entries |
| QueryManagement.StartKeeps | client/claude-code-adapter/src/query-manager.ts:39-64 | step of ApprovalsDecidedOnce: starting keeps the table valid: references carry their own key, awaited approvals are armed and undecided, none is decided twice, no user entry is empty |
| QueryManagement.RemoveKeeps | client/claude-code-adapter/src/query-manager.ts:78-97 | step of ApprovalsDecidedOnce: removing keeps the table valid |
| QueryManagement.AbortKeeps | client/claude-code-adapter/src/query-manager.ts:103-110 | step of ApprovalsDecidedOnce: aborting keeps the table valid |
| QueryManagement.SetPendingKeeps | client/claude-code-adapter/src/query-manager.ts:117-131 | step of ApprovalsDecidedOnce: a fresh approval keeps the table valid, also when it displaces another |
| QueryManagement.ClearPendingKeeps | client/claude-code-adapter/src/query-manager.ts:156-166 | step of ApprovalsDecidedOnce: clearing keeps the table valid, as no two sessions wait for one approval |
| QueryManagement.OnePending | client/claude-code-adapter/src/query-manager.ts:117-131 | corollary: two stored sessions never wait for the same approval |
| Scheduler.ChatAdapter.Chat | client/claude-code-adapter/src/index.ts:248-485 | a chat message is refused without a workspace, queued behind a running session, or starts one; look-up and push or start are one step |
| Scheduler.ChatAdapter.HandleMessage | client/claude-code-adapter/src/index.ts:146-178 | a quoting message first switches the workspace, then takes the chat path |
| Scheduler.ChatAdapter.OnSessionEnd | client/claude-code-adapter/src/index.ts:592-613 | the ending session removes the entry under its key and its queue starts draining |
| Scheduler.ChatAdapter.ProcessNext | client/claude-code-adapter/src/index.ts:620-640 | one queued message re-enters the chat path with the user's workspace of that moment; nothing after shutdown |
| Scheduler.ChatAdapter.SwitchCwd | client/claude-code-adapter/src/index.ts:237-246 | a user who switches is in that workspace from then on |
| Scheduler.ChatAdapter.CloseWorkspace | client/claude-code-adapter/src/index.ts:207-230 | the session under the target is aborted and removed, and a user in that workspace moves to another |
| Scheduler.ChatAdapter.CanUseTool | client/claude-code-adapter/src/index.ts:544-557 | an approval is raised under the session's key, with its timer armed even when no entry is there to wait for it |
| Scheduler.ChatAdapter.HandleAnswer | client/claude-code-adapter/src/index.ts:355-383 | an answer resolves the approval awaited in the user's active workspace and clears it; without one it decides nothing |
| Scheduler.ChatAdapter.OnApprovalTimeout | client/claude-code-adapter/src/index.ts:545-549 | a time-out clears whatever is pending under the asker's key and denies its own approval |
| Scheduler.ChatAdapter.ShutDown | client/claude-code-adapter/src/index.ts:718-725 | shutdown stops drains and denies and aborts everything, once |
| Scheduler.StepKeepsValid | client/claude-code-adapter/src/index.ts:142-640 | every step keeps the table valid |
| Scheduler.ApprovalsDecidedOnce | client/claude-code-adapter/src/index.ts:355-375 | over every run and any order of answers, time-outs, replacements, closes, ends and shutdown: no approval is decided twice, an armed one is undecided, an awaited one is armed |
| Scheduler.ApprovalsFromTheStart | client/claude-code-adapter/src/index.ts:544-557 | the same for each approval of a run from the start: at most one call of its resolver, so never both granted and denied |
| SchedulerLaws.StepHolds | client/claude-code-adapter/src/index.ts:458-640 | a step adds the message it delivers to the system, once, and neither loses nor copies any other |
| SchedulerLaws.MessagesAreConserved | client/claude-code-adapter/src/index.ts:248-640 | in every run each message is in the system exactly as often as it was delivered: refused, a prompt, in one queue, or in the rest of one drain |
| SchedulerLaws.SessionsHoldOwnMessages | client/claude-code-adapter/src/index.ts:458-461 | in every run a session holds only messages of its own user, also after drains that follow the user to another workspace |
| SchedulerLaws.ChatGoesTo | client/claude-code-adapter/src/index.ts:248-485 | a chat message goes to exactly one place: refused without a workspace, to the end of the queue of the session stored there, or the prompt of a new session there |
| SchedulerLaws.StartsIdle | client/claude-code-adapter/src/index.ts:77-97 | at the start nothing is stored or asked, every user is in the home workspace, and the adapter runs |
| SchedulerLaws.WorkspacesAndRunning | client/claude-code-adapter/src/index.ts:142-178 | the workspace every user is in after every step: only the user's own quote, /cd and close of the active one change it; the adapter runs until a shutdown |
| SchedulerLaws.NoDrainAfterShutdown | client/claude-code-adapter/src/index.ts:625-626 | after a shutdown no queue is drained, whatever else happens |
| SchedulerLaws.StepSound | client/claude-code-adapter/src/index.ts:248-640 | every step keeps: stored sessions are live, so a queue being drained never grows, and everything a session holds is its user's |
| SchedulerLaws.DrainBehindRunning | client/claude-code-adapter/src/index.ts:620-640 | drained without interruption behind a running session, the messages join its queue in their order |
| SchedulerLaws.FirstDrainStarts | client/claude-code-adapter/src/index.ts:620-640 | the first message drained into a free workspace starts a session there |
| SchedulerLaws.UndisturbedDrainKeepsOrder | client/claude-code-adapter/src/index.ts:620-640 | a whole drain without interruption into a free workspace starts a session with the first message and queues the others behind it in order |
| ExclusionLaws.StepStartIs | client/claude-code-adapter/src/index.ts:328-485 | what a step does to the live sessions: a delivery or a drained message starts one under the key where nothing is stored, every other step starts none and brings none back |
| ExclusionLaws.OneLiveExactlyWhen | client/claude-code-adapter/src/index.ts:328-485 | from a state with at most one live session per user and workspace, a step leads to another such state if and only if it does not start a session where one is still live |
| ExclusionLaws.RunOneLive | client/claude-code-adapter/src/index.ts:328-640 | a run from any such state keeps to at most one live session per key throughout if and only if none of its steps starts one where one is still live |
| ExclusionLaws.OneLiveFromTheStart | client/claude-code-adapter/src/index.ts:328-640 | the same for every run from the start |
| ExclusionLaws.ExclusiveExactlyWhen | client/claude-code-adapter/src/query-manager.ts:39-150 | a step keeps the store's entries exactly the live sessions if and only if it neither closes a workspace in use nor is a shutdown while a session is stored |
| ExclusionLaws.CloseKeepsExclusion | client/claude-code-adapter/src/query-manager.ts:103-110 | closing a workspace keeps the store equal to the live sessions if and only if no session is stored there |
| ExclusionLaws.RunExclusive | client/claude-code-adapter/src/index.ts:328-603 | throughout a run the store is the set of live sessions if and only if no step closes a workspace in use or shuts down while a session is stored |
| ExclusionLaws.OrderlyNeverStartsTwice | client/claude-code-adapter/src/index.ts:328-485 | such a run never starts a session where one is still live |
| ExclusionLaws.AbortedExactlyWhen | client/claude-code-adapter/src/query-manager.ts:39-150 | a step aborts a session if and only if it closes its workspace or shuts down while it is stored; starting a session never aborts another |
| ExclusionLaws.SessionsExclude | client/claude-code-adapter/src/index.ts:328-603 | in every run from the start that closes no workspace in use and does not shut down while a session is stored: at most one live session per user and workspace, it is the stored one and was never aborted |
| ExclusionLaws.CloseBreaksExclusion | client/claude-code-adapter/src/index.ts:207-230 | deliver, close, back with /cd, deliver: two live sessions in one workspace |
| ExclusionLaws.ShutdownBreaksExclusion | client/claude-code-adapter/src/index.ts:695-725 | deliver, shut down, deliver once more from a poll already under way: two live sessions in one workspace |
| ExclusionLaws.EndTakesEntryExactlyWhen | client/claude-code-adapter/src/query-manager.ts:78-97 | the end of a session takes another session out of the store if and only if that one is stored under its key |
| ExclusionLaws.EndOfClosedSessionExample | client/claude-code-adapter/src/index.ts:592-613 | the end of a closed session leaves the newer session of its workspace live but not stored |
| ApprovalLaws.AwaitedUnderSomeKey | client/claude-code-adapter/src/query-manager.ts:117-131 | some stored session waits for an approval if and only if it is awaited under some key |
| ApprovalLaws.WhenApprovalsAreLost | client/claude-code-adapter/src/query-manager.ts:78-131 | an approval becomes undecidable in a step if and only if a session waits for it under a key and the step is another question, the end, the close or another approval's time-out under that key |
| ApprovalLaws.LostStays | client/claude-code-adapter/src/query-manager.ts:78-166 | no step decides a lost approval or arms its timer again |
| ApprovalLaws.LostForever | client/claude-code-adapter/src/query-manager.ts:78-166 | after any run a lost approval is still undecided with its timer disarmed |
| ApprovalLaws.LostInRunExactlyWhen | client/claude-code-adapter/src/query-manager.ts:78-166 | over any run an approval that could be decided ends up lost if and only if some step took it away from the session that waited for it |
| ApprovalLaws.AskedTwiceExample | client/claude-code-adapter/src/index.ts:544-557 | a session that asks twice in a row: its first approval is undecided after any further run |
| DecisionLaws.DecidedExactlyWhen | client/claude-code-adapter/src/index.ts:355-375 | how every step decides every approval: an answer, if the user's active workspace waits for it, with true on /approve and false on /deny; its own armed timer and a shutdown that finds it awaited with false; no other step decides it |
| DecisionLaws.AnswerIsTheDecision | client/claude-code-adapter/src/index.ts:355-375 | an answer to the approval awaited in the user's active workspace is its one decision, true for /approve and false for /deny; its timer is disarmed and nothing is left pending there |
| DecisionLaws.TimeOutDenies | client/claude-code-adapter/src/index.ts:545-549 | the time-out of an armed approval is its one decision, a denial |
| DecisionLaws.ShutdownDenies | client/claude-code-adapter/src/query-manager.ts:138-150 | a shutdown denies every awaited approval, and that is its one decision |
| DecisionLaws.GrantedExactlyWhen | client/claude-code-adapter/src/index.ts:355-375 | in every run from the start an approval is granted if and only if some step is an /approve by a user in whose active workspace it is awaited at that moment |
| DecisionLaws.DeniedExactlyWhen | client/claude-code-adapter/src/index.ts:355-375 | and it is denied if and only if some step is such a /deny, its own time-out, or a shutdown that finds it awaited |
| CircuitBreaking.CircuitBreaker.IsOpen | gateway/src/main.rs:666-671 | open exactly when the whole history says so |
| CircuitBreaking.CircuitBreaker.RecordSuccess | gateway/src/main.rs:673-676 | a success forgets all failures and closes the breaker |
| CircuitBreaking.CircuitBreaker.RecordFailure | gateway/src/main.rs:678-691 | the pruned list and opening time stay the summary of the history with one more failure |
| CircuitBreaking.RecentTwice | gateway/src/main.rs:680 | pruning early loses nothing that a later pruning would keep |
| CircuitBreaking.FailureSummarised | gateway/src/main.rs:678-691 | after a failure the list is the window ending at it and the opening time is the last failure that reached the threshold |
| CircuitBreaking.ReplaySummarises | gateway/src/main.rs:666-691 | the same for the state after every history under a clock that does not run backwards |
| CircuitBreaking.BreakerRefinesHistory | gateway/src/main.rs:666-691 | open at a time if and only if some failure since the last success is younger than the cooldown and reaches the threshold with those in the window ending at it |
| CircuitBreaking.SendBreakerOpensOnOneFailure | gateway/src/main.rs:112-116 | corollary of BreakerRefinesHistory: with the gateway's settings: open exactly for 30 s after a failure that no success followed |
| Deduplication.DedupCache.CheckAndRecord | gateway/src/main.rs:713-721 | accepts exactly when no earlier accepted call of the key is younger than the lifetime |
| Deduplication.DedupRefinesHistory | gateway/src/main.rs:713-721 | the pruned map decides every call as the full history does |
| Deduplication.AcceptedCallsAreApart | gateway/src/main.rs:713-721 | two accepted calls of one key are at least the lifetime apart |
| Deduplication.DroppedCallsRepeat | gateway/src/main.rs:713-721 | every dropped call repeats an accepted one younger than the lifetime |
| Deduplication.MapHoldsRecentKeys | gateway/src/main.rs:715 | the map holds only keys accepted within the lifetime, and the latest call's |
| TypingTickets.TypingTicketCache.Get | gateway/src/main.rs:500-509 | a ticket is returned exactly when one is cached and younger than 600 s |
| TypingTickets.TypingTicketCache.TryClaim | gateway/src/main.rs:533-540 | the slot is won exactly when nobody holds it |
| TypingTickets.TicketCalls.CheckCache | gateway/src/main.rs:527-530 | a hit ends the call, a miss goes on to the slot |
| TypingTickets.TicketCalls.ClaimSlot | gateway/src/main.rs:532-546 | the winner fetches, everyone else polls for up to 10 s |
| TypingTickets.TicketCalls.OnResponse | gateway/src/main.rs:568-590 | an answer with a ticket is cached before the slot is released; any other answer caches nothing |
| TypingTickets.TicketCalls.Finish | gateway/src/main.rs:558-564 | the slot is released and the call returns what its fetch brought |
| TypingTickets.TicketCalls.PollOnce | gateway/src/main.rs:546-552 | a poll ends with a cached ticket, or with none once the deadline has passed |
| TypingTickets.StepKeepsSlots | gateway/src/main.rs:532-564 | every step keeps the in-flight set equal to the users of the calls that hold a slot, one call per user |
| TypingTickets.StepKeepsTickets | gateway/src/main.rs:500-590 | every step keeps cached and returned tickets genuine |
| TypingTickets.LookUpDoes | gateway/src/main.rs:527-530 | a call whose look-up finds a ticket less than 600 s old returns it, any other goes on to claim the slot |
| TypingTickets.ClaimDoes | gateway/src/main.rs:532-546 | a free slot is taken and a fetch begins, else the call polls for 10 s |
| TypingTickets.ResponseDoes | gateway/src/main.rs:568-590 | a ticket the server answers with is cached from this moment and is what the call will return; no ticket caches nothing |
| TypingTickets.ReleaseDoes | gateway/src/main.rs:558-564 | releasing gives the slot back and returns what the fetch brought |
| TypingTickets.WakeDoes | gateway/src/main.rs:546-552 | a polling call returns a fresh ticket as soon as it wakes to one, gives up at its deadline, and else polls on |
| TypingTickets.TimeAndSpawnDo | gateway/src/main.rs:521-530 | a new call starts with the look-up and disturbs no other; the passing of time changes nothing else |
| TypingTickets.InFlightIsExact | gateway/src/main.rs:532-564 | for any number of interleaved calls, a user is in flight if and only if some call holds that user's slot |
| TypingTickets.OneFetchPerUser | gateway/src/main.rs:521-565 | at most one request per user is outstanding |
| TypingTickets.ReturnedTicketsAreGenuine | gateway/src/main.rs:500-590 | every ticket returned was issued for that user less than 600 s before it was read |
| TypingTickets.CachedExactlyWhen | gateway/src/main.rs:500-515 | after any run a user has a fresh ticket if and only if the last one cached in the run, or before it if none was, is younger than 600 s |
| TypingTickets.FetchIsRedundantExactlyWhen | gateway/src/main.rs:527-565 | a call that missed the cache and claims after any further steps fetches in spite of a fresh cached ticket if and only if the slot is free and a ticket was cached since the miss and is still fresh |
| TypingTickets.RedundantFetch | gateway/src/main.rs:527-565 | its shortest instance: two calls miss, one fetches and gives the slot back, the other's claim starts a redundant fetch |
| ResilientSending.ResilientSend | gateway/src/main.rs:739-798 | for every sequence of answers, whatever other calls record into the shared breaker meanwhile: an open breaker stops the call without a request or a record; past it, result, requests and backoff are as specified and the call adds exactly one record, a success if and only if it succeeds |
| ResilientSending.AttemptMade | gateway/src/main.rs:755-790 | what one attempt adds: its request, its sleep, and the token for the next |
| ResilientSending.AtMostFourSends | gateway/src/main.rs:755-797 | every call past the gate makes one to four requests |
| ResilientSending.BackoffAtMost15 | gateway/src/main.rs:766-772 | at most 15 s of backoff, and 15 s if and only if all four attempts are rate limited |
| ResilientSending.TokenDroppedOnce | gateway/src/main.rs:774-780 | the requests carry the token up to a point and none after it |
| ResilientSending.SucceedsExactlyWhen | gateway/src/main.rs:755-797 | success if and only if some attempt of the four is accepted and every earlier answer asks for another attempt |
| ResilientSending.SecondExpiryIsFinal | gateway/src/main.rs:774-785 | a second expired session ends the call |
| ResilientSending.ResultExactlyWhen | gateway/src/main.rs:755-797 | for every sequence of answers: the result is Sent(id) if and only if the answer that settles the call is errcode 0 with that id, Rejected(e) if and only if it is the other errcode e, Unreachable if and only if it is a network error, and exhausted if and only if all four answers ask again, which are -2 and a first -14 under a token |
| ResilientSending.AcceptedIdIsReturned | gateway/src/main.rs:759-763 | if an attempt is accepted with an id and every answer before it asks again, that id is the result |
| ResilientSending.AttemptsAre | gateway/src/main.rs:755-792 | request by request: the token is the caller's until the first -14 and none after it; after attempts 0 to 3 the call sleeps 1, 2, 4 and 8 s if they were answered with -2 |
| ContextTable.SqliteStore.SaveMsgAgentContext | gateway/src/storage/sqlite_store.rs:165-193 | whatever the clock reads, a save is recorded in the history and leaves at most 199 rows |
| ContextTable.SqliteStore.GetMsgAgentContext | gateway/src/storage/sqlite_store.rs:196-209 | a lookup returns the last saved context unless its row was evicted since; if the clock has not run backwards, exactly when fewer than 199 distinct other ids were saved since |
| ContextTable.ReplaySmall | gateway/src/storage/sqlite_store.rs:174-190 | at most 199 rows after any history, whatever the clock does |
| ContextTable.OldestComesFirst | gateway/src/storage/sqlite_store.rs:186 | no row comes before the deleted one by creation time and rowid |
| ContextTable.ReplayIsLatest | gateway/src/storage/sqlite_store.rs:165-193 | under a clock that does not run backwards the table is the last 199 entries of the unbounded map, in order of their last saves |
| ContextTable.TableAgreesWithMap | gateway/src/storage/sqlite_store.rs:165-209 | a lookup agrees with the unbounded map when fewer than 199 distinct other ids followed, and finds nothing otherwise |
| ContextTable.FoundExactlyWhen | gateway/src/storage/sqlite_store.rs:165-209 | whatever the clock does, a lookup finds the last saved context if and only if neither its save nor a later one found 200 rows of which its row came first |
| ContextTable.EvictedUnderClock | gateway/src/storage/sqlite_store.rs:165-193 | under a clock that does not run backwards that happens if and only if 199 distinct other ids were saved since |
| ContextTable.WhenSaveIsForgotten | gateway/src/storage/sqlite_store.rs:165-193 | a save is lost at once if and only if 199 rows of other ids are there and the clock is behind all of them |
| ContextTable.ForgottenSaveExample | gateway/src/storage/sqlite_store.rs:165-193 | 199 saves at one time and a save of another id one second earlier: the last one is not found |
| Routing.MessageQueue.Enqueue | gateway/src/agents/queue.rs:36-40 | the message goes to the end of its agent's queue, and no other queue changes |
| Routing.MessageQueue.DequeueAll | gateway/src/agents/queue.rs:45-48 | an agent takes its whole queue and leaves it empty |
| Routing.MessageQueue.UpdateLastMedia | gateway/src/agents/queue.rs:89-97 | only the media of the last waiting message change |
| Routing.PollsReturnWhatWasPut | gateway/src/agents/queue.rs:36-97 | over every run of puts, polls and media updates, an agent's polls return the messages put for it, each once and in order, and the rest still waits |
| Routing.MediaUpdateDoes | gateway/src/agents/queue.rs:89-97 | a media update changes the media of the message that waits last for its agent, and nothing else |
| Routing.PollDoes | gateway/src/agents/queue.rs:45-48 | a poll empties the queue of its agent and no other |
| Routing.AdmissionDependsOn | gateway/src/router/router.rs:69-147 | corollary: two messages of one group are judged alike whoever sent them and whatever the direct-message policy; outside groups only sender, direct-message policy and user list matter |
| Routing.DirectMessageAdmitted | gateway/src/router/router.rs:69-76 | a message outside groups: disabled admits nobody, open admits everybody, allowlist and pairing admit the users of the list |
| Routing.GroupMessageAdmitted | gateway/src/router/router.rs:79-85 | a group message: disabled admits no group, all admits every group, allowlist those of the list |
| Routing.GroupIdDecides | gateway/src/router/router.rs:138-147 | an empty group id counts as none |
| Routing.LargerListsAdmitMore | gateway/src/router/router.rs:69-85 | corollary: allowing more users and groups never shuts out a message that was admitted |
| Routing.QueuedExactlyWhen | gateway/src/router/router.rs:135-188 | corollary: the queues change if and only if the message is admitted, has a text that is no command, and an agent is active; then its text goes to the end of that agent's queue only, with no context, and nothing is answered |
| Routing.ActiveChangesExactlyWhen | gateway/src/router/router.rs:135-255 | corollary: the active agent changes if and only if an admitted message is a /use of another, registered agent; registry and policies never change |
| Routing.QuietExactlyWhen | gateway/src/router/router.rs:135-188 | corollary: there is no answer if and only if the message was dropped or queued |
| Routing.CommandIsAnswered | gateway/src/router/router.rs:244-252 | what the sender of a command is told: of /use whether the agent is registered, of the others their reply |
| Routing.FailsExactlyWhen | gateway/src/router/router.rs:149-173 | an admitted message that is no command fails if and only if it has no text or no agent is active, with these answers |
| Routing.TextConverts | gateway/src/router/router.rs:325-354 | corollary: a message with a text can always be converted, with that text and the given context, so the failed-conversion answer is never given |
| Routing.TextIsTheFirst | gateway/src/ilink/types.rs:291-301 | the text of a message is that of the first item that has one, else the first transcript, else there is none |
| Routing.ConversionKeepsFields | gateway/src/router/router.rs:325-354 | an agent gets the message's id, sender, time and token, empty or zero where they are missing, undelivered and with the given context |
| Routing.ConversionNamesKind | gateway/src/router/router.rs:325-340 | the kind is that of the first item: 1 text, 2 image, 3 voice, 4 file, 5 video, a missing one text, any other unknown |
| Routing.ConversionTakesMedium | gateway/src/router/router.rs:360-414 | the media are the one of the first item, if its kind and its content agree, and none otherwise |
| Routing.Router.Route | gateway/src/router/router.rs:194-236 | a named agent's queue gets the message with its context; a dropped message is no error, an unknown agent is |
| Routing.RoutedExactlyWhen | gateway/src/router/router.rs:194-236 | corollary: routing changes the queues if and only if the message is admitted, the agent registered and there is an item; then only that agent's queue grows, by the message with its context |
| ReferenceReplies.Gateway.ReferenceTarget | gateway/src/main.rs:262-281 | the registered agent that the stored context of the quoted message names, if all of that is there |
| ReferenceReplies.Gateway.OnMessage | gateway/src/main.rs:259-347 | a quoting message is routed past the active agent, or falls back to the ordinary path |
| ReferenceReplies.Gateway.OnReplySent | gateway/src/main.rs:868-877 | a context is saved exactly for a delivered message with an id and a reply with a context |
| ReferenceReplies.TableOfRun | gateway/src/main.rs:868-877 | the table after any run of the gateway is what its saves alone leave |
| ReferenceReplies.SavesAreSent | gateway/src/main.rs:868-877 | what the store is asked to save are exactly the contexts of delivered replies under their ids: the last context saved under an id is that of the last reply delivered under it with one, and so are the other ids since |
| ReferenceReplies.RouterAfter | gateway/src/main.rs:259-345 | what each event does: replies only touch the table, messages go through the reference branch, polls empty one queue |
| ReferenceReplies.QuotedIdIs | gateway/src/main.rs:262-265 | the quoted id is that of the first item, and only that |
| ReferenceReplies.BypassExactlyWhen | gateway/src/main.rs:259-339 | corollary of QuotingConverts: the ordinary path is skipped if and only if the quoted id is in the table with a context naming a registered agent |
| ReferenceReplies.OrdinaryPath | gateway/src/main.rs:337-345 | a message that is not taken past the active agent is handled on the ordinary path and no other |
| ReferenceReplies.DroppedQuoteChangesNothing | gateway/src/router/router.rs:200-212 | a message the policy drops changes nothing, whatever it quotes |
| ReferenceReplies.QuotingConverts | gateway/src/router/router.rs:325-354 | a quoting message can always be converted for an agent, and carries the context |
| ReferenceReplies.QuotingReachesTheAuthorUnlessEvicted | gateway/src/main.rs:259-339 | the same as the next row whatever the clock did, for a context that no save has evicted |
| ReferenceReplies.QuotingReachesTheAuthor | gateway/src/main.rs:259-339 | after any run: for the context of the last reply delivered under the quoted id, fewer than 199 other ids delivered since, an admitted message and a registered agent suffice for the message to be appended to that agent's queue only, with that context, past the active agent |
| ReferenceReplies.ForgottenQuotesTakeOrdinaryPath | gateway/src/main.rs:259-345 | after 199 other ids a quote is handled as any other message |
| MediaCipher.TransformInPlace | gateway/src/ilink/media.rs:57-59 | every block of the array is replaced by its image, in place |
| MediaCipher.EncryptEcb | gateway/src/ilink/media.rs:76-102 | a key of the wrong length is refused; otherwise the ciphertext is the padded data block by block, of the right length, and decrypts to the data |
| MediaCipher.DecryptEcb | gateway/src/ilink/media.rs:36-73 | a key of the wrong length is refused; a short last block is filled with zeros, and a last byte that is no padding length strips nothing |
| MediaCipher.EcbInverse | gateway/src/ilink/media.rs:57-61 | on whole blocks the mode with the inverse cipher undoes the mode (section 6.1 of NIST SP 800-38A) |
| MediaCipher.UnpadOfPad | gateway/src/ilink/media.rs:63-91 | corollary: unpadding undoes padding for all data, empty or a whole number of blocks included (section 6.3 of RFC 5652) |
| MediaCipher.PaddingIs | gateway/src/ilink/media.rs:87-90 | the padding is one to sixteen bytes that all hold their number, up to the next multiple of 16 |
| MediaCipher.DecryptOfEncrypt | gateway/src/ilink/media.rs:36-102 | for every 16-byte key and all data, decrypting the encryption returns the data |
| MediaCipher.KeysAre16Bytes | gateway/src/ilink/media.rs:39-81 | both directions refuse a key exactly when it is not 16 bytes long |
| MediaCipher.CiphertextLength | gateway/src/ilink/media.rs:88-101 | the ciphertext length is the next multiple of 16 strictly above the data length |
| MediaCipher.BlockwiseEncryption | gateway/src/ilink/media.rs:92-101 | ciphertext block i is the image of padded block i alone |
| MediaCipher.WhenDecryptionIsFaithful | gateway/src/ilink/media.rs:36-73 | encrypting a decryption restores the input if and only if it is whole blocks and the bytes under it are properly padded |
| MediaCipher.OneByteExample | gateway/src/ilink/media.rs:47-73 | a single byte decrypts like the block it makes with 15 zeros, and encrypting does not give it back |

## Left out

- Packing.PackBlocks: requires non-empty blocks, which is what its only caller passes (`BlocksHaveShape`), and a limit from 1 unless there is nothing to pack, as the chopping loop does not end below it.
- Packing.PackFitting: requires non-empty blocks for the same reason; the code would drop an empty block that opens a segment.
- SplitReply.SplitLongMessage: a limit below 1 is allowed only for a text without blocks, as the code does not terminate on any other.
- Packing.TruncateBlock: a limit of 0 or less is not modelled, as the loop would not terminate.
- SplitReply.LabelsShowPositions: labels that leave no room are omitted by the code, so the number is claimed where the longest label has room; `ChopLabels` covers the other pieces.
- Scheduler.ChatAdapter.Chat: the `/compact`, `/resume` and help branches are not modelled; the compact handler does not drain its queue, and the others add no state of their own.
- Scheduler.ChatAdapter.HandleMessage: how a quoted workspace name is resolved to a directory is a parameter, and the message text is not inspected.
- Scheduler.ChatAdapter.OnSessionEnd: the end of a session and the first round of its drain are two steps here, which allows more interleavings than the code has; success and failure of the session are one event, as either handler removes the entry and drains once.
- Scheduler.ChatAdapter.ProcessNext: a reply that rejects inside a drain ends it, and the rest of that queue is never delivered; here a drain may stop at any point, so those messages count as the rest of one drain.
- Scheduler.ChatAdapter.CloseWorkspace: path resolution, aliases and the stored session ids are not modelled; the workspace the user is left in is a parameter.
- Scheduler.ChatAdapter.CanUseTool: automatic approval (bypass mode and the list that `/approve session` extends) never raises an approval and is not modelled.
- Scheduler.ChatAdapter.HandleAnswer: remembering the tool on `/approve session` and switching the permission mode are not modelled; both answers that grant are one event.
- Scheduler.ChatAdapter.ShutDown: the exit of the process three seconds after a shutdown is not modelled.
- ReplyPipeline.EverythingArrives: sending is assumed to succeed, and the 500 ms delays between the parts of a chunk are not modelled, so the order in which messages of different chunks arrive is not claimed.
- StreamingBatching.StreamingBatcher.OnIdleTimer: the runtime's timers are events, so that how often the activity check runs is not modelled; the default limits are parameters; and `onFlush` and `onIdle` are a log of chunks and a count.
- CircuitBreaking.BreakerRefinesHistory: clock readings are milliseconds that never decrease, as for Rust's `Instant`; log lines are left out.
- TypingTickets.RedundantFetch: cancellation of a call in the middle of its fetch, which would leave the slot taken, is not modelled; neither are `send_typing` and `stop_typing`.
- ResilientSending.ResilientSend: HTTP is a function from attempts to answers, and what other calls record into the shared breaker meanwhile is a parameter.
- ContextTable.SqliteStore.SaveMsgAgentContext: storage errors are not modelled, and the time is a parameter.
- ReferenceReplies.Gateway.OnMessage: parsing a context as JSON is a parameter; the map of message contexts, media download and the push over WebSocket after the router are not modelled.
- Routing.Router.Handle: the command parser is a parameter, and commands other than `/use` reply without changing state; shell execution is not modelled.
- MediaCipher.EncryptEcb: the AES rounds are any family of bijections on 16-byte blocks.
- HTTP, WebSocket and SDK plumbing, configuration, logs, QR codes and the message formatter: I/O or formatting with no state to reason about.
- The Python and Go siblings of the splitter, router, queue, breaker and dedup cache: they would add the same claims again.
- Unicode beyond code units: a segment limit may fall between the halves of a surrogate pair, as it may in the code.

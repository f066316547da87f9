# A verified model of tclaw's hard cores

tclaw runs a coding agent behind chat channels. This project models the parts of it whose
correctness rests on invariants that the code never states, and proves what those parts are for.
Code that works by changing things in place is modelled as classes and loops, each proved equal to
a function; the properties are then proved about the functions, over every input, run or reachable
state. Goroutines meet in named steps: a change and the write that follows it are one step, and
what the transport, the store, the clock and the other goroutines do is a parameter of the step.

- **Turn writer** (`TurnWriter*.dfy`, with `CodePoints.dfy`). One turn's status and reply text,
  written piece by piece into chat messages that are sent, edited, rotated, drafted and recovered.
  The chat, read top to bottom, holds every visible text once and in order, whatever edits and
  drafts fail; and what each further text does to the chat, and to a draft, is given exactly. Limits
  in bytes count each code point by its length in UTF-8.
- **Stream fold** (`StreamFold*.dfy`, `TurnEndToEnd.dfy`). The CLI's events, as deltas and as whole
  messages, folded into those writes, and on into the chat.
- **HTML sanitiser** (`Sanitize*.dfy`, with `Search.dfy`). A scanner with verbatim zones: what it makes
  of any text, part by part, its normal form, and idempotence.
- **Git push gate** (`RefCommands*.dfy`, `GitGate.dfy`, `RepoAccess.dfy`). pkt-lines ("pkt-line
  Format" of gitprotocol-common and "Reference Update Request and Packfile Transfer" of
  gitprotocol-pack) parsed by hand and replayed, a tier that expires, and the sweep that withdraws it.
- **Message queue** (`Queue*.dfy`, `Commands.dfy`, `CommandBatches.dfy`, `Merge.dfy`, `Resume.dfy`).
  A persisted priority queue with debouncing and coalescing, its delivery guarantees over crashes
  and failing writes, and the marker that resumes an interrupted turn.
- **Activity** (`Activity.dfy`), **sessions** (`Sessions*.dfy`), **rate limit** (`RateLimit.dfy`),
  **confirmations** (`Confirm.dfy`), **schedules** (`Scheduler*.dfy`) and **argument splitting**
  (`ShellArgs.dfy`).

`Base.dfy`, `Places.dfy` and `Search.dfy` hold shared vocabulary. `dafny verify dfyconfig.toml` checks everything.

## What the proofs found

Properties one would expect that do not hold of the code, each with its exact condition and an
input or run that shows it:

- A separator appended to a reply whose edit is refused is re-sent alone, which the transport
  rejects, so the turn aborts: `FailsExactly`, `SeparatorCanFailTurn`. Such a turn, and of those that
  fail only such a one, still shows its whole reply: `ReplyReadsExactly`, `ReplyCanBeLost`.
- A status message loses text exactly when one status text, in its tags, exceeds 3900 bytes by
  itself, wherever messages are rotated: `StatusCutExactly`, `StatusCanBeCut`.
- An empty text block writes a separator when it streams but not when it arrives in a whole event:
  `StreamedShowsAsWhole`, `EmptyTextShows`.
- At the exact instant a push grant ends the lazy check still grants and the sweep already withdraws:
  `SweepKeepsAccess`, `SweptAtItsEnd`.
- Acknowledged messages survive a run exactly when no restart fails to read the queue while one of
  them is undelivered: `AlwaysSafeExactly`, `FailedReadLoses`. Deliveries stay within what was
  pushed while each is written down, and in a run whose pushes are written and restarts read only
  then; one that is not is repeated by the next restart, whatever it delivered:
  `AlwaysCountedExactly`, `UnwrittenDeliveryRepeats`, `FailedWriteRepeats`.
- The interrupted marker names the turn in progress, in every state of a run, exactly when each
  setting and each clearing of it is written and each new process reads it; and a cleared turn is
  resumed after all, by a restart or in the same process, exactly when that write failed, nothing was
  written since and its channel is live: `MarkerIsExactly`, `ClearedTurnResumesExactly`, `FailedClearResumes`.
- Joined messages read as a control command exactly when there are several, the first starts like a
  button press, the last ends like one and a prompt mark lies between: `BatchIsCommandExactly`,
  `BatchCanReadAsPress`.
- A message that no turn follows cancels the idle timer and leaves waiters untold; a later waiter on
  the idle channel is told at once and alone: `MessageForgets`, `ForgottenStay`, `EndAndNotifyArm`,
  `MessagesCanForget`, `NoticesCanForget`.
- An approved action is performed at most once exactly when its clearing is written down; otherwise
  every further consent performs it again: `ActedOnOnceExactly`, `UnwrittenConsentRepeats`,
  `DoneTwice`.
- Pruning loses a current session exactly when its channel was not read as active and the session is
  old, and brings a cleared one back exactly when an earlier record shares an active id and none
  after it stays: `KeepsCurrentExactly`, `BringsBackExactly`, `UnreadSessionIsLost`,
  `SharedIDComesBack`.
- The rate limiter's worst case over one window's length is 39 requests, one short of two full
  windows: `AtMostTwoWindows`, `BoundIsReached`.
- A schedule whose expression has no next run stays due after it fires, and, when it is the last
  active one, makes the scheduler sleep until a reload however overdue the others are:
  `PassMakesProgress`, `StaysDueAfterFiring`, `SleepsExactly`, `OverdueSleeps`.
- Empty arguments disappear when a quoted command line is split: `NoneLostExactly`, `EmptyIsLost`.

## Model

| member | source | states |
|---|---|---|
| TurnWriterReading.ChatReadsAsWritten | internal/agent/handle.go:245-381 | for every sequence of writes, edits failing and drafts refused at any point, visible sends accepted: after the final flush the chat read top to bottom holds every visible text once, in write order; a status message stands for the texts it was made of, in full exactly as StatusCutExactly says |
| TurnWriterCuts.StatusCutExactly | internal/agent/handle.go:1242-1247 | with visible sends accepted and no status text blank in its tags, a message of the turn is cut exactly when one status text written, in its tags, exceeds the 3900 bytes by itself: rotation never lets texts that fit add up to a cut |
| TurnWriterCuts.ChatShowsInFull | internal/agent/handle.go:245-381 | when there is no such text, every message of the chat is literally the tags around, or the plain concatenation of, its own run of texts, and these runs are all visible texts once and in order |
| TurnWriterCuts.TagsAreSolid | internal/channel/telegramchannel/transport.go:749-751 | a visible open tag, as the splitting channel has, leaves no status text blank in its tags, so both statements above then hold of every turn |
| TurnWriterCuts.StatusCanBeCut | internal/agent/handle.go:1242-1247 | a turn of one 3901-character status text is cut |
| TurnWriterReading.ReplyReadsAsWritten | internal/agent/handle.go:320-381 | whatever happens to status messages: a turn that returns no error shows the whole reply once and in order; the other turns are those of ReplyReadsExactly |
| TurnWriterFailures.ReplyReadsExactly | internal/agent/handle.go:320-381 | whatever the transport answers, the chat reads as the whole reply written, once and in order, exactly when no write and no final flush failed, or the write the turn failed at is a separator whose edit was refused; every other failure loses a visible part of it |
| TurnWriterFailures.ReplyCanBeLost | internal/agent/handle.go:355-362 | a turn that fails and does lose its reply |
| TurnWriterReading.RunKeeps | internal/agent/handle.go:245-381 | the inductive invariant of every turn: a live unsealed message has nothing shown below it, a live unsealed status means no current reply or a sealed one, a draft has no message, a buffer without a message holds nothing unshown |
| TurnWriterReading.FlushKeeps | internal/agent/handle.go:153-165 | flushing a draft keeps that invariant and what is visible |
| TurnWriterReading.StatusWriteKeeps | internal/agent/handle.go:247-318 | so does a status write: flush, fresh message once sealed, rotation, send, edit, recovery |
| TurnWriterReading.ReplyWriteKeeps | internal/agent/handle.go:320-381 | so does a reply write, edit recovery without re-sealing included |
| TurnWriterReading.FailsExactly | internal/agent/handle.go:320-381 | with visible sends accepted, a write fails exactly when it is white space appended to a live reply whose edit is refused |
| TurnWriterReading.SeparatorCanFailTurn | internal/agent/handle.go:364-378 | such a turn exists |
| TurnWriterSteps.StatusTextExactly | internal/agent/handle.go:247-318 | what a status text does to the chat: it goes into the message of the status text just before it exactly if that message then is within 3500 bytes and the edit is taken, and otherwise begins a new one below whatever was a draft |
| TurnWriterSteps.ReplyTextExactly | internal/agent/handle.go:320-381 | what a reply text does to it: it goes into the reply message that stands last, within its limit, or begins a new one with the white space held back; a refused edit sends it alone below, which fails exactly for white space |
| TurnWriterSteps.CurrentExactly | internal/agent/handle.go:245-381 | the writer's fields tell the chat: the status message is gone on with exactly while only status texts come, the reply message exactly while nothing stands below it |
| TurnWriterDrafts.DraftedReplyExactly | internal/agent/handle.go:169-190 | a reply text without a message on a channel that shows drafts: a new draft is updated at once with the whole reply, a standing one 700 ms after its last accepted update; a refused update makes the reply the chat's last message and ends the draft; stopped, accepted or too early, the chat is left alone and the draft stands |
| TurnWriterDrafts.DraftsAreSpaced | internal/agent/handle.go:144-190 | over any turn, whatever the transport answers: no update where the channel shows no drafts, none after a refusal, each showing all the one before it of the same draft did, and 700 ms at least from an accepted one to the next of its draft |
| TurnWriterDrafts.RefusalEndsDrafts | internal/agent/handle.go:182-187 | drafts are given up for the rest of the turn exactly once one was refused, and a draft that stands has been shown |
| TurnWriterCalls.EveryCallProper | internal/agent/handle.go:224-318 | whatever the transport answers and whether or not the turn fails, the final flush included: every status call is one open tag, consecutive raw texts and one close tag, cut only when sent; every reply call and draft update is consecutive texts; an edit extends an uncut message by the next text |
| TurnWriterCalls.EveryCallWithinLimits | internal/agent/handle.go:67-77 | every call of every turn, the final flush included, is within 3500 bytes for edits, 3914 for status sends (3900 and the notice), the reply limit for replies and drafts unless one write alone is longer |
| TurnWriterObject.HandleTurn | internal/agent/handle.go:614-618 | a turn run on the object stops at the first failed write, flushes the draft, and leaves the chat of the specification |
| TurnWriterObject.TurnWriter.constructor | internal/agent/handle.go:135-141 | a new writer has empty buffers, no messages, nothing sealed |
| TurnWriterObject.TurnWriter.FlushDraft | internal/agent/handle.go:153-165 | the object's flush is the specification's |
| TurnWriterObject.TurnWriter.StreamDraft | internal/agent/handle.go:169-190 | the object's draft update is the specification's, throttling and refusal included, and each update is a call on the transport; what that means for chat and draft is DraftedReplyExactly |
| TurnWriterObject.TurnWriter.WriteSplit | internal/agent/handle.go:245-381 | the object's write is the specification's, for which the reading theorems hold |
| StreamFold.StreamResponse | internal/agent/handle.go:750-1143 | the event loop computes the fold, event by event, through result errors, refused tools, a cancelled context and a failed read; what each event writes and how the turn ends are given by the rows below |
| StreamFold.DeniedAreMissing | internal/agent/handle.go:1086-1093 | over any events only refused tools missing from the channel's list are offered again, none when the list is empty, and none is forgotten |
| StreamFoldWrites.OutcomeExactly | internal/agent/handle.go:964-1143 | the first event that ends the turn decides the outcome and nothing after it is written; if none does, the turn is denied exactly the tools some result reported refused that are missing from a non-empty list, and finishes if there are none |
| StreamFoldWrites.ReplyIsMainThread | internal/agent/handle.go:800-1050 | over any events the reply texts are the main thread's alone: subagents' messages and streams, notices and results change none of them |
| StreamFoldWrites.SubagentShows | internal/agent/handle.go:977-996 | a subagent's message writes exactly one status text for each tool call and each text that shows a line, in order, and changes nothing else |
| StreamFoldWrites.AsidesShow | internal/agent/handle.go:800-885 | a subagent's stream changes nothing, a notice writes one status text, a result its statistics |
| StreamFoldWrites.WholeMessageWrites | internal/agent/handle.go:1004-1029 | a whole message that no stream gave, or an error even inside one, writes exactly one text for each block that shows something, in order, text as reply, a blank line between one text and the next |
| StreamFoldWrites.PieceAdds | internal/agent/handle.go:886-962 | what each piece of a streamed message writes |
| StreamFoldWrites.PieceKeeps | internal/agent/handle.go:844-962 | and leaves to remember |
| StreamFoldMeaning.StreamedShowsAsWhole | internal/agent/handle.go:870-1029 | a message streamed in any pieces shows what its whole event shows, and leaves the same separator state, exactly when no text block is empty |
| StreamFoldMeaning.EmptyTextShows | internal/agent/handle.go:870-1029 | a two-block message with an empty text shows a separator streamed and none whole |
| StreamFoldMeaning.ChunkingNeverShows | internal/agent/handle.go:886-962 | two streams of the same blocks end alike, wherever the blocks are cut |
| StreamFoldMeaning.RepeatsAddNothing | internal/agent/handle.go:998-1002 | a whole copy arriving inside a stream adds nothing |
| StreamFoldMeaning.PieceSeen | internal/agent/handle.go:886-962 | a streamed block shows what formatBlock shows of it whole |
| StreamFoldMeaning.TrimInParts | internal/agent/handle.go:924-938 | holding thinking newlines back until more text comes equals trimming at the end |
| TurnEndToEnd.StreamReachesChat | internal/agent/handle.go:750-1143 | whatever events a turn streams after its opening status, ended by a result error, a cancellation or a failed read or not: with visible sends accepted the flush fails nothing and the chat reads as everything visible that was written, once and in order; that is a prefix of what the events fold into, and all of it when no write fails |
| Sanitize.Scan | internal/telegram/sanitize.go:62-121 | the scanning loop computes the recursive sanitiser, its position always moving on; what that makes of a text is SplitsSanitized |
| SanitizeParts.SplitsSanitized | internal/telegram/sanitize.go:28-121 | however a text splits into text without a bracket, bare brackets, tags of the pattern, and code blocks, the output is these parts in order: each bare bracket as &lt;, each tag whose name is none of the fifteen gone, all else verbatim |
| SanitizeParts.EveryTextSplits | internal/telegram/sanitize.go:62-121 | and every text splits so |
| SanitizeParts.FindsTag | internal/telegram/sanitize.go:28 | the matcher finds each tag of the pattern |
| SanitizeParts.TagFound | internal/telegram/sanitize.go:28 | and nothing else |
| SanitizeNormal.SanitizeIdempotent | internal/telegram/sanitize.go:62-121 | sanitising twice changes nothing |
| SanitizeNormal.SanitizedIsNormal | internal/telegram/sanitize.go:62-121 | the output is '<'-free text, complete allowed tags and verbatim zones; a second scan finds the same segments, and they are the only such decomposition |
| SanitizeNormal.UnchangedExactlyWhenNormal | internal/telegram/sanitize.go:62-121 | exactly the texts of that form pass unchanged |
| SanitizeNormal.MatchAgain | internal/telegram/sanitize.go:28 | whether the tag pattern matches depends on the tag's own characters only |
| RefCommands.ParseRefCommands | internal/gitproxy/refs.go:46-89 | the reading loop returns what the parser makes of the body; on success the bytes consumed followed by those unread are the body that arrived |
| RefCommands.Parse | internal/gitproxy/refs.go:16-52 | a parsed section takes at least the flush packet and at most 64 KiB of the body |
| RefCommandsExact.ParsesExactly | internal/gitproxy/refs.go:46-89 | a body is taken for these commands and this many bytes exactly when it starts with their pkt-lines and the flush packet, that long and within 64 KiB; every other body is refused |
| RefCommandsExact.CommandExactly | internal/gitproxy/refs.go:102-113 | a payload is a command exactly when what stands before its first NUL byte is three words, white space of any kind between and around them |
| RefCommandsExact.LengthExactly | internal/gitproxy/refs.go:92-98 | a length is four hex digits of either case |
| RefCommandsExact.SpaceExactly | internal/gitproxy/refs.go:108 | white space is the UTF-8 of the code points Unicode calls so |
| RefCommandsRoundTrip.PushReadsBack | internal/gitproxy/refs.go:46-113 | every well-formed command list, encoded as pkt-lines and a flush packet before any packfile, parses back to itself and leaves exactly the packfile when it fits the limit, and is refused when it does not |
| RefCommandsRoundTrip.CommandReadsBack | internal/gitproxy/refs.go:102-113 | one command reads back, whatever newlines and capabilities follow it |
| RefCommandsRoundTrip.Hex4Read | internal/gitproxy/refs.go:92-98 | every 16-bit length reads back from its four digits |
| GitGate.CheckPush | internal/gitproxy/gitproxy.go:261-300 | the tier check on the request object; a request let through would be forwarded with the body it came with |
| GitGate.CheckPullRequestsOnly | internal/gitproxy/refs.go:123-139 | accepts exactly non-empty command lists that all write branches other than the default one |
| GitGate.Handle | internal/gitproxy/gitproxy.go:219-257 | the handler answers as the specification, for which GateAnswersExactly says when it is 404, 403, 502 or forwarded |
| GitGate.GateAnswersExactly | internal/gitproxy/gitproxy.go:219-300 | for every request that names a repo's endpoint: a fetch, advertised or not, is forwarded exactly when the repo is reachable, whatever the tier; a push exactly when the tier in force allows it too; 404, 403 and 502 exactly for an unknown repo, for no fetch or push or a push not allowed, and for an unreadable store or a URL without an upstream path |
| GitGate.OtherPathsNotFound | internal/gitproxy/gitproxy.go:336-351 | any other path is not found |
| GitGate.PathSplitsExactly | internal/gitproxy/gitproxy.go:336-351 | a path splits exactly when it is /name.git/endpoint with a slash-free name, and then in one way |
| GitGate.ForwardedAsSent | internal/gitproxy/gitproxy.go:138-145 | whatever is forwarded goes with the identical body to one of Git's three endpoints of the repo the path names |
| GitGate.PushForwardedExactly | internal/gitproxy/gitproxy.go:261-300 | a push is forwarded exactly when the tier in force is full write, or pull requests only and a POST's commands parse and pass; other methods are not inspected. GitPushForwardedExactly says which pushes of Git those are |
| GitGate.GitPushForwardedExactly | internal/gitproxy/gitproxy.go:285-299 | a push as Git writes it is forwarded at that tier exactly when it fits the limit and every command targets a non-default branch |
| GitGate.SweepsKeepTheGate | internal/router/repos.go:207-238 | any sweeps up to a request's time leave the gate's answer unchanged, but for a grant ending and swept at that very instant |
| GitGate.EndedGrantPushesNothing | internal/repo/repo.go:73-81 | after a grant's end nothing is pushed, swept or not |
| RepoAccess.RunRepoSweep | internal/router/repo_lifecycle.go:52-69 | one pass sweeps every repo once, in whatever order the map is walked, whichever writes, removals and fetches fail |
| RepoAccess.PassExactly | internal/router/repo_lifecycle.go:60-157 | what one pass does to each repo and clone, all rules together: when a grant goes, when a clone goes, measured from its last use or else from when it was added, and when a fetch is noted |
| RepoAccess.TierExactly | internal/repo/repo.go:73-81 | the tier in force is the stored one until its end, and never more |
| RepoAccess.ExpireGrant | internal/router/repo_lifecycle.go:73-96 | withdraws exactly lapsed push grants whose write works |
| RepoAccess.DropUnusedClone | internal/router/repo_lifecycle.go:100-123 | removes the clone exactly when it exists, has sat unused as long as its rule says and can be removed; the entry stays |
| RepoAccess.RefreshRepo | internal/router/repo_lifecycle.go:127-157 | fetches when due, and notes the time exactly when the fetch and the write work |
| RepoAccess.SweepKeepsAccess | internal/repo/repo.go:73-81 | sweeping at n changes the tier in force at a later time exactly at the boundary instant |
| RepoAccess.SweptAtItsEnd | internal/router/repo_lifecycle.go:73-96 | full write at its end instant, read-only once swept at it |
| RepoAccess.SweepsKeepAccess | internal/router/repo_lifecycle.go:73-157 | the same over any number of passes, failed writes and background fetches among them |
| RepoAccess.SweepsKeepTheRest | internal/router/repo_lifecycle.go:127-157 | nothing but the tier, its end and the fetch time ever changes |
| Queue.Queue.PushMessage | internal/queue/queue.go:142-166 | appends and writes down |
| Queue.Queue.LoadPersisted | internal/queue/queue.go:119-139 | replaces memory by disk, or changes nothing when the read fails or disk is empty |
| Queue.Queue.DequeueIndex | internal/queue/queue.go:240-268 | the three loops find the index the class order selects |
| Queue.Queue.Dequeue | internal/queue/queue.go:215-236 | removes the selected message and writes the rest down |
| Queue.Queue.CoalesceBatch | internal/queue/queue.go:356-393 | one loop splits the queue into batch and rest and joins the batch, as CoalescedExactly says |
| Queue.Queue.DebounceAndCoalesce | internal/queue/queue.go:317-349 | the event loop of the debounce |
| Queue.Queue.NextMessage | internal/queue/queue.go:171-211 | the loop of Next |
| QueueMeaning.SelectionIsByClass | internal/queue/queue.go:240-268 | the selected message is the oldest of the best class present: user, resume, idle or unknown channel; none is selected exactly when all wait for busy channels |
| QueueMeaning.SelectionExactly | internal/queue/queue.go:240-268 | the same in the source's own terms: oldest user message, else oldest resume, else oldest whose channel is unknown or not busy |
| QueueMeaning.DequeueExactly | internal/queue/queue.go:215-236 | the selected message goes, the others stay in order, and the rest is written down |
| QueueMeaning.NextDelivers | internal/queue/queue.go:171-211 | Next delivers the selected message or the batch it belongs to, leaves the others in order, and never ends in the empty-batch error |
| QueueNext.NextIsRun | internal/queue/queue.go:171-211 | one call of Next is a run of exactly the pushes it handled, in order and each as written, and then at most one delivery, of the message returned and as written; so the guarantees over runs are guarantees of Next |
| QueueNext.NextLosesNothing | internal/queue/queue.go:171-211 | whatever fails in it, a call of Next keeps every message acknowledged before it or by its own pushes delivered or both in memory and on disk |
| QueueNext.WaitEndsExactly | internal/queue/queue.go:171-211 | while nothing can go Next pushes its input and waits on, and it ends without a message exactly as its input or context ends |
| QueueMeaning.BatchIsStablePartition | internal/queue/queue.go:356-393 | a batch takes exactly the batchable messages of its channel; both parts keep the queue's order |
| QueueMeaning.BatchableExactly | internal/queue/queue.go:271-291 | a message joins a batch exactly if a user typed it on the batch's channel and it is no control command |
| QueueReturns.CoalescedExactly | internal/queue/queue.go:356-393 | what a batch is returned as: the first one's source, and every text in full, in the queue's order, a blank line between neighbours and nothing else; nothing is returned exactly when there is nothing to take |
| QueueReturns.DeliveredIsReturned | internal/queue/queue.go:171-393 | over any run the messages handed out stand one by one, in full, for what was delivered |
| QueueReturns.AcknowledgedIsReturned | internal/queue/queue.go:119-393 | so in any run whose restarts read the disk every acknowledged message is among those the messages handed out stand for, or both in memory and on disk |
| QueueMeaning.CoalescedIsNoWordCommand | internal/queue/queue.go:356-393 | a coalesced message is never a word command |
| QueueHolding.BatchIsDeliveredWhenDue | internal/queue/queue.go:317-349 | for everything that can come from outside on a clock that does not go back, with the two timers set, put back and fired as the code does: a wait entered with something to deliver handles what comes before its first timer is due and delivers, at that instant exactly, the batch of all of it; the quiet timer is due one window after the last reset, the cap five seconds after entry; it ends otherwise only by the input or context ending first |
| QueueHolding.NextDeliversInTime | internal/queue/queue.go:171-211 | so a call of Next that finds a batchable message always delivers, within five seconds, if neither input nor context ends |
| QueueHolding.SomethingIsReceived | internal/queue/queue.go:317-349 | whatever comes from outside, there is a way for the wait to go on |
| CommandBatches.BatchIsNoWordCommand | internal/agent/agent.go:72-99 | messages none of which is a control command never join into a word command, case folding and Unicode trimming included |
| CommandBatches.BatchIsPressExactly | internal/channel/prompt.go:106-122 | messages of any number joined read as a button press exactly when the first starts with the press prefix, the last ends in the bracket, and the prompt mark occurs behind the prefix or in a later message |
| CommandBatches.BatchIsCommandExactly | internal/agent/agent.go:72-99 | messages none of which is a control command join into one exactly when there are several and they join into a press |
| CommandBatches.BatchedPressHasLineBreak | internal/agent/agent.go:82-86 | corollary: such a press holds a line break in reply or prompt id |
| CommandBatches.BatchCanReadAsPress | internal/agent/agent.go:82-86 | it can happen |
| Commands.PressReadsBackExactly | internal/channel/prompt.go:106-122 | button presses read back exactly when the reply does not begin the prompt's mark |
| Commands.WordsExactly | internal/agent/agent.go:72-110 | the word commands are exactly nine words in any case of letters, as Unicode folds them |
| Commands.PressText | internal/channel/prompt.go:104-108 | a press reads as the sign, the reply and the prompt's id |
| QueueRuns.AtLeastOnce | internal/queue/queue.go:119-166 | corollary: so it is in every run whose restarts read the disk, whatever writes fail; AcknowledgedIsReturned says what delivered means |
| QueueRuns.AlwaysSafeExactly | internal/queue/queue.go:119-166 | over any run: every state has each acknowledged message delivered, or both in memory and on disk, exactly when no restart fails to read the disk while something acknowledged is undelivered |
| QueueRuns.AtMostOnce | internal/queue/queue.go:215-236 | corollary: when deliveries are written down, nothing is delivered more often than pushed |
| QueueRuns.AlwaysCountedExactly | internal/queue/queue.go:215-236 | what is delivered and what a crash would bring back stay within what was pushed in any run that writes every delivery of something down; in a run whose pushes are written and restarts read, only then |
| QueueRuns.UnwrittenDeliveryRepeats | internal/queue/queue.go:227-229 | whatever an unwritten delivery delivers, message or batch, a restart and the same delivery deliver again |
| QueueRuns.ExactlyOnce | internal/queue/queue.go:119-393 | with a working store every message pushed is delivered or queued, and not both |
| QueueRuns.FailedReadLoses | internal/router/router.go:838-840 | a restart that cannot read the queue loses an acknowledged message |
| QueueRuns.FailedWriteRepeats | internal/queue/queue.go:227-229 | a run of one user message in which that happens |
| Merge.ForwardStatic | internal/router/merge.go:37-60 | every message pulled is handed over in order, or, in hand at a cancellation, pushed to the queue |
| Merge.PulledExactly | internal/router/merge.go:37-60 | the messages pulled are those of the turns up to the first that hands nothing over, in order, and the one in hand is the one held at a cancellation |
| Resume.CheckAutoResume | internal/router/resume.go:16-40 | resumes the marked channel if it is still there, and clears the marker either way |
| Resume.DetermineStartupSignal | internal/router/startup.go:46-54 | starts at once for a resume or for queued work |
| Resume.ResumeHasItsClass | internal/router/resume.go:29-40 | a resume message is in the class after a user's, and in no batch |
| Resume.OnlyInterruptedTurnsResume | internal/agent/agent.go:729-735 | over any run, idle exits included, whose marker-clearing writes and restarts work, a resume directly follows the start of its turn on a channel that is still there: no normal end and no other resume between |
| Resume.MarkerIsExactly | internal/agent/agent.go:943-950 | over any run: memory and disk name the turn in progress in every state exactly when each marker set and each owed one taken away is written down and no new process fails to read one |
| Resume.ClearedTurnResumesExactly | internal/router/resume.go:16-40 | after any such run, a turn whose marker its normal end or a start takes away is still resumed after a later load of the queue, by a new process or in the same one, any queue steps and idle exits between, exactly when that clearing write failed, none of those steps wrote, the load works and its channel is live; only then does the run hold a resume of no interrupted turn |
| Resume.StartupIsExact | internal/router/startup.go:46-54 | after any such run, the next start resumes exactly the interrupted turn of a live channel, begins at once exactly for that or a non-empty queue, and leaves the queue alone without a marker |
| Resume.FailedClearResumes | internal/agent/agent.go:943-950 | a normal end that is not written down is resumed, after a restart and in the same process |
| Activity.ChannelActivity.ScheduleCheck | internal/channel/activity.go:226-253 | sets the timer for the end of the cooldown, or tells the waiters if it is over |
| Activity.ChannelActivity.SignalWaiters | internal/channel/activity.go:257-262 | closes every waiter once, in order |
| Activity.ChannelActivity.Notify | internal/channel/activity.go:144-173 | adds a waiter, closed at once when idle |
| Activity.ChannelActivity.TimerCallback | internal/channel/activity.go:242-252 | tells the waiters unless the channel is busy again |
| Activity.WaitersClosedOnceWhenIdle | internal/channel/activity.go:144-262 | in every run, late callbacks included, each waiter is closed at most once and only while the channel is not busy |
| Activity.BusyExactly | internal/channel/activity.go:123-142 | busy is during a turn and for three minutes after a message |
| Activity.EndExactly | internal/channel/activity.go:113-119 | a turn's end tells the waiters, or sets the timer for the end of the cooldown exactly while someone waits and it lasts |
| Activity.StepKeepsInv | internal/channel/activity.go:88-119 | an armed timer implies no turn and a due time of the last message plus three minutes |
| Activity.EndAndNotifyArm | internal/channel/activity.go:113-173 | a turn's end leaves no waiter without a timer; a new waiter leaves older ones so exactly when they were and the channel is idle, in which case it alone is told |
| Activity.TimerTellsAll | internal/channel/activity.go:242-252 | a timer left alone tells every waiter, however late its callback |
| Activity.MessageForgets | internal/channel/activity.go:88-96 | a message leaves waiters without a timer exactly when some wait and no turn runs |
| Activity.ForgottenStay | internal/channel/activity.go:88-96 | and they stay so through any further messages |
| Activity.MessagesCanForget | internal/channel/activity.go:88-96 | a run from the unused channel that ends so: message, waiter, message |
| Activity.NoticesCanForget | internal/channel/activity.go:144-173 | a reachable run after which the channel is idle, a later waiter has been told and an earlier one has not |
| Sessions.SessionStore.Set | internal/channel/session_store.go:85-130 | the store after SetCurrent, failing reads and writes and migration included |
| Sessions.SessionStore.LoadRecords | internal/channel/session_store.go:181-211 | reads records and migrates plain ids |
| Sessions.MarkCleared | internal/channel/session_store.go:103-110 | the backward loop clears the last record not cleared |
| Sessions.CollectActive | internal/router/session_cleanup.go:105-130 | collects the current sessions of the channels that can be listed and read, whether or not migration can be written |
| Sessions.CleanUp | internal/router/session_cleanup.go:21-177 | removes the session files and records that are neither active nor newer than the cutoff, whichever reads, writes and removals fail; nothing when the directory of the files cannot be read |
| SessionsMeaning.RefinesOneVariable | internal/channel/session_store.go:62-130 | over any calls on any channels the store answers as one optional variable per channel |
| SessionsMeaning.SessionAges | internal/channel/session_store.go:147-170 | after SetCurrent a session is current for exactly the maximum age and then reported as timed out; a reset is not |
| SessionsMeaning.HistoryGrows | internal/channel/session_store.go:85-130 | recorded ids and start times stay, in order, whatever fails |
| SessionsMeaning.SettingKeepsOrder | internal/channel/session_store.go:102-126 | records stay in order of time while the clock does not go back |
| SessionsMeaning.RecordsExactly | internal/channel/session_store.go:85-130 | the records after a call that works: the same session again is only used again, another begins a record, a reset clears the last one not cleared, an invalid id changes nothing |
| SessionsMeaning.FailuresExactly | internal/channel/session_store.go:85-130 | and after one that does not: nothing changes but that a plain id may have become a record |
| SessionsMeaning.DamagedStaysDamaged | internal/channel/session_store.go:192-198 | a damaged value is never written over |
| SessionsMeaning.ValidExactly | internal/channel/session_store.go:226-243 | which ids are valid |
| SessionsPruning.RefinesWithCleanUps | internal/router/session_cleanup.go:105-177 | over any sequence of sessions set and clean-ups at any cutoffs that could read the channels, with a clock that does not go back and unshared ids, each channel still answers as one optional variable: no clean-up is ever seen |
| SessionsPruning.KeepsCurrentExactly | internal/router/session_cleanup.go:132-177 | with records in order, a channel keeps its current session exactly when it is not pruned, the session was collected as active, or its last record is newer than the cutoff |
| SessionsPruning.BringsBackExactly | internal/router/session_cleanup.go:154 | with records in order, pruning gives a channel without a session one exactly when an uncleared, valid record has an active id and no record after it is kept |
| SessionsPruning.PruningKeepsSession | internal/router/session_cleanup.go:132-177 | corollary: pruning at any cutoff keeps a current session that could be read |
| SessionsPruning.PruningBringsNoneBack | internal/router/session_cleanup.go:132-177 | corollary: with unshared ids it brings none back |
| SessionsPruning.PruningChangesNothing | internal/router/session_cleanup.go:105-177 | so clean-up changes no readable channel's current session, given chronological records and unshared ids |
| SessionsPruning.FilesStayExactly | internal/router/session_cleanup.go:54-89 | corollary: a session file stays exactly when its id is the current session of a channel that could be read, it is newer than the cutoff, or it cannot be removed |
| SessionsPruning.PlainBecomesRecord | internal/router/session_cleanup.go:105-130 | a clean-up that reads a plain session id makes a record of it |
| SessionsPruning.UntouchedStays | internal/router/session_cleanup.go:105-177 | a channel it cannot read, or cannot write, stays as it is |
| SessionsPruning.SharedIDComesBack | internal/router/session_cleanup.go:154 | with a shared id a cleared channel's old session comes back |
| SessionsPruning.UnreadSessionIsLost | internal/router/session_cleanup.go:119-123 | a channel that could not be read loses its current session |
| RateLimit.RateLimiter.Allow | internal/oauth/ratelimit.go:49-63 | one request's answer and the entry it leaves |
| RateLimit.RateLimiter.Gc | internal/oauth/ratelimit.go:74-80 | removes exactly the expired entries |
| RateLimit.CollectionsAndOthersDoNotMatter | internal/oauth/ratelimit.go:49-84 | an address's answers are those of its requests alone: collections and other addresses never change one |
| RateLimit.AtMostTwoWindows | internal/oauth/ratelimit.go:49-63 | at most 39 requests of an address are allowed in any stretch of one window's length, on any run |
| RateLimit.AtMostOneWindow | internal/oauth/ratelimit.go:49-63 | at most 20 in the window a request opens |
| RateLimit.BoundIsReached | internal/oauth/ratelimit.go:49-63 | 39 is reached, by requests at times in order |
| Confirm.RuntimeState.InterceptPendingConfirmation | internal/router/done.go:69-162 | the verdict on a message and the action left armed |
| Confirm.VerdictExactly | internal/router/done.go:69-162 | exactly which messages decline, are sent to the buttons, confirm, or go on to the agent, a typed refusal among the last |
| Confirm.ClearsExactly | internal/router/done.go:90-148 | and exactly which clear the question |
| Confirm.RuntimeState.ArmPendingAction | internal/channel/runtime_state.go:91-97 | arms unless an unexpired confirmation is open |
| Confirm.ActedOnOnceExactly | internal/router/done.go:69-175 | over any run with fresh prompt ids: in every state nothing has been acted on twice and nothing acted on is still open, exactly when the clearing of each action performed is written down |
| Confirm.OnlyByConsent | internal/router/done.go:69-162 | over any run, whatever fails, each action is performed only for a timely user yes or its own yes button |
| Confirm.UnwrittenConsentRepeats | internal/router/done.go:148-175 | after an unwritten clearing the next consent performs the action again, whatever comes between that leaves it open |
| Confirm.DoneTwice | internal/router/done.go:148-175 | a three-step run with two actions for one prompt |
| Confirm.EachActedOnOnceByConsent | internal/router/done.go:69-162 | corollary: so while the store works each confirmation is acted on at most once, and only for a timely user yes or its own yes button |
| Confirm.OpenExactlyWhileIgnored | internal/router/done.go:69-162 | over any run before it expires, whatever writes fail, a confirmation is still open exactly when every message so far was automated traffic, another prompt's press, an ambiguous typed yes, or one whose clearing was not written; while all are of the first three kinds nothing is done |
| Confirm.FirstAnswerDecides | internal/router/done.go:69-162 | the first message a confirmation does not ignore is acted on exactly when it consents and the kind is known |
| Confirm.OpenQuestionStays | internal/router/done.go:90-140 | the one-message case: an open one is never replaced, and stays exactly for the messages above |
| Confirm.ConsentIsActedOn | internal/router/done.go:148-156 | the one-message case: confirmed exactly by consent to a known kind |
| Confirm.FlowManager.Begin | internal/agent/flows.go:59-88 | starting a flow keeps the shared set of open prompts equal to the channels with a flow |
| Confirm.FlowManager.Cancel | internal/agent/flows.go:91-101 | so does cancelling |
| Confirm.FlowManager.Complete | internal/agent/flows.go:104-114 | and completing |
| Scheduler.FireReadySchedules | internal/schedule/scheduler.go:112-207 | the pass over a snapshot, changing the store by id, leaves and sends what the specification says schedule by schedule |
| Scheduler.Store.Add | internal/schedule/schedule.go:100-114 | refuses a taken id and keeps ids unique |
| Scheduler.Store.Update | internal/schedule/schedule.go:117-136 | changes the schedule with an id, or reports it missing |
| Scheduler.Store.Remove | internal/schedule/schedule.go:139-159 | removes it, or reports it missing |
| SchedulerMeaning.PassMakesProgress | internal/schedule/scheduler.go:112-251 | after a pass a schedule is due exactly if its write failed or it has no next run; due one-shots are gone whether or not their channel was found; each due schedule with a live channel sent one message, in list order, and only such a one has run |
| SchedulerMeaning.DueExactly | internal/schedule/scheduler.go:112-140 | due are exactly the active schedules whose next run has come or that have none |
| SchedulerMeaning.PausedStays | internal/schedule/scheduler.go:123 | a pass neither runs nor changes a paused schedule, nor one whose time has not come |
| SchedulerMeaning.StaysDueAfterFiring | internal/schedule/scheduler.go:112-207 | a schedule without a further run fires and is due again at any later instant |
| SchedulerMeaning.FindEarliest | internal/schedule/scheduler.go:65-75 | the loop that picks the wake-up time |
| SchedulerMeaning.WakesForEarliest | internal/schedule/scheduler.go:65-103 | it is the earliest next run, if every active schedule has one |
| SchedulerMeaning.SleepsExactly | internal/schedule/scheduler.go:65-86 | the scheduler sleeps until a reload exactly when the last active schedule has no next run or none is active |
| SchedulerMeaning.OverdueSleeps | internal/schedule/scheduler.go:65-86 | an overdue schedule in front of one without a next run, and no wake-up |
| ShellArgs.SplitShellArgs | internal/gws/gws.go:349-375 | the loop computes the split |
| ShellArgs.SplitsExactly | internal/gws/gws.go:349-375 | however a line is cut into gaps, single characters and quoted stretches, what stands between two gaps, quotes taken off, is one argument, unless nothing is left |
| ShellArgs.EveryLineHasPieces | internal/gws/gws.go:349-375 | and every line is cut so |
| ShellArgs.SplitInvertsQuoting | internal/gws/gws.go:349-375 | arguments each wrapped in a quote they do not hold, one space between, split back to themselves, empty ones aside |
| ShellArgs.NoneLostExactly | internal/gws/gws.go:349-375 | they all come back exactly when none is empty |
| ShellArgs.EmptyIsLost | internal/gws/gws.go:349-375 | a quoted empty argument is lost |

## Left out

- TurnWriterReading.ChatReadsAsWritten: counts a status text whose message was cut at 3900 bytes as shown; StatusCutExactly says when that is, and ChatShowsInFull what holds otherwise.
- TurnWriterObject.Transport: a failed edit is taken to have had no effect, a failed send to have sent nothing, and "not modified" to mean that the message already shows the text; texts are taken as valid UTF-8, one character a code point.
- StreamFold.StreamResponse: the session id and context size it also returns, and how a tool call's arguments are formatted, which is a function here though the program walks a map.
- RepoAccess.RunRepoSweep: whether a background fetch works is given; an edit of a repo by another goroutine between the sweep's read and its write is not modelled.
- GitGate.Handle: HTTP parsing, path cleaning and the reverse proxy; a repo's upstream path and a slot's token are given as maps.
- Queue.Queue.NextMessage: what its select blocks on and its fairness; events are given as the trace the loop handles, and QueuedAt, shown to users only, is not kept.
- QueueHolding.BatchIsDeliveredWhenDue: timers go off on time; the goroutine's own delays are not modelled.
- Queue.Queue.DebounceAndCoalesce: a push and the write that follows it are one step, with one consumer.
- Resume.CheckAutoResume: the wording of the resume message, for which a short constant stands.
- Activity.WaitersClosedOnceWhenIdle: one channel's entry, since channels do not share state; the persisted copy of the last message time is not modelled.
- Confirm.EachActedOnOnceByConsent: what the confirmed actions do.
- Confirm.FlowManager.Begin: the flows' contents and the permission override an approval installs for one turn.
- Sessions.CleanUp: two project directories holding files of one session id, and the data directory that goes with a session file.
- SchedulerMeaning.PassMakesProgress: cron parsing and time zones, which are an abstract next-run function, two channels of one name, and a shutdown in the middle of a pass.
- writeSingle, the single-message mode of channels that do not split status from reply.
- Config validation, credential and repository records, prompt building, tool groups, provisioning and the terminal interface: large, with easy per-branch facts only.
- JSON and YAML encoding and the key-value store: stored values are what was last written.

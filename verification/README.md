# Verified models of the client-side state code

This project models the state code of the Multica clients (the shared package `packages/core` and the mobile
library `apps/mobile/lib`) and proves the promises that code makes in its comments and names. `dafny
verify dfyconfig.toml` checks all of it.

Code that computes a value is a function here; code that works step by step is a method with a loop, or a class
with the fields the source assigns to, and each such method is proved equal to a function of its input or old
state. The theorems are about those functions, for every input, every run of events or every reachable state.

## What is proved, by component

**Reply threads** (`TimelineThread`, `ThreadSearch`, `ThreadCounts`, `ThreadOrder`). The breadth-first search that folds replies
into rows ends if and only if no chain of replies below its start comes twice by the same id; unique comment ids
suffice, even when parents form a cycle elsewhere, and a reply that repeats its parent's id keeps it busy for
ever. With unique ids a row holds exactly the descendants of its entry, nearest first, siblings in timeline order.
Whether ids are unique or not, the rows show the timeline, nothing lost or repeated, if and only if no comment is
its own ancestor and every id that a reply names as its parent belongs to exactly one comment. A row's replies are
in chronological order if and only if, below its entry, an earlier reply is always nearer, or as near and below
the same or an earlier parent.

**Runs of activities** (`TimelineCoalesce`). The one-pass loop computes the maximal runs of joining entries; the
counts add up, comments and squad-leader evaluations pass unchanged, no two neighbours could still be merged, and
coalescing again changes nothing. `MergedIff` gives the rule on the entries' own fields.

**Inbox** (`InboxDisplay`, `InboxRows`). Exactly one row per issue with an unarchived item: its newest item, with its
own comment anchor or that of the newest commented one; running it twice changes nothing, and with distinct times
the input order does not matter. An item without an issue stands under its own id; an issue with an unarchived item
has no row exactly if an item without an issue, whose id is the issue's, is newer (`IssueIsShownIff`).

**Pending queue** (`PendingQueue`, `PendingEvents`). Over every run of events ids stay distinct and the head is not
queued behind itself. What every event leaves is stated field by field: an idle send becomes the head at once, a
queued one waits in order, a removal cuts out one row. Observations of waiting tasks can arrive in any order and any
number of times and give the same queue. The comparator is a consistent order if and only if no unparsable time sits
between two tasks whose times and ids disagree; `UnparsableOrderIsCircular` is an input where it runs in a circle.

**Task messages** (`TaskMessages`). The merge of two delivery channels keeps what was there and returns its input
when nothing is new. Its result is strictly ordered if and only if the new part of the batch repeats no number,
since nothing removes repetitions inside one batch (`RepeatedNumberStays`). Well-formed batches that agree commute
and may repeat.

**Mentions** (`Mentions`, `MentionPicks`). No text is lost: the result is the text without markers, or that text
with each mention a link, in order. What is sent tells the markers: another list of them gives another text. A
pick puts its marker at the end of the list, so every mention is sent with its own marker if and only if the name
holds no space and all mentions behind the cursor carry that very marker; with a space, or a mention of another
name behind it, the text falls back, and otherwise two people of one name are swapped (`SwappedPicks`). A name with
a space makes the text fall back wherever it stands.

**Chat drafts** (`DraftUploads`, `ChatStore`, `ChatStoreObject`, `DraftSlots`, `DraftActions`, `RestoreHistory`).
Storage is a map from keys to blobs. After every run of actions, reloads and workspace switches, storage mirrors memory except for
empty texts and uploads in flight; reloading rebuilds memory; other workspaces' blobs are untouched; every queue
of restores is the list of those enqueued and not dequeued since, oldest first, and every ledger holds exactly the
restores marked and not forgotten since. Legacy slots are folded once, and the unified slot is never overwritten;
text and uploads of two drafts meet exactly if only one of them had been unified. Each action changes one slot of its
own kind; a cleared draft is gone from memory and from every later load, and nothing empty is ever stored.

**Uploads and logout** (`UploadCoordinator`, `DraftCleanup`, `UploadSession`, `UploadOutcomes`, `SessionRuns`).
Requests settle at any time, in any order. The map of controllers holds, for each id, exactly the latest started,
unfinished, unaborted request. A request reports a second outcome exactly if its success callback throws an error
not named `AbortError` while it is not aborted, since the source's `try` covers the callback. The requests of any
session of picks, outcomes, dismissals and logouts are a possible run of the coordinator, so all this holds of them.
An outcome lands in the draft while that still tracks the request. After a logout no outcome of an earlier request
changes memory or storage. `abortAll` reaches every request at every moment of a run if and only if no id is
started while a request for it is running and not aborted. A logout leaves nothing of the chat store, whatever was
done in the workspaces visited, if and only if it lists them all and none of them is the missing one.

**Analytics buffer** (`Analytics`). Whatever is called before initialization, the library ends up with the log that
direct calls of the latest identify and the operations since the last reset would have given, once each, in order,
each with everything the caller passed and the stamps of its moment.

**WebSocket client** (`WsClient`). Between `connect()` and `disconnect()` exactly one of a live socket and an
armed timer exists, afterwards neither. This survives a further `connect()` if and only if the client was idle;
`SecondConnectLeaks` shows the socket that is left behind. Over every run the backoff counts the losses since the
last authentication, so it starts over at one second; the delays of an attempt are exactly the whole numbers within
20 % of its base and up to 30 s. The callbacks that run are those registered and not taken back.

**Exception fuse** (`ExceptionFuse`). However storage fails, an event is dropped only after three with its
fingerprint were kept, at most fifty fingerprints are stored, and a failing event counts nothing. Without failures the dropped events are exactly
those after the third of each of the first fifty fingerprints.

**Rollout hash** (`FnvHash`). The signed 32-bit loop equals unsigned FNV-1a (section 2 of draft-eastlake-fnv) of
the UTF-8 bytes with a zero byte between key and identifier. Two keys can share a frame if and only if one of
them, followed by a zero character, begins the other; for one key, different identifiers never do. Bytes, UTF-8
and exclusive or are defined on integers; a lone surrogate encodes as U+FFFD.

**JSON repair** (`JsonRepair`). The scanner stands in the same state after its output as after its input, at every
prefix; it is idempotent and changes exactly the texts with a raw line feed, carriage return or tab inside a
string. Reading its output by section 7 of RFC 8259 equals reading its input with those three characters standing
for themselves. A raw control character right after a backslash stays, and is an error in both readings.

**Recent contexts** (`RecentContexts`). With a clock that never goes back, at most 50 workspaces with 1 to 20 tidy
entries each; eviction takes the workspace visited longest ago and never the one just visited; a bucket is the last
20 distinct contexts of its history. If the clock does go back, a new workspace's visit is lost exactly when it is
older than the latest visit of every workspace kept.

## Where the code and its documentation disagree

- `upload-coordinator.ts` speaks of one settled outcome, not delivered on abort. A success callback that throws is
  reported a second time, as a failure (`UploadCoordinator.ThrowingCallbackReportsTwice`; exactly when:
  `UploadCoordinator.TwoOutcomesInRunIff`), and an aborted request whose answer arrives all the same reports its
  success (`UploadCoordinator.AbortedRequestReports`; exactly when:
  `UploadCoordinator.AbortedReportsIffResolved`).
- `upload-coordinator.ts` calls a restart under an id in flight safe; `abortAll` then misses the older request
  (`UploadCoordinator.ReusedIdEscapes`; exactly when: `UploadCoordinator.AlwaysReachedIff`).
- `hash.ts` says the separator keeps (key, identifier) pairs apart; a zero character in a key can defeat it
  (`FnvHash.ZeroInKeyCollides`; exactly when: `FnvHash.KeysCollideIff`).
- `timeline-thread.ts` promises chronological replies; a direct reply that comes after a nested one is listed
  before it (`ThreadOrder.LateReplyComesFirst`; exactly when replies are in order:
  `ThreadOrder.ChronologicalIff`). It also promises equal counts; two comments that reply to each other are lost
  (`ThreadCounts.CircleIsLost`), and a reply to an id that two comments share is shown twice
  (`ThreadCounts.SharedParentRepeats`; exactly when counts agree: `ThreadCounts.CountsAgreeIff`).
- `mention-serialize.ts` says it never claims a mention it cannot prove; picking a second person of the same name
  in front of the first swaps their links (`MentionPicks.SwappedPicks`; exactly when:
  `MentionPicks.InsertThenSerialize`).
- `store.ts` says text and attachments never disagree on which new-chat draft survived; a unified text meets the
  files of an old per-agent draft (`ChatStore.UnifiedTextMeetsOldFiles`; exactly when:
  `ChatStore.OriginsDifferIff`).
- `store.ts` says every draft key carries a workspace; without a current workspace the bare key is used, which
  logout does not clear (`SessionRuns.BareDraftSurvives`; exactly when a run leaves nothing:
  `SessionRuns.LogoutLeavesNothingIff`, and when every run does: `SessionRuns.AlwaysCleansIff`).

## Model

| member | source | states |
|---|---|---|
| TimelineThread.BuildTimelineRows | apps/mobile/lib/timeline-thread.ts:37-87 | whenever the search ends below every row, the rows are the top-level entries in order, each comment with all the search lists; with unique ids that is the breadth-first list of what hangs below it |
| TimelineThread.RowFor | apps/mobile/lib/timeline-thread.ts:82-86 | the row of one entry: a comment with what the search below it lists, an activity alone |
| TimelineThread.Partition | apps/mobile/lib/timeline-thread.ts:40-61 | a comment whose parent is loaded is filed under that parent, in timeline order; everything else, orphaned replies included, is top level |
| TimelineThread.CollectDescendants | apps/mobile/lib/timeline-thread.ts:63-80 | if the search ends, the loop lists what its turns list, in order |
| TimelineThread.ListKids | apps/mobile/lib/timeline-thread.ts:74-77 | the inner loop lists the replies to one entry and queues their ids |
| TimelineThread.ListedIsBreadthFirst | apps/mobile/lib/timeline-thread.ts:63-80 | with unique ids each descendant is listed once, after its parent, the replies of each listed entry in the order in which the entries are listed |
| TimelineThread.RepliesAreDescendants | apps/mobile/lib/timeline-thread.ts:19-22 | an entry is listed below a root if and only if it reaches that root by following parents |
| TimelineThread.ShallowFirst | apps/mobile/lib/timeline-thread.ts:63-80 | replies are listed in non-decreasing distance from the root |
| TimelineThread.SiblingsKeepInputOrder | apps/mobile/lib/timeline-thread.ts:64-67 | replies to one comment keep their order in the timeline |
| TimelineThread.RootedIffAcyclic | apps/mobile/lib/timeline-thread.ts:48-61 | every reply hangs below some row's entry if and only if there is no cycle of parents |
| TimelineThread.RowsStart | apps/mobile/lib/timeline-thread.ts:48-61 | a row starts with exactly the activities, the comments without a parent and those whose parent is no loaded comment, in timeline order |
| ThreadSearch.SearchEndsIff | apps/mobile/lib/timeline-thread.ts:69-78 | the search below an id ends if and only if no chain of replies below it comes twice by the same id |
| ThreadSearch.UniqueIdsEnd | apps/mobile/lib/timeline-thread.ts:69-78 | with unique comment ids the search below every row ends, cycles elsewhere or not |
| ThreadSearch.RepeatedIdNeverEnds | apps/mobile/lib/timeline-thread.ts:69-78 | with a reply that repeats its parent's id, the queue is the same again after any number of turns |
| ThreadSearch.SharedIdEnds | apps/mobile/lib/timeline-thread.ts:69-78 | two comments that merely share an id let it end |
| ThreadOrder.ChronologicalIff | apps/mobile/lib/timeline-thread.ts:19-22 | a row's replies are in chronological order if and only if below its entry an earlier reply is nearer, or as near and below the same or an earlier parent |
| ThreadOrder.LateReplyComesFirst | apps/mobile/lib/timeline-thread.ts:19-22 | a direct reply that comes after a nested one is listed before it, on a timeline without cycles |
| ThreadOrder.LateReplyExample | apps/mobile/lib/timeline-thread.ts:19-22 | there is such a timeline of four comments |
| ThreadCounts.ShownCount | apps/mobile/lib/timeline-thread.ts:63-86 | ids unique or not, a reply is shown once for each time a comment with its parent's id is shown, and everything else as often as it is in the timeline |
| ThreadCounts.CountsAgreeIff | apps/mobile/lib/timeline-thread.ts:24-26 | entries and replies of all rows together are a permutation of the timeline if and only if no comment is its own ancestor and every id named as a parent belongs to exactly one comment |
| ThreadCounts.CountsAgree | apps/mobile/lib/timeline-thread.ts:24-26 | with unique ids, if and only if no comment is its own ancestor |
| ThreadCounts.CircleIsLost | apps/mobile/lib/timeline-thread.ts:24-26 | two comments that reply to each other appear in no row |
| ThreadCounts.SharedParentRepeats | apps/mobile/lib/timeline-thread.ts:24-26 | with a reply to an id that two top-level comments share, every search ends and no comment is its own ancestor, and the reply is shown twice |
| TimelineCoalesce.CoalesceTimeline | apps/mobile/lib/timeline-coalesce.ts:29-58 | the rows are the last entries of the maximal runs, in order, carrying the run's count |
| TimelineCoalesce.RunsFlatten | apps/mobile/lib/timeline-coalesce.ts:33-56 | the runs put together are the timeline |
| TimelineCoalesce.RunsJoin | apps/mobile/lib/timeline-coalesce.ts:34-47 | inside a run each entry joins the one before it |
| TimelineCoalesce.RunsBreak | apps/mobile/lib/timeline-coalesce.ts:34-47 | between runs it does not |
| TimelineCoalesce.CountsAgree | apps/mobile/lib/timeline-coalesce.ts:48-51 | on a timeline without counts the rows' counts add up to the number of entries |
| TimelineCoalesce.AlonePassThrough | apps/mobile/lib/timeline-coalesce.ts:16-19 | comments and squad-leader evaluations come through unchanged and in order |
| TimelineCoalesce.NothingLeftToMerge | apps/mobile/lib/timeline-coalesce.ts:8-15 | on a timeline in order no two neighbouring rows could still be merged |
| TimelineCoalesce.SecondPassIsIdentity | apps/mobile/lib/timeline-coalesce.ts:29-58 | coalescing the rows again gives the rows |
| TimelineCoalesce.MergedIff | apps/mobile/lib/timeline-coalesce.ts:33-56 | an entry goes into the row before it exactly if both are activities of one action and actor, no squad-leader evaluation, and at most 120000 ms apart or about a task completed or failed; that row then shows it and counts one more |
| InboxDisplay.DeduplicateInboxItems | apps/mobile/lib/inbox-display.ts:72-108 | the loops compute the rows of the unarchived groups, sorted |
| InboxDisplay.GroupByKey | apps/mobile/lib/inbox-display.ts:74-80 | each group holds the items of its key in input order, and groups appear in order of their first item |
| InboxDisplay.MergeGroup | apps/mobile/lib/inbox-display.ts:83-102 | a sorted group yields its newest item, the first among equals, with its own comment or else that of the newest item that has one |
| InboxDisplay.OneRowPerKey | apps/mobile/lib/inbox-display.ts:63-71 | newest first, exactly one row per key among unarchived items, each row the one its group calls for |
| InboxDisplay.DedupIsIdempotent | apps/mobile/lib/inbox-display.ts:72-108 | deduplicating the result changes nothing |
| InboxDisplay.OrderDoesNotMatter | apps/mobile/lib/inbox-display.ts:72-108 | with distinct times the result is the same for every order of the input |
| InboxRows.NewestFirst | apps/mobile/lib/inbox-display.ts:104-107 | the rows run from the latest time to the earliest |
| InboxRows.OneRowPerIssue | apps/mobile/lib/inbox-display.ts:63-103 | for each issue, or own id where there is no issue, exactly one row if an unarchived item concerns it and none otherwise: its newest item, the first among equals, with its own comment anchor or else that of the newest commented one |
| InboxRows.NoIssueTwice | apps/mobile/lib/inbox-display.ts:56-61 | no two rows have the same issue |
| InboxRows.IssueIsShownIff | apps/mobile/lib/inbox-display.ts:74-80 | a row has the issue if and only if the newest item that concerns it has; without an issue-less item whose own id is the issue's, every issue with an unarchived item has one |
| PendingQueue.ComputeUniqueQueue | packages/core/chat/pending.ts:14-22 | the map loop keeps ids in order of first appearance and, per id, the last rich observation or else the first one |
| PendingQueue.UniqueFacts | packages/core/chat/pending.ts:14-22 | one row per id, exactly the ids that were seen |
| PendingQueue.OrderIsTotalIff | packages/core/chat/pending.ts:5-12 | the comparator is a total preorder on a queue if and only if no unparsable time straddles two rows whose times and ids disagree |
| PendingQueue.UnparsableOrderIsCircular | packages/core/chat/pending.ts:8-11 | three rows that the comparator ranks in a circle |
| PendingQueue.NormalizeSorts | packages/core/chat/pending.ts:24-26 | for a consistent order the queue is sorted by time, then id, and holds for each id the observation that is kept |
| PendingQueue.NormalizeIsASet | packages/core/chat/pending.ts:15-25 | the normalized queue depends only on which rows were observed, not on their order or repetition |
| PendingQueue.NormalizeAbsorbs | packages/core/chat/pending.ts:85 | normalizing before one more observation arrives changes nothing |
| PendingQueue.EnqueueAllNormalizes | packages/core/chat/pending.ts:76-86 | enqueueing one by one normalizes the queue and all observations at once |
| PendingQueue.EnqueueIsConfluent | packages/core/chat/pending.ts:16-19 | two orders of the same observations give the same entry: sorted, one row a task, rich where a rich row was seen |
| PendingQueue.ObservationsCommuteIff | packages/core/chat/pending.ts:14-22 | two observations of a new waiting task can be swapped if and only if they are the same or only one of them is rich |
| PendingQueue.StepKeepsWellFormed | packages/core/chat/pending.ts:37-155 | every event keeps queued ids distinct and the head out of the queue |
| PendingQueue.RunKeepsWellFormed | packages/core/chat/pending.ts:37-155 | so does every run from a missing or well-formed entry |
| PendingQueue.StepAccounts | packages/core/chat/pending.ts:37-155 | with a head, an event tracks the enqueued id, stops tracking exactly the ids the three dropping cases name, and leaves every other |
| PendingQueue.EnqueueAccounts | packages/core/chat/pending.ts:61-86 | with a head, an enqueue adds its id; only an enqueue that is not queued drops the rest |
| PendingQueue.PromoteAccounts | packages/core/chat/pending.ts:89-119 | a promotion drops the old head if and only if a queued task takes its place and its own status is no longer `queued` |
| PendingQueue.RemoveAccounts | packages/core/chat/pending.ts:121-141 | a removal drops the removed id and no other |
| PendingQueue.PrioritizeAccounts | packages/core/chat/pending.ts:143-155 | prioritizing tracks the same ids |
| PendingQueue.HeadlessAccounts | packages/core/chat/pending.ts:42-60 | what is tracked after each event on an entry without a head, where queue-only rows are rebuilt or discarded |
| PendingQueue.RemoveHeadShifts | packages/core/chat/pending.ts:133-140 | when the head goes the first waiting row takes its place and the others keep their order |
| PendingQueue.PrioritizedGoesNext | packages/core/chat/pending.ts:143-155 | prioritizing a waiting task and then removing the head makes it the head, the others in order |
| PendingQueue.PromoteSwapsHead | packages/core/chat/pending.ts:104-118 | a started task becomes the head, and an old head that was still waiting returns to the front of the queue |
| PendingQueue.HeadNeverDowngrades | packages/core/chat/pending.ts:61-75 | an answer about the head never puts a started task back to waiting and loses no preview |
| PendingQueue.HeadStartsInPlace | packages/core/chat/pending.ts:96-102 | a promotion of the head changes its status and nothing else |
| PendingQueue.HeadIsObserved | packages/core/chat/pending.ts:37-155 | a new head is the row just enqueued, the first waiting row after a removal, or the promoted row with the status of the event, keeping its own time if it has one |
| PendingQueue.SupportSurvives | packages/core/chat/pending.ts:46-48 | the flag for queue support survives every event that leaves anything tracked |
| PendingQueue.RowsAreObserved | packages/core/chat/pending.ts:37-155 | a queued row was queued before, has just been observed, or summarizes the old head |
| PendingEvents.IdleSendBecomesHead | packages/core/chat/pending.ts:42-60 | without a head, a task that is not queued becomes the head with every field it has, and the rows of other tasks wait behind it in order; a queued one waits alone and there is no head |
| PendingEvents.OtherTaskWaits | packages/core/chat/pending.ts:76-86 | behind another task's head, a task that is not queued replaces everything; a queued one leaves the head as it is and joins the queue in order, a sparse observation never replacing a row |
| PendingEvents.LateStartIsIgnored | packages/core/chat/pending.ts:103-106 | a start of an unknown task, or of any without a head, changes nothing |
| PendingEvents.StartedTaskShown | packages/core/chat/pending.ts:103-118 | every field of the entry and the whole queue after a queued task starts |
| PendingEvents.RemoveLeaves | packages/core/chat/pending.ts:121-141 | a removal cuts out the one row; of the head, the first waiting row follows with its fields; otherwise nothing is left |
| PendingEvents.PrioritizeLeaves | packages/core/chat/pending.ts:143-155 | the row moves to the front, the others keep their order and the head stays |
| TaskMessages.ExistingWins | packages/core/chat/queries.ts:224-227 | the merge holds exactly what was there and the incoming messages with an unknown number |
| TaskMessages.NothingNewIsIdentity | packages/core/chat/queries.ts:223-226 | a batch that brings no new number returns the list it was given |
| TaskMessages.StrictIff | packages/core/chat/queries.ts:219-228 | the result is strictly ordered if and only if the new part of the batch repeats no number |
| TaskMessages.RepeatedNumberStays | packages/core/chat/queries.ts:224-227 | a batch that repeats a number leaves both messages in the list |
| TaskMessages.FoldHoldsSeen | packages/core/chat/queries.ts:219-228 | folding well-formed batches gives a strictly ordered list of exactly the messages seen |
| TaskMessages.MergeIsConfluent | packages/core/chat/queries.ts:219-228 | the fold is the same for every order and repetition of batches that agree |
| Mentions.TokenAtCursor | apps/mobile/lib/mention-serialize.ts:47-78 | the scan finds the token at the cursor if there is one, and only then returns none |
| Mentions.SerializeMentions | apps/mobile/lib/mention-serialize.ts:122-175 | the result is the linked text if the runs name the markers in order and number, and otherwise the text without sentinels |
| Mentions.ReplaceRuns | apps/mobile/lib/mention-serialize.ts:131-170 | the cursor loop writes the pieces of the text and aborts, or ends short of the markers, exactly when the text is not linkable |
| Mentions.StripSentinels | apps/mobile/lib/mention-serialize.ts:122-130 | the fallback text is the text with every sentinel removed and nothing else |
| Spaces.SpacesAre | apps/mobile/lib/mention-serialize.ts:151 | the characters of the class `\s` of the host language |
| Mentions.PiecesKeepText | apps/mobile/lib/mention-serialize.ts:131-168 | turning each link back into `@name` gives the text without sentinels |
| Mentions.PiecesLinkInOrder | apps/mobile/lib/mention-serialize.ts:131-168 | the links are exactly the markers, in order |
| Mentions.NoTextIsLost | apps/mobile/lib/mention-serialize.ts:108-121 | every result is the plain text or the linked text, and both read as the same original |
| Mentions.InsertLinks | apps/mobile/lib/mention-serialize.ts:85-106 | with no sentinel from the token on: the serialized prefix, the new link, a space and the untouched suffix |
| Mentions.InsertLeavesToken | apps/mobile/lib/mention-serialize.ts:96-105 | after an insertion there is no token at the new cursor and the suffix is untouched |
| Mentions.InsertIsSpelled | apps/mobile/lib/mention-serialize.ts:85-106 | U+2063, `@`, the name and a space stand in place of the token, and the cursor behind them |
| Mentions.SpacedNameFallsBack | apps/mobile/lib/mention-serialize.ts:148-168 | one marker whose name holds a space, whatever the text and the other markers, and the text is sent without links |
| Mentions.EveryPickLinks | apps/mobile/lib/mention-serialize.ts:85-175 | any number of mentions picked one after another while typing are all sent as links, in order |
| Mentions.LinkNamesMarker | apps/mobile/lib/mention-serialize.ts:158-165 | without closing brackets in names, two links are the same if and only if their markers are |
| Mentions.LinkIsSpelled | apps/mobile/lib/mention-serialize.ts:161-165 | the link of each kind, letter by letter: the path names the kind, and only issues go without the `@` |
| MentionPicks.LinkReadsBack | apps/mobile/lib/mention-serialize.ts:158-165 | links of one name, each with any text behind it, are equal only if the markers and the texts are, for ids without a closing parenthesis |
| MentionPicks.SentTellsMarkers | apps/mobile/lib/mention-serialize.ts:108-121 | two lists of markers that both fit a text send different texts, and neither sends the fallback |
| MentionPicks.InsertThenSerialize | apps/mobile/lib/mention-serialize.ts:85-106 | after a pick every mention is sent with its own marker if and only if its name holds no space and all markers behind the cursor are that very marker, and the text falls back if and only if its name holds a space or one of them has another name |
| MentionPicks.SwappedPicks | apps/mobile/lib/mention-serialize.ts:96-105 | picking a second person of the same name in front of the first sends each mention as the other person |
| MentionPicks.SwappedExample | apps/mobile/lib/mention-serialize.ts:25-32 | there are two such people |
| DraftUploads.NormalizeStoredUploads | packages/core/drafts/draft-upload.ts:120-146 | the loop keeps what loads of each stored element, in order |
| DraftUploads.UploadedAttachments | packages/core/drafts/draft-upload.ts:59-65 | the completed rows, in order |
| DraftUploads.WrapForgetsSignedUrl | packages/core/drafts/draft-upload.ts:73-87 | two attachment rows make the same placeholder if and only if they differ at most in the signed URL, which is never kept; wrapping again changes nothing |
| DraftUploads.LoadStored | packages/core/drafts/draft-upload.ts:120-146 | storing and loading a list drops the uploads in flight and nothing else |
| DraftUploads.NormalizedIsCanonical | packages/core/drafts/draft-upload.ts:117-119 | a loaded list has no upload in flight, and storing and loading it again changes nothing |
| DraftActions.BareRowIsLoaded | packages/core/drafts/draft-upload.ts:120-146 | a bare row of an earlier build loads as an uploaded entry under its id, or its address if it has none |
| DraftActions.LoadedWasStored | packages/core/drafts/draft-upload.ts:120-146 | besides bare rows, exactly the stored entries that were not uploading are loaded |
| DraftUploads.RowsSurviveReload | packages/core/drafts/draft-upload.ts:58-65 | what a submit binds is the same before and after a reload |
| ChatStore.KeyTextInjective | packages/core/chat/store.ts:367-370 | two slots never share a storage key, whatever the workspaces are called |
| ChatStore.KeysByName | packages/core/chat/store.ts:16-45 | the five storage keys, letter by letter, with the workspace behind a colon |
| ChatStore.LoadedMirrors | packages/core/chat/store.ts:254-268 | a loaded workspace's memory is mirrored by its storage, legacy slots included |
| ChatStore.StepMirrors | packages/core/chat/store.ts:432-602 | every action leaves memory and storage in agreement, less empty texts and uploads in flight |
| ChatStore.RunMirrors | packages/core/chat/store.ts:432-682 | so does every run of actions, reloads and switches from any storage |
| ChatStore.MigratedFolds | packages/core/chat/store.ts:226-246 | no legacy slot is left, the unified slot keeps what it had or adopts the selected agent's, all else stays, and folding again changes nothing |
| ChatStore.LegacySlotsByName | packages/core/chat/store.ts:225-240 | every `__new__:` slot goes, and `__new__` takes the text of `__new__:` and the selected agent's id unless it has its own |
| ChatStore.LoadedHasNoLegacy | packages/core/chat/store.ts:254-268 | a loaded workspace has no legacy slot of text or uploads |
| ChatStore.OriginsDifferIff | packages/core/chat/store.ts:248-268 | the text and the uploads in the new-chat slot come from different drafts if and only if exactly one of them had a unified slot while the other had the selected agent's; never from two agents |
| ChatStore.UnifiedTextMeetsOldFiles | packages/core/chat/store.ts:248-253 | a workspace whose unified text is loaded together with the files of an old per-agent draft |
| ChatStore.ReloadRebuilds | packages/core/chat/store.ts:383-400 | a reload after any run rebuilds its texts, settled uploads, ledger and queues, and a second one writes nothing |
| ChatStore.LoadIsIdempotent | packages/core/chat/store.ts:254-268 | loading twice writes nothing the second time and gives the same drafts |
| ChatStore.OthersUntouched | packages/core/chat/store.ts:367-370 | an action or a load writes nothing that belongs to another workspace |
| ChatStore.RunLeavesOthers | packages/core/chat/store.ts:432-602 | neither does a run inside one workspace |
| DraftSlots.RunHasNoEmptyLists | packages/core/chat/store.ts:223 | after every run a slot of uploads or restores is there if and only if it has content |
| DraftSlots.AttachmentLands | packages/core/chat/store.ts:521-536 | a row is added or refreshed without its signed URL, other entries stay, and adding it again changes nothing |
| DraftSlots.SettleLands | packages/core/chat/store.ts:545-557 | a settled upload takes its entry's place in memory and for the next load, and the others stay |
| DraftSlots.AppendKeepsText | packages/core/chat/store.ts:503-512 | the text so far is kept up to trailing space, and the new text follows behind a blank line |
| DraftSlots.RestoresComeBack | packages/core/chat/store.ts:159-194 | queues written and read again: the same sessions less empty ones, each with its restores in order, with id, content, session and attachments |
| ChatStoreObject.Prune | packages/core/chat/store.ts:89-95 | the loop keeps exactly the non-empty entries |
| ChatStoreObject.ReadDraftAttachments | packages/core/chat/store.ts:112-132 | each stored list is normalized and dropped if nothing is left |
| ChatStoreObject.MigrateLegacyNewChatSlots | packages/core/chat/store.ts:226-246 | the loop folds the legacy slots, and reports a change if and only if there was one |
| ChatStoreObject.Store.constructor | packages/core/chat/store.ts:383-400 | memory starts as what the current workspace's storage loads |
| ChatStoreObject.Store.Rehydrate | packages/core/chat/store.ts:650-682 | memory becomes what the current workspace's storage loads, folded slots written back |
| ChatStoreObject.Store.SetCurrentWorkspace | packages/core/chat/store.ts:650-682 | a switch followed by its rehydration is the load of the new workspace |
| ChatStoreObject.Store.WriteDraftsBlob | packages/core/chat/store.ts:89-100 | non-empty texts are written, and an empty blob is removed |
| ChatStoreObject.Store.WriteAttachmentsBlob | packages/core/chat/store.ts:196-210 | non-empty lists are written, and an empty blob is removed |
| ChatStoreObject.Store.WriteAppliedBlob | packages/core/chat/store.ts:146-149 | the ledger is written, and an empty one removed |
| ChatStoreObject.Store.WriteRestoresBlob | packages/core/chat/store.ts:183-194 | non-empty queues are written, and an empty blob is removed |
| ChatStoreObject.Store.SetSelectedAgentId | packages/core/chat/store.ts:432-436 | the whole new memory and storage after the action |
| ChatStoreObject.Store.SetInputDraft | packages/core/chat/store.ts:496-502 | the whole new memory and storage after the action |
| ChatStoreObject.Store.AppendToInputDraft | packages/core/chat/store.ts:503-512 | the text goes behind a blank line, or alone if there is none yet |
| ChatStoreObject.Store.SetInputDraftAttachments | packages/core/chat/store.ts:513-520 | the slot is replaced, or removed if the list is empty |
| ChatStoreObject.Store.AddInputDraftAttachment | packages/core/chat/store.ts:521-536 | a row without id is ignored, a known one replaced, any other appended |
| ChatStoreObject.Store.AddInputDraftUpload | packages/core/chat/store.ts:537-544 | a known id is ignored, any other appended |
| ChatStoreObject.Store.SettleInputDraftUpload | packages/core/chat/store.ts:545-557 | an unknown id changes nothing; a known one becomes the uploaded row under its own id |
| ChatStoreObject.Store.FailInputDraftUpload | packages/core/chat/store.ts:558-575 | an unknown id changes nothing; a known one is marked failed |
| ChatStoreObject.Store.RemoveInputDraftUpload | packages/core/chat/store.ts:576-586 | an unknown id changes nothing; a known one is removed, and the slot with it when empty |
| ChatStoreObject.Store.ClearInputDraft | packages/core/chat/store.ts:587-602 | text and uploads of the slot go together |
| ChatStoreObject.Store.MarkDraftRestoreApplied | packages/core/chat/store.ts:450-456 | the ledger gains the id once |
| ChatStoreObject.Store.ForgetDraftRestoreApplied | packages/core/chat/store.ts:458-464 | the ledger loses the id |
| ChatStoreObject.Store.EnqueuePendingSendRestore | packages/core/chat/store.ts:470-482 | a restore goes to the end of its session's queue unless it waits there already |
| ChatStoreObject.Store.DequeuePendingSendRestore | packages/core/chat/store.ts:484-495 | a restore leaves its session's queue, and the queue goes when empty |
| DraftActions.ActionFrame | packages/core/chat/store.ts:432-602 | an action changes one slot of its own kind and leaves every other slot, the other kinds, the agent and the workspace as they were |
| DraftActions.TextIsKept | packages/core/chat/store.ts:496-502 | a text is shown as set, and after a reload unless it is empty |
| DraftActions.ClearLeavesNothing | packages/core/chat/store.ts:587-602 | after a clear the slot has neither text nor uploads, and every other slot holds what it held |
| DraftActions.ClearedStaysCleared | packages/core/chat/store.ts:587-602 | nor has it after a reload, unless it is the new-chat slot and the selected agent's legacy slot still holds something |
| DraftActions.SentDraftStaysCleared | packages/core/chat/store.ts:587-602 | so after every run that writes no legacy slot, what is cleared is gone for good |
| DraftActions.ReloadedText | packages/core/chat/store.ts:384-402 | what a reload shows under any slot of texts |
| DraftActions.ReloadedUploads | packages/core/chat/store.ts:384-402 | what a reload shows under any slot of uploads: those that are not in flight |
| DraftActions.UploadsAreSet | packages/core/chat/store.ts:513-520 | the list replaces its slot, which is there exactly if the list is not empty |
| DraftActions.UploadIsAdded | packages/core/chat/store.ts:537-544 | a placeholder goes to the end unless its id is there |
| DraftActions.SettledShowsRow | packages/core/chat/store.ts:545-557 | a settled entry shows the row's name, size, type and columns, without the signed URL, under the id it was picked with |
| DraftActions.AttachmentShowsRow | packages/core/chat/store.ts:521-536 | an attached row replaces every entry for it in place, or goes to the end |
| DraftActions.FailureIsShown | packages/core/chat/store.ts:558-575 | a failed entry keeps its id, name, size and type, and carries the error |
| DraftActions.UnknownIdIsIgnored | packages/core/chat/store.ts:545-586 | settling, failing and removing an unknown id change nothing |
| DraftActions.UploadIsRemoved | packages/core/chat/store.ts:576-586 | the entries under the id go, the others stay, as often as they were there and in order |
| DraftActions.AgentIsStored | packages/core/chat/store.ts:432-436 | the selected agent is in memory and in the workspace's storage |
| DraftActions.AgentIsKept | packages/core/chat/store.ts:432-436 | it is selected again after a reload, and after leaving the workspace and coming back |
| DraftActions.LoadBringsBack | packages/core/chat/store.ts:384-402 | a load brings back the agent, the ledger, the queues and every slot but the legacy ones and the new-chat slot |
| DraftActions.RunStoresNothingEmpty | packages/core/chat/store.ts:89-100 | after every run from empty storage no blob and no slot in it is empty |
| RestoreHistory.StepQueue | packages/core/chat/store.ts:470-495 | what one action does to the stored queue of any session in any workspace, seen through a reload |
| RestoreHistory.WaitingExtends | packages/core/chat/store.ts:465-469 | one more action changes who waits exactly as it changes a queue |
| RestoreHistory.QueuesHoldWhatWaits | packages/core/chat/store.ts:465-495 | after every run each queue is the list of restores enqueued for its session and not dequeued since, oldest first |
| RestoreHistory.StepLedger | packages/core/chat/store.ts:443-464 | what one action does to the stored ledger of any workspace |
| RestoreHistory.LedgerHoldsMarked | packages/core/chat/store.ts:23-30 | after every run each workspace's ledger holds, once, exactly the restores marked as applied there and not forgotten since |
| UploadCoordinator.Coordinator.StartUpload | packages/core/drafts/upload-coordinator.ts:62-71 | the id maps to the new request, whatever it mapped to |
| UploadCoordinator.Coordinator.OnResolved | packages/core/drafts/upload-coordinator.ts:74-104 | the success is reported, a callback that throws is handled as an error, and the entry goes if it is still this request's |
| UploadCoordinator.Coordinator.OnRejected | packages/core/drafts/upload-coordinator.ts:84-104 | the failure is reported unless the request was aborted, and the entry goes if it is still this request's |
| UploadCoordinator.Coordinator.OnError | packages/core/drafts/upload-coordinator.ts:84-96 | a failure is reported unless the request was aborted or the error is an abort |
| UploadCoordinator.Coordinator.Finally | packages/core/drafts/upload-coordinator.ts:97-103 | the entry goes if and only if it is still this request's |
| UploadCoordinator.Coordinator.AbortUpload | packages/core/drafts/upload-coordinator.ts:108-113 | the tracked request, if any, is cancelled and forgotten |
| UploadCoordinator.Coordinator.AbortAllUploads | packages/core/drafts/upload-coordinator.ts:119-126 | every tracked request is cancelled and the map emptied |
| UploadCoordinator.StepTracked | packages/core/drafts/upload-coordinator.ts:54-126 | each event keeps: an id maps to exactly the latest request for it, and only while that is neither finished nor aborted |
| UploadCoordinator.RunTracked | packages/core/drafts/upload-coordinator.ts:54-126 | so after every possible run |
| UploadCoordinator.OneOutcome | packages/core/drafts/upload-coordinator.ts:45-51 | over every run a request reports at most one outcome, none while in flight, unless its success callback threw an error not named `AbortError` |
| UploadCoordinator.TwoOutcomesIff | packages/core/drafts/upload-coordinator.ts:73-96 | a request reports twice if and only if its success callback throws an error not named `AbortError` while it is not aborted |
| UploadCoordinator.TwoOutcomesInRunIff | packages/core/drafts/upload-coordinator.ts:73-96 | in any run a request reports twice if and only if its success callback threw such an error at a moment at which it was not aborted |
| UploadCoordinator.ThrowingCallbackReportsTwice | packages/core/drafts/upload-coordinator.ts:73-96 | a run of two events with two outcomes |
| UploadCoordinator.AbortedReportsIffResolved | packages/core/drafts/upload-coordinator.ts:83-91 | an aborted request reports nothing further except a success whose answer arrives all the same |
| UploadCoordinator.AbortedRequestReports | packages/core/drafts/upload-coordinator.ts:83-91 | a run in which an aborted request reports its success |
| UploadCoordinator.AbortAllReachesIff | packages/core/drafts/upload-coordinator.ts:115-126 | aborting everything leaves no running unaborted request if and only if each such request is the latest for its id |
| UploadCoordinator.StepReached | packages/core/drafts/upload-coordinator.ts:56-71 | an event keeps that unless it starts an id while a request for it is running and not aborted |
| UploadCoordinator.AlwaysReachedIff | packages/core/drafts/upload-coordinator.ts:56-126 | it holds at every moment of a run if and only if no id is so started |
| UploadCoordinator.AbortAllReachesAll | packages/core/drafts/upload-coordinator.ts:115-126 | with fresh ids no request is left that is neither finished nor aborted |
| UploadCoordinator.ReusedIdEscapes | packages/core/drafts/upload-coordinator.ts:56-61 | with a reused id the older request is neither aborted nor reachable |
| DraftCleanup.Registry.RegisterDraftCleanup | packages/core/drafts/cleanup-registry.ts:43-45 | a registration replaces the earlier one for its key and no other |
| DraftCleanup.Registry.ClearRegisteredWorkspaceDrafts | packages/core/drafts/cleanup-registry.ts:53-64 | exactly the registered keys of the workspace, and the unscoped ones, are removed, and every other blob stays |
| DraftCleanup.TargetsByName | packages/core/drafts/cleanup-registry.ts:53-64 | what is removed: the registered key with the slug behind a colon, or the key alone if it is kept for all workspaces |
| DraftCleanup.ChatTargets | packages/core/chat/store.ts:622-648 | with the chat store's four keys registered among those of other stores, clearing a workspace hits exactly its four chat blobs, and no chat key used without a workspace |
| DraftCleanup.RegisteredStores | packages/core/drafts/register-all-drafts.ts:17-22 | the registry of the chat store's keys and those of the six stores imported before cleanup is such a registry |
| UploadSession.ReactSound | packages/core/drafts/upload-coordinator.ts:45-51 | every event keeps: what is stored under the id of a request in flight is a placeholder that no load would bring back |
| UploadSession.RunSound | packages/core/drafts/upload-coordinator.ts:45-51 | so does every run with fresh ids |
| UploadSession.GoneStaysGone | packages/core/chat/store.ts:545-575 | no run brings back an entry under the id of an earlier request once it is gone |
| UploadSession.LateOutcomeChangesNothing | packages/core/drafts/cleanup-registry.ts:70-78 | after a logout and any further run, an outcome of a request that was in flight then changes neither memory nor storage |
| UploadOutcomes.OutcomeLands | packages/core/chat/store.ts:545-557 | while the draft tracks the request its result lands in the slot, in memory and for the next load, and the other entries stay |
| UploadOutcomes.PickShowsPlaceholder | packages/views/editor/use-coordinated-uploads.ts:385-420 | a picked file is shown at the end of its slot as uploading, and its request runs under the same id |
| UploadOutcomes.FailureIsMarked | packages/core/chat/store.ts:558-575 | a failure that is kept marks the placeholder with its error |
| UploadOutcomes.FailureLeavesNothing | packages/views/editor/use-coordinated-uploads.ts:447-468 | a failure removes the placeholder, except that an aborted request changes nothing |
| UploadOutcomes.DismissCancels | packages/views/editor/use-coordinated-uploads.ts:487-502 | removing a placeholder that is still uploading takes the entry away and cancels its request |
| UploadSession.LogoutCancelsAll | packages/views/auth/use-logout.ts:31-50 | a logout cancels every request in flight and empties memory and the listed workspaces |
| UploadOutcomes.LogoutClearsRegistered | packages/core/platform/storage-cleanup.ts:32-43 | what a logout leaves is what is left when every registered key and the remembered agent of each workspace are removed |
| SessionRuns.RequestsRun | packages/core/drafts/upload-coordinator.ts:54-126 | the requests of any session are a possible run of the coordinator, with the same state |
| SessionRuns.SessionReportsOnce | packages/core/drafts/upload-coordinator.ts:45-51 | so, with callbacks that do not throw, a request of a session reports at most one outcome, and none while in flight |
| SessionRuns.BlobsWereVisited | packages/core/chat/store.ts:367-370 | after any session from empty storage every blob belongs to a workspace that was current at some moment |
| SessionRuns.LogoutLeavesNothingIff | packages/views/auth/use-logout.ts:42-50 | a logout after a session leaves nothing of the chat store if and only if every visited workspace is listed and not the missing one, or holds nothing |
| SessionRuns.AlwaysCleansIff | packages/views/auth/use-logout.ts:42-50 | it leaves nothing after every session in given workspaces if and only if all of them are listed and none is the missing one |
| SessionRuns.OneDraftStays | packages/core/chat/store.ts:367-370 | one draft typed in a workspace that the logout does not reach stays in storage |
| SessionRuns.BareDraftSurvives | packages/core/chat/store.ts:367-370 | one typed without a current workspace is there again after any logout and a reload |
| Analytics.Analytics.constructor | packages/core/analytics/index.ts:108-111 | nothing is initialized, buffered or sent |
| Analytics.Analytics.InitAnalyticsCall | packages/core/analytics/index.ts:108-202 | without a key nothing happens, a second call changes nothing, and the first sets up the library, flushes the identify, then the buffer |
| Analytics.Analytics.DrainPendingOps | packages/core/analytics/index.ts:191-200 | the loop hands over the buffered operations oldest first and leaves the buffer empty |
| Analytics.Analytics.IdentifyCall | packages/core/analytics/index.ts:213-220 | before initialization the latest identify replaces the pending one, afterwards it is sent |
| Analytics.Analytics.ResetAnalyticsCall | packages/core/analytics/index.ts:226-238 | both buffers are emptied, and a running library is reset and gets its properties again |
| Analytics.Analytics.EmitCall | packages/core/analytics/index.ts:274-338 | an operation is buffered before initialization and sent afterwards |
| Analytics.StampFillsIn | packages/core/analytics/index.ts:349-366 | what the caller set stays, exactly the missing properties are filled in, a user only if one is known |
| Analytics.DeliveryCarries | packages/core/analytics/index.ts:286-296 | a sent operation has its own name, error and `sendInstantly`, every property the caller passed, and beside these only the stamps |
| Analytics.SetupRegisters | packages/core/analytics/index.ts:171-178 | the super-properties registered at the start, one by one |
| Analytics.Buffered | packages/core/analytics/index.ts:213-238 | before initialization nothing is sent, and the buffers hold the latest identify and the operations since the last reset |
| Analytics.FlushIsReplay | packages/core/analytics/index.ts:181-200 | initialization sends what direct calls of the latest identify and then the buffered operations would send |
| Analytics.BufferRefinesDirect | packages/core/analytics/index.ts:108-347 | over every run the library's log is its set-up and then the log of direct calls, with nothing buffered before a reset |
| Analytics.ExactlyOnceInOrder | packages/core/analytics/index.ts:187-200 | every operation since the last reset before initialization, and every later one, is delivered once, in order, with all it carries: the buffered ones for the user identified at the start, the later ones for the user of their moment |
| Analytics.NoStartSendsNothing | packages/core/analytics/index.ts:109-110 | without a usable configuration nothing is ever sent |
| WsClient.BaseDoubles | packages/core/api/ws-client.ts:164-167 | the base doubles from one second and, from the sixth attempt on, is thirty |
| WsClient.DelayBounds | packages/core/api/ws-client.ts:164-173 | for every attempt and jitter the delay is within 20 % of its base and at most thirty seconds |
| WsClient.EveryDelayComesOut | packages/core/api/ws-client.ts:168-173 | every whole delay within 20 % of the base, up to thirty seconds, comes out for some jitter |
| WsClient.DelaysAreExactly | packages/core/api/ws-client.ts:164-173 | a whole number is a possible delay of an attempt if and only if it is within 20 % of its base and at most thirty seconds |
| WsClient.WSClient.constructor | packages/core/api/ws-client.ts:54-66 | a new client has neither socket nor timer |
| WsClient.WSClient.ConnectCall | packages/core/api/ws-client.ts:73-156 | a new socket becomes the client's own; an earlier one is not closed |
| WsClient.WSClient.OnOpen | packages/core/api/ws-client.ts:91-100 | with a token to send, authentication waits for the acknowledgement |
| WsClient.WSClient.OnAuthAck | packages/core/api/ws-client.ts:132-135 | the acknowledgement authenticates |
| WsClient.WSClient.OnAuthenticated | packages/core/api/ws-client.ts:182-196 | the attempts start over, and callbacks run on a recovery |
| WsClient.WSClient.OnClose | packages/core/api/ws-client.ts:148-150 | a lost socket arms one timer with the delay of this attempt |
| WsClient.WSClient.ScheduleReconnect | packages/core/api/ws-client.ts:163-180 | the delay is computed from the attempt before it is counted |
| WsClient.WSClient.OnTimer | packages/core/api/ws-client.ts:179 | a timer that fires connects |
| WsClient.WSClient.DisconnectCall | packages/core/api/ws-client.ts:198-215 | timer and socket are let go, and memory of earlier connections and all callbacks are cleared |
| WsClient.StepExclusive | packages/core/api/ws-client.ts:73-215 | every event keeps the exclusion below |
| WsClient.RunExclusive | packages/core/api/ws-client.ts:73-215 | between connect and disconnect exactly one of a live socket and an armed timer exists, and otherwise neither |
| WsClient.ConnectOnlyWhenIdle | packages/core/api/ws-client.ts:89 | that survives a further connect if and only if the client was idle |
| WsClient.SecondConnectLeaks | packages/core/api/ws-client.ts:89-150 | two connects in a row leave a socket no disconnect reaches, whose close arms a timer |
| WsClient.RemembersRecovery | packages/core/api/ws-client.ts:184-195 | what the client remembers is whether an authentication or a close happened since the last disconnect |
| WsClient.NotifiesOnRecovery | packages/core/api/ws-client.ts:182-196 | on an authentication the registered callbacks run, once, if and only if it recovers a connection |
| WsClient.NotifiesOnlyThen | packages/core/api/ws-client.ts:182-196 | no other event runs callbacks |
| WsClient.CallbacksAreRegistered | packages/core/api/ws-client.ts:234-239 | the callbacks that run are those registered and not taken back since, nor dropped by a disconnect |
| WsClient.AttemptCountsLosses | packages/core/api/ws-client.ts:163-185 | over every run the attempt counter is the number of losses since the last authentication or disconnect |
| WsClient.BackoffStartsOver | packages/core/api/ws-client.ts:163-180 | a loss after n others in a row waits on 1, 2, 4, 8, 16 and then 30 s, with 20 % jitter, at most 30 s, and rounded; so the first after an authentication waits on one second |
| WsClient.WaitsOnlyThen | packages/core/api/ws-client.ts:145-150 | no other event makes the client wait |
| ExceptionFuse.Fuse.ShouldDropException | packages/core/analytics/exception-dedupe.ts:40-78 | the decision and the whole stored map afterwards, for every combination of failing storage operations |
| ExceptionFuse.RunBounded | packages/core/analytics/exception-dedupe.ts:56-67 | at most fifty fingerprints are ever stored, each with a count of at most three |
| ExceptionFuse.NeverOverDrops | packages/core/analytics/exception-dedupe.ts:37-38 | however storage fails, a dropped event has three earlier kept ones with its fingerprint |
| ExceptionFuse.FailureCountsNothing | packages/core/analytics/exception-dedupe.ts:40-78 | an event for which a storage operation fails leaves the counts alone |
| ExceptionFuse.DropsIffCounted | packages/core/analytics/exception-dedupe.ts:53-57 | an event is dropped if and only if the counts can be read and show three of its fingerprint |
| ExceptionFuse.HealthyIsExact | packages/core/analytics/exception-dedupe.ts:53-67 | without failures storage holds exactly the first fifty fingerprints with their occurrences up to three |
| ExceptionFuse.DropsExactly | packages/core/analytics/exception-dedupe.ts:53-74 | without failures the dropped events are exactly those after the third of each of the first fifty fingerprints |
| FnvHash.RoundAgrees | packages/core/feature-flags/hash.ts:46-49 | one signed round appends one byte to what the unsigned reference has hashed |
| FnvHash.HashBytes | packages/core/feature-flags/hash.ts:45-50 | the inner loop appends the bytes of one part |
| FnvHash.Fnv1a | packages/core/feature-flags/hash.ts:29-54 | the signed nested loops give unsigned FNV-1a of the encoded parts with a zero byte between them |
| FnvHash.BucketFor | packages/core/feature-flags/hash.ts:63-65 | the bucket is the unsigned hash of the framed pair modulo 100, so from 0 to 99 |
| FnvHash.InPercent | packages/core/feature-flags/hash.ts:72-76 | someone is in if and only if the bucket is below the percentage; raising it removes no one, and its ends take no one and everyone |
| FnvHash.FrameInjective | packages/core/feature-flags/hash.ts:34-38 | for keys without a zero character equal frames encode the same key and the same identifier |
| FnvHash.ZeroInKeyCollides | packages/core/feature-flags/hash.ts:34-38 | a key with a zero character, wherever it stands, shares its frame with another pair |
| FnvHash.KeysCollideIff | packages/core/feature-flags/hash.ts:34-38 | two different keys without lone surrogates share a frame for some identifiers if and only if one of them, followed by a zero character, begins the other |
| FnvHash.IdentifiersApart | packages/core/feature-flags/hash.ts:34-38 | for one key, zeros or not, different identifiers have different frames |
| FnvHash.Utf8Injective | packages/core/feature-flags/hash.ts:11-16 | texts with the same bytes have the same scalar values |
| FnvHash.ScalarsInjective | packages/core/feature-flags/hash.ts:11-16 | texts without lone surrogates that have the same scalar values are the same |
| FnvHash.LoneUnits | packages/core/feature-flags/hash.ts:11-16 | a lone surrogate reads as U+FFFD, any other unit as itself |
| FnvHash.PairsAreRead | packages/core/feature-flags/hash.ts:11-16 | a surrogate pair reads as section 2.1 of RFC 2781 writes it |
| FnvHash.XorByBits | packages/core/feature-flags/hash.ts:46 | the exclusive or, bit by bit |
| FnvHash.PublishedHashes | packages/core/feature-flags/hash.ts:29-54 | the hashes of nothing and of "a" are those published with FNV-1a |
| JsonRepair.EscapeJsonStringControlCharacters | packages/core/agents/builder-protocol.ts:55-93 | the three-state loop computes the repair of the whole text |
| JsonRepair.RepairedByCharacter | packages/core/agents/builder-protocol.ts:80-88 | inside a string a line feed, carriage return and tab become `\\n`, `\\r` and `\\t`, and every other character stays |
| JsonRepair.RepairKeepsState | packages/core/agents/builder-protocol.ts:55-93 | the scanner is where it was, after its output as after its input |
| JsonRepair.PrefixesAgree | packages/core/agents/builder-protocol.ts:55-93 | each prefix is repaired to a prefix of the output, with the scanner in the same state |
| JsonRepair.RepairIsIdempotent | packages/core/agents/builder-protocol.ts:55-93 | repairing twice is repairing once |
| JsonRepair.IdentityIffClean | packages/core/agents/builder-protocol.ts:80-88 | a text is unchanged if and only if no raw line feed, carriage return or tab stands inside a string, escapes aside |
| JsonRepair.EscapeIsKept | packages/core/agents/builder-protocol.ts:65-74 | an escape, four-digit ones included, reads the same after the repair |
| JsonRepair.RepairedReadsLeniently | packages/core/agents/builder-protocol.ts:40-45 | reading the repaired text by section 7 of RFC 8259 is reading the text with raw line feeds, returns and tabs standing for themselves |
| JsonRepair.AcceptedIsUntouched | packages/core/agents/builder-protocol.ts:40-45 | a text whose strings the standard accepts is not changed |
| RecentContexts.Store.constructor | packages/core/chat/recent-context-store.ts:39 | there are no workspaces |
| RecentContexts.Store.RecordVisit | packages/core/chat/recent-context-store.ts:40-74 | the whole new record: the entry in front of its bucket, the bucket cut, a workspace evicted if there are too many |
| RecentContexts.Store.ForgetContext | packages/core/chat/recent-context-store.ts:75-89 | the whole new record, with no empty bucket left behind |
| RecentContexts.Store.PruneWorkspaces | packages/core/chat/recent-context-store.ts:90-100 | the loop keeps exactly the allowed workspaces, in order, and the very record if nothing goes |
| RecentContexts.KeyInjective | packages/core/chat/recent-context-store.ts:32-34 | two entries share a key if and only if they have the same type and id |
| RecentContexts.VisitKeepsGood | packages/core/chat/recent-context-store.ts:40-74 | a visit not earlier than those before keeps every bound and order |
| RecentContexts.RunStaysGood | packages/core/chat/recent-context-store.ts:40-100 | over every run with a clock that never goes back: at most 50 workspaces, each with 1 to 20 distinct entries, latest first |
| RecentContexts.EntriesInOrder | packages/core/chat/recent-context-store.ts:40-100 | in any such run two entries of a workspace are different contexts, the one visited later in front |
| RecentContexts.ForgetsOnly | packages/core/chat/recent-context-store.ts:75-89 | forgetting takes one entry away and no other, anywhere, and leaves no empty bucket |
| RecentContexts.EvictsOldest | packages/core/chat/recent-context-store.ts:62-71 | an overflow drops the workspace visited longest ago, the first among equals, never the one just visited, and nothing else |
| RecentContexts.NoNeedlessEviction | packages/core/chat/recent-context-store.ts:62-63 | with room left, or for a workspace already there, nothing is dropped |
| RecentContexts.VisitLostIff | packages/core/chat/recent-context-store.ts:64-71 | whatever the clock, a new workspace's visit to a full record is lost if and only if it is earlier than every workspace's latest |
| RecentContexts.OthersUntouched | packages/core/chat/recent-context-store.ts:40-100 | a step leaves another workspace's bucket as it was or drops it whole |
| RecentContexts.VisitedRemembers | packages/core/chat/recent-context-store.ts:42-55 | one more visit to a cut history is the cut of the longer history |
| RecentContexts.RemembersLastVisits | packages/core/chat/recent-context-store.ts:40-74 | without forgetting, a bucket is the first 20 distinct contexts of its visits read backwards since it was created |

## Left out

- TimelineThread.BuildTimelineRows: asks that the search ends below every row, because the source does not return otherwise; `ThreadSearch.SearchEndsIff` says when that is.
- TimelineCoalesce.NothingLeftToMerge: for timelines in order only, as the source states its rule; times are integers, and dates that do not parse are not modelled.
- InboxDisplay.OrderDoesNotMatter: for distinct times; with equal ones the first in the input wins, so order does matter. Times are integers; dates that do not parse, for which the source's comparator yields NaN, are not modelled.
- PendingQueue.EnqueueIsConfluent: for a collation that tells different ids apart, a consistent order and agreeing observations per task; with an inconsistent comparator the host's sort decides, and only the accounting results apply to any sort.
- MentionPicks.InsertThenSerialize: for ids without a closing parenthesis, as UUIDs are. Text is indexed by code points, where the source counts UTF-16 units.
- ChatStore.ReloadRebuilds: for actions that do not write to a legacy `__new__:<agent>` slot, since only earlier builds wrote those.
- ChatStore.LoadIsIdempotent: memory is the very same only if no stored text was empty, which holds of every blob the store wrote.
- UploadSession.LateOutcomeChangesNothing: client ids are minted fresh and no other action brings in an entry under a request's id; a page reload, which ends all requests, is not part of these runs.
- RecentContexts.RunStaysGood: for a clock that never goes back; workspace ids that look like array indexes, which the host orders first, are not modelled.
- Storage that throws or is full in the chat store; JSON that does not parse is one corrupt blob that reads as nothing.
- The microtask between a change of workspace and the rehydration it triggers: both are one step.
- A registered store's in-memory reset is its effect on the chat store (`UploadSession.Wiped`), not a callback.
- `Date.parse`, locale comparison, the clock and random numbers are parameters; jitter is computed on reals, without floating-point rounding.
- PendingQueue: an absent property and one holding `undefined` are the same; `hideQueuedChatMessages` and the session sort are plain filters and comparisons.
- Analytics: callbacks that call back into the module, the normalization of the environment, attribution cookies and `before_send`.
- ExceptionFuse: how a fingerprint is built from a stack, and stored counts that are not numbers.
- WsClient: message dispatch, parsing of frames and `send`.
- The composer: files over its size limit, pasted text, toasts, uploads without a draft, and whether a restore offered to it is applied.
- The chat store's window preferences (open, size, expanded) and selected session and project.
- RecentContexts: versions and migration of the persisted record.
- JsonRepair: numbers, literals and structure outside strings are passed through verbatim and not parsed.

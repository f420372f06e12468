# Multica client core: a verified model

This project models the parts of the Multica client that keep state in step with a server without asking
it: the optimistic issue cache, the comment forest, the mention serializer, and six smaller state machines
(task-message merging, the inbox, percent rollouts, workspace switching, the reconnecting WebSocket client,
and the exception fuse). `dafny verify dfyconfig.toml` checks everything.

## The parts

| files | what they model |
|---|---|
| `IssueTypes`, `Membership`, `Buckets` | issues and partial writes, the three-valued list membership, the per-status windows (`rows + total`) and their pure edits |
| `Coordinator` | the rules table that every issue write goes through, as a function of one list and as the method that loops over the query cache, collecting snapshots and drifted keys |
| `Agreement`, `Drift`, `CacheRuns` | what it means that a cached window agrees with the server, which edits keep it so, and what flags and date filters have to do with it |
| `WsUpdaters`, `Mutations`, `BatchUpdate`, `DeleteCache` | the callers: WebSocket handlers, the single update, the batch update, their rollback, runs that mix them, and the clean-up after a deletion |
| `SubIssues` | the sub-issue lists of parents under all of these callers |
| `CommentForest`, `TimelineRows`, `Resolution` | the three walks over `parent_id`, the mobile rows, and resolving |
| `MentionSerialize` | the scanner over marked text and the composer that produces it |
| `TaskMessages`, `Inbox`, `FeatureFlags` | merge, deduplicate and archive, FNV-1a bucketing and rules |
| `WorkspaceSwitching`, `WorkspaceKeys`, `WsClient`, `ExceptionFuse` | state machines over their events |

Where the source changes things step by step, there is a class or a method with the same loops, proved
against a function of the old state; the theorems are about that function. Where the source is made of
expressions, there are functions only.

## How agreement is stated

A server is a map from ids to issues. A list is asked for by its whole key: scope, filter, and the date filter that
sits in the key's last segment (`packages/core/issues/queries.ts:13-19`, applied by the server at
`server/internal/handler/issue.go:1158-1168`). A list *agrees* when in every bucket the rows are distinct, current server rows of that
list and status, and the total is the number of such rows on the server. Rows are current up to `updated_at`, which only the server sets.

Who owns which agent and squad is the server's knowledge and arbitrary; that an issue involves a user only through an agent or squad
it is assigned to, and that `my:all` is assigned to me, created by me or involving me, is as the server has it.

`Agreement.ListAgreesIff` says, for one agreeing list and one server write with any flags, exactly when it agrees again or is reported:
when its edit is the one that the written row calls for. `WsUpdaters.RunKeepsRight` carries this over every run of local writes, answers, echoes,
remote writes and fetches: a list that was neither reported nor *slipped* since it was last fetched, where slipping is the failure of that condition at one event, agrees
with the server at the end, and every loaded row, detail and inbox status is current. `Drift` then says when a list can slip:
with flags that cover the write exactly when its date filter is at fault, in terms of the guards of the rules (`ListKeepsAgreeingIff`), and for lists
without one exactly when the flags are not enough (`FlagsDecide`).

## Where the code does less than it says

Each of these but the throwing subscriber has its exact condition proved, and a lemma at a failing input where the condition does not already show one.

- The rules ignore the date filter of a list. A project list windowed on `created_at` takes an older issue that it never counted off its total, unreported, when that issue
  leaves the project; a new issue is appended to every workspace list, whatever its window
  (`Drift.ListKeepsAgreeingIff`, `Drift.CreationWindowFailsIff`, `CacheRuns.AddedListAgreesIff`; `Drift.WindowedListMiscounts`, `CacheRuns.WindowedListTakesNewIssue`).
- The server's flags are gated on the request's fields being non-null (`server/internal/handler/issue.go:2595-2606`), so unassigning or clearing
  the project sends `false`: the card stays in its old list, unreported (`Drift.FlagsDecide`, `Drift.UnassignedCardStays`). An event without
  flags, for an issue with no cached copy, is unsafe exactly when it writes an assignee, a status or a cleared project (`WsUpdaters.FallbackDiffIsSafeIff`).
- The clean-up after a deletion looks the issue up in every cache under the list prefixes and throws on a grouped board, which has no buckets, before its first
  write: the deleted issue stays everywhere, unreported, exactly when such a board is cached (`DeleteCache.DeletionForgetsIff`, `DeleteCache.GroupedBoardBlocksDeletion`).
- A rollback writes old snapshots back, so it also undoes a change that went through in between, exactly when that change touched one of
  them (`Mutations.LateRollbackIff`, `Mutations.LateRollbackLosesMove`).
- `issue:created` for an issue a list counts but has not loaded counts it twice (`CacheRuns.ReannouncedIsRightIffLoaded`, `CacheRuns.ReannouncedIsCountedTwice`).
- An update event for an issue that is cached in sub-issue lists only leaves its row there as it was, not refetched, exactly when
  it changes the row and does not name the parent (`SubIssues.EventListIsRightIff`); the single update looks through those lists (`SubIssues.ReachedIff`).
- A batch that moves issues to or from a parent leaves the sub-issue list showing them until it is refetched (`SubIssues.BatchedListIsRightIff`).
- A batch over ids with a repetition does not roll the detail cache back (`BatchUpdate.FailedBatchLeavesNoTraceIff`, `BatchUpdate.RepeatedIdKeepsItsWrite`).
- `apps/mobile/lib/timeline-thread.ts:22-24` promises as many entries out as in. Comments that reply to each other
  in a ring are shown in no row; the promise holds exactly when there is none (`TimelineRows.RowsArePermutationIffAcyclic`, `TimelineRows.RingIsNotShown`).
- A mention whose name contains whitespace is never linked, and makes the whole message plain (`MentionSerialize.SpacedNameIsNeverLinked`).
- A batch of task messages that repeats a new number breaks the strict order (`TaskMessages.MergeIsAscendingIff`, `TaskMessages.RepeatedNumberStaysTwice`).
- A subscriber that throws ends the notification with its flag cleared, and those behind it may be left with an old slug while nothing is pending
  (one way: a skipped subscriber still holds the current slug if the workspace was switched away and back;
  `WorkspaceSwitching.QuietMeansCurrent`, `WorkspaceSwitching.ThrowLeavesOneBehind`).
- `disconnect()` called from inside a reconnect callback makes the next first authentication run the callbacks
  (`WsClient.CallbacksRunIff`, `WsClient.DisconnectInsideCallback`).
- A stored blob that counts a fingerprint one or more higher than it was kept makes the fuse drop too early (`ExceptionFuse.ToleranceIsExact`).
- Two workspace slugs of which one is the other behind a colon share storage keys (`WorkspaceKeys.LeaksIff`);
  `packages/views/workspace/slug.ts:1` allows no colon.

Deleting a comment also removes activity entries that name a member of its thread as parent, which the other two walks do not see
(`TimelineRows.ThreeWalksAgreeIff`, `TimelineRows.ActivityIsDeletedOnly`). The entry type allows such an activity; the server never makes one
(`server/internal/handler/activity.go:198-213`).

## Model

| member | source | states |
|---|---|---|
| Membership.VerdictIsSound | packages/core/issues/surface/membership.ts:85-132 | a definite yes or no about a partial issue is the server's answer for every issue it is part of |
| Membership.ShortOfYesIsUncertain | packages/core/issues/surface/membership.ts:85-132 | any answer short of yes has a server world and an issue, extending the partial one, outside the list |
| Membership.VerdictIs | packages/core/issues/surface/membership.ts:85-132 | the answer is no exactly when a field that is there contradicts the filter, and yes exactly when every field asked for is there, none contradicts, and no involvement is asked for |
| Membership.UntouchedFilterKeepsMembership | packages/core/issues/surface/membership.ts:57-77 | when the filter does not depend on the flagged groups, neither real membership nor the verdict changes |
| Membership.UnknownBaseFlags | packages/core/issues/surface/membership.ts:34-48 | without a base a group is flagged exactly when the write moves it in some issue |
| Membership.ChangedDimsAreExact | packages/core/issues/surface/membership.ts:34-48 | with a base the flags are exactly the groups the write moves; without one they still cover it |
| IssueTypes.MergeShowsWrite | packages/core/issues/cache-helpers.ts:133 | spreading a patch over an issue is the one entity with the same id in which every written column and field shows the write and every other one is kept |
| Buckets.PatchKeeps | packages/core/issues/cache-helpers.ts:126-169 | patching keeps ids in one bucket under their status, loaded ≤ total and the sum of totals, and the merged row is found under its new status |
| Buckets.PatchShowsWrite | packages/core/issues/cache-helpers.ts:126-169 | the patched card is found under its status showing the write, column by column and field by field, and every other card is found as it was |
| Buckets.PatchKeepsOthers | packages/core/issues/cache-helpers.ts:126-169 | in every bucket the other rows are the same, in the same order |
| Buckets.PatchKeepsSlots | packages/core/issues/cache-helpers.ts:140-147 | an edit that moves neither status nor position keeps every row in its slot |
| Buckets.PatchKeepsSorted | packages/core/issues/cache-helpers.ts:112-169 | every position-sorted column stays sorted under a patch |
| Buckets.PatchTwice | packages/core/issues/cache-helpers.ts:126-169 | the same patch twice is the patch once |
| Buckets.CarriedPatchIsNoOp | packages/core/issues/cache-helpers.ts:126-169 | a patch that the loaded card already carries changes nothing, its place in the column included |
| Buckets.RemoveKeeps | packages/core/issues/cache-helpers.ts:53-64 | removal keeps the invariant and the order, takes the id out, and lowers the sum of totals by one exactly when the card was loaded |
| Buckets.RemovedBucketIs | packages/core/issues/cache-helpers.ts:53-64 | every bucket loses the rows of the id and nothing else, and one unit of count where the card was |
| Buckets.RemoveKeepsOthers | packages/core/issues/cache-helpers.ts:53-64 | every other card is found as it was |
| Buckets.MoveTotalIsExact | packages/core/issues/cache-helpers.ts:72-86 | moving one unit of count keeps the invariant and the sum exactly when the source bucket counts a card beyond its window |
| Buckets.DecrementTotalIsExact | packages/core/issues/cache-helpers.ts:92-101 | the same for taking one unit away |
| Buckets.AddKeepsValidIff | packages/core/issues/cache-helpers.ts:40-50 | adding keeps the invariant exactly when no other bucket holds the id |
| Buckets.AddedBucketIs | packages/core/issues/cache-helpers.ts:40-50 | a card that its bucket does not show goes to its end and is counted, and nothing else changes |
| Buckets.InsertFinds | packages/core/issues/cache-helpers.ts:112-116 | insertion by position adds exactly the row and leaves the others in order |
| Buckets.InsertSplits | packages/core/issues/cache-helpers.ts:112-116 | the row goes in before the first row of a greater position, behind all rows of no greater one |
| Coordinator.ReconcileLists | packages/core/issues/cache-coordinator.ts:125-208 | the loop applies the rules to every loaded by-status list once, snapshots exactly the lists it writes and reports exactly the drifted keys, both in the order it meets them, and finds the freshest old copy |
| Coordinator.ApplyIssueChange | packages/core/issues/cache-coordinator.ts:106-228 | lists, detail and inbox after one change, with the snapshots and keys it returns, in order, whatever the cache held |
| Coordinator.ChangeShowsWrite | packages/core/issues/cache-coordinator.ts:210-225 | the detail of the issue shows the write, its inbox rows a written status, and every other detail, inbox row, list of another shape and sub-issue list stays |
| Coordinator.EntriesOrder | packages/core/issues/cache-coordinator.ts:94-104 | the workspace lists are met before the my-lists, and those of one kind as they were cached |
| Coordinator.FirstLoadedIs | packages/core/issues/cache-coordinator.ts:124-132 | the copy taken for the freshest is that of the first list that shows the issue |
| Coordinator.KeyDecides | packages/core/issues/cache-coordinator.ts:82-92 | the workspace list takes every issue, an "all" list is never judged and hangs on the assignee, every other my-list goes by its own filter |
| Coordinator.ResultIs | packages/core/issues/cache-coordinator.ts:121-227 | snapshots and stale keys come in the order of the entries, and the freshest old copy is the base, or the first loaded one, or the detail |
| Coordinator.RollbackIssueChange | packages/core/issues/cache-coordinator.ts:232-250 | exactly the snapshots are put back and nothing else is touched; a list that has left the cache comes back behind the others |
| Agreement.AgreeingIsValid | packages/core/issues/cache-helpers.ts:11-37 | agreement with a server implies the bucket invariant |
| Agreement.PatchAgreesIff | packages/core/issues/cache-coordinator.ts:131-155 | patching a loaded card agrees with the new server exactly when the written row is in the list |
| Agreement.RemoveAgreesIff | packages/core/issues/cache-coordinator.ts:131-155 | removing a loaded card agrees with the new server exactly when the written row is not in the list |
| Agreement.AbsentAgreesIff | packages/core/issues/cache-coordinator.ts:157-207 | for a card beyond the window, an edit of the counts agrees with the new server exactly when every total is one less where the row left and one more where it entered |
| Agreement.LoadedListAgreesIff | packages/core/issues/cache-coordinator.ts:131-155 | a list with the card is right, reported or not, exactly when the card stays in it just if the written row is in it |
| Agreement.AbsentOutcome | packages/core/issues/cache-coordinator.ts:157-207 | what is written to a list without the card: one off its old column or, if it is reported too, the move of one count, and no row |
| Agreement.ListAgreesIff | packages/core/issues/cache-coordinator.ts:106-208 | one agreeing list under one server write with any flags agrees again or is reported exactly when its edit fits: kept iff the row is in the list, counted down iff it left, untouched iff nothing moved |
| Agreement.MovedListAgreesToo | packages/core/issues/cache-coordinator.ts:172-190 | a list reported because a counted card moved has the right counts already, if its date filter takes the card before and after |
| Drift.LoadedGuards | packages/core/issues/cache-coordinator.ts:131-155 | a list with the card is always written; it is reported exactly when its touched filter cannot judge the patched card, and loses the card exactly when it judges it out |
| Drift.LoadedListShowsWrite | packages/core/issues/cache-coordinator.ts:131-155 | such a list shows the write if it keeps the card, and every other card as it was |
| Drift.AbsentGuards | packages/core/issues/cache-coordinator.ts:157-207 | a list without the card is counted down, passed over, moved and reported, or only reported, each exactly under its stated guard |
| Drift.WrittenIsDue | packages/core/issues/cache-coordinator.ts:172-203 | with flags that cover the write and no date filter, whatever is written to an agreeing list without the card, reported or not, gives every total that is due |
| Drift.ListKeepsAgreeingIff | packages/core/issues/cache-coordinator.ts:82-208 | with flags that cover the write the list is left wrong and unreported exactly when a card is kept though the row is out of its window, a card that was out of it is counted down from a positive total, or a row that the other filters take crosses its edge where the rules pass over |
| Drift.ListKeepsAgreeing | packages/core/issues/cache-coordinator.ts:106-208 | in particular every list without a date filter agrees again or is reported, whatever is loaded, known or touched |
| Drift.CreationWindowFailsIff | packages/core/issues/cache-coordinator.ts:191-203 | with a filter on the creation date the one failure is the count-down branch for a card outside the window and a positive total |
| Drift.WindowedListMiscounts | packages/core/issues/cache-coordinator.ts:191-203 | a list, a server and a write where that happens |
| Drift.FlagsDecide | packages/core/issues/cache-coordinator.ts:106-208 | for a given row and write every agreeing list without a date filter agrees again or is reported exactly when each moved group is flagged, except that a first assignee or a first project may go unflagged beside a flagged status |
| Drift.UnassignedCardStays | server/internal/handler/issue.go:2595-2606 | every unassignment announced with the flags the server sends leaves the card in its old assignee's list, unreported |
| CacheRuns.ListStaysCurrent | packages/core/issues/cache-coordinator.ts:106-208 | every list, reported or not, keeps showing only current server rows |
| CacheRuns.WriteKeepsRight | packages/core/issues/cache-coordinator.ts:106-228 | one write through the coordinator keeps the whole cache right up to the keys it reports and the lists that slip, and a list that agreed agrees after it exactly when it does neither |
| CacheRuns.AddedListAgreesIff | packages/core/issues/ws-updaters.ts:19-42 | a list that gets a new issue appended agrees again exactly when the issue is in the list; for a workspace list, in its window |
| CacheRuns.WindowedListTakesNewIssue | packages/core/issues/ws-updaters.ts:24-26 | a workspace list that a new issue outside its window makes wrong |
| CacheRuns.ReannouncedIsRightIffLoaded | packages/core/issues/ws-updaters.ts:19-42 | announcing a known issue again is right exactly when its card is loaded |
| CacheRuns.ReannouncedIsCountedTwice | packages/core/issues/ws-updaters.ts:19-42 | a list that counts two where the server has one |
| WsUpdaters.OnIssueUpdated | packages/core/issues/ws-updaters.ts:44-137 | the handler's reads and writes of lists, detail, inbox and sub-issue lists in one function of the old cache, and the lists and sub-issue lists it refetches |
| WsUpdaters.OnIssueCreated | packages/core/issues/ws-updaters.ts:19-42 | the same for a created issue |
| WsUpdaters.CachedIssueIs | packages/core/issues/ws-updaters.ts:61-70 | the copy the handler diffs against is the detail, or else the card in the first workspace list |
| WsUpdaters.HandlersReport | packages/core/issues/ws-updaters.ts:101-110 | what the run theorems call reported is what the two handlers refetch |
| WsUpdaters.HandleKeepsOrder | packages/core/issues/ws-updaters.ts:19-137 | no event loses a list, and each stays in the insertion order once |
| WsUpdaters.WsDimsCover | packages/core/issues/ws-updaters.ts:82-99 | with truthful flags, or a cached copy to diff against, the dims cover the write |
| WsUpdaters.FallbackDiffIsSafeIff | packages/core/issues/ws-updaters.ts:82-99 | an event without flags lets no list drift unreported, whatever row the server had, exactly when a copy is cached or the payload writes no assignee, no status and no cleared project |
| WsUpdaters.EventKeepsRight | packages/core/issues/ws-updaters.ts:19-137 | a local write, an answer, an update event with any flags or a created event keeps the cache right up to the keys it reports and the lists that slip, exactly |
| WsUpdaters.RunKeepsRight | packages/core/issues/ws-updaters.ts:19-137 | over every run of such events and fetches a list that was neither reported nor slipped since it was last fetched agrees with the server, and every row, detail and inbox status is current |
| WsUpdaters.CoveredRunKeepsRight | packages/core/issues/ws-updaters.ts:19-137 | over every run whose dims, sent or diffed, cover the writes a list without a date filter agrees with the server whenever it is not waiting for a refetch |
| Mutations.ReplayMovesNothingIff | packages/core/issues/cache-coordinator.ts:156-203 | a pass whose base already shows the status, assignee, project and creator it writes moves no count exactly when the loaded card sits in the column the write names and is not judged out |
| Mutations.ListEchoIsNoOp | packages/core/issues/cache-coordinator.ts:106-208 | the same change delivered to a list a second time leaves it exactly as it is |
| Mutations.EchoChangesNothing | packages/core/issues/cache-coordinator.ts:106-228 | the same change delivered twice leaves lists, details and inbox exactly as the first did |
| Mutations.WriteCountsOnce | packages/core/issues/mutations.ts:223-326 | after an optimistic write, any number of answers and WebSocket echoes carrying the full stored row, in any order, change no bucket's ids and no total in any list, reported or not |
| Mutations.AnswerCountsOnce | packages/core/issues/mutations.ts:306-326 | optimistic write, then onSuccess with the server's row and the dims of the intent |
| Mutations.AnswerIsShown | packages/core/issues/mutations.ts:306-326 | after the answer the detail, and every list that still holds the card, show the server's row |
| Mutations.WsEchoCountsOnce | packages/core/issues/ws-updaters.ts:62-110 | optimistic write, then its WebSocket echo judged against the copy the handler looks up |
| Mutations.LocalWriteCountsOnce | packages/core/issues/mutations.ts:223-326 | the same in every cache that is right, from the server's own row |
| Mutations.RollbackRestores | packages/core/issues/cache-coordinator.ts:232-250 | rolling back what a change returned restores the cache exactly |
| Mutations.UpdateIssueOnMutate | packages/core/issues/mutations.ts:223-294 | the optimistic half of a single update, with re-parenting, and the context it keeps |
| Mutations.UpdateIssueOnError | packages/core/issues/mutations.ts:295-305 | the rollback half |
| Mutations.FailedUpdateLeavesNoTrace | packages/core/issues/mutations.ts:223-305 | the two halves together are the identity on every cache |
| Mutations.LateRollbackIff | packages/core/issues/cache-coordinator.ts:232-250 | a rollback after another change leaves what that change alone would have left exactly when it changed none of the lists with a snapshot, nor the write's own detail, nor the inbox if the write moved the status |
| Mutations.LateRollbackLosesMove | packages/core/issues/cache-coordinator.ts:232-250 | in every list that shows two cards of one column, rolling back a write to one loses a move of the other |
| DeleteCache.CollectParents | packages/core/issues/delete-cache.ts:41-73 | the first walk finds every parent that a detail, a list or a sub-issue list knows of, and completes exactly when every cache under the two prefixes has buckets |
| DeleteCache.ParentsAre | packages/core/issues/delete-cache.ts:43-73 | the parents known are those that the detail, a card or a sub-issue row of the issue names, and those whose list holds it |
| DeleteCache.OnIssueDeleted | packages/core/issues/delete-cache.ts:41-166 | the cache after a deletion, and the keys it invalidates, or nothing of either when the walk throws |
| DeleteCache.DeletionKeepsOtherCards | packages/core/issues/delete-cache.ts:75-95 | in every list every other card is found as it was, the other rows keep their order, and a total loses one exactly where the card was loaded |
| DeleteCache.DeletionKeepsOtherRows | packages/core/issues/delete-cache.ts:148-182 | every other detail stays, and every inbox row that is not about the issue, in order |
| DeleteCache.PrunedListAgreesIff | packages/core/issues/delete-cache.ts:75-95 | a pruned list agrees with the server exactly when it did not merely count the issue and shows no sub-issue of it, whose parent the server cleared |
| DeleteCache.DeletedListAgreesIff | packages/core/issues/delete-cache.ts:75-95 | the same of every list in the cache that the deletion leaves |
| DeleteCache.DeletionForgetsIff | packages/core/issues/delete-cache.ts:41-166 | nothing of the issue is left in lists, details, sub-issue lists or inbox exactly when no cache of another shape is loaded; otherwise nothing changes |
| DeleteCache.GroupedBoardBlocksDeletion | packages/core/issues/delete-cache.ts:41-73 | with a grouped board cached a list that showed the issue is left wrong |
| BatchUpdate.PatchLoadedChildren | packages/core/issues/mutations.ts:490-525 | the loop patches exactly the sub-issue lists that hold one of the ids and snapshots exactly those |
| BatchUpdate.BatchOnMutate | packages/core/issues/mutations.ts:461-525 | the coordinator id by id with first-wins snapshots, then the sub-issue lists |
| BatchUpdate.BatchReports | packages/core/issues/mutations.ts:480-496 | the batch reports exactly what the pass of some issue reported, over the cache that the passes before it left |
| BatchUpdate.BatchOnError | packages/core/issues/mutations.ts:526-545 | the rollback of a batch |
| BatchUpdate.FailedBatchLeavesNoTraceIff | packages/core/issues/mutations.ts:461-545 | a failed batch restores lists, inbox and sub-issue lists for all ids, and details exactly when every repeated id already carried the write |
| BatchUpdate.RepeatedIdKeepsItsWrite | packages/core/issues/mutations.ts:461-545 | a batch that names an issue twice and leaves its write behind |
| BatchUpdate.FailedBatchOfDistinctIds | packages/core/issues/mutations.ts:461-545 | over distinct ids a failed batch leaves no trace |
| SubIssues.UpdateOfSubIssueLists | packages/core/issues/mutations.ts:271-292 | the known parent's list holds the issue afterwards exactly when it did and the write names no other parent; a row that stays shows the write in its slot, the others are the same in order, and so is every other list |
| SubIssues.UpdatedListIsRightIff | packages/core/issues/mutations.ts:254-292 | a sub-issue list that showed exactly the current sub-issues of its parent does so after an update exactly when the update reached it or changed no row of it, and brought its parent no issue |
| SubIssues.ParentIs | packages/core/issues/mutations.ts:254-270 | the parent is the one the detail names, or the freshest old copy, or the first sub-issue list that shows the issue |
| SubIssues.ReachedIff | packages/core/issues/mutations.ts:254-270 | the parent's list is reached exactly when a copy of the issue is cached elsewhere, or this is the first list that shows it |
| SubIssues.UpdateKeepsSubIssuesRight | packages/core/issues/mutations.ts:254-292 | if every sub-issue list is right, an update leaves every one right but that of a parent the issue is moved to |
| SubIssues.EventOnSubIssueLists | packages/core/issues/ws-updaters.ts:112-129 | the old parent's list shows the write in place unless the parent changes, every other list stays, and the lists of both parents are refetched exactly when it does |
| SubIssues.EventListIsRightIff | packages/core/issues/ws-updaters.ts:61-129 | a list that was right is right after an event, or refetched, exactly when a copy tells the old parent, or the event names the parent, or the write changes no row of it |
| SubIssues.BatchOfSubIssueLists | packages/core/issues/mutations.ts:498-515 | every row of the batch shows the write in its slot and every other row stays |
| SubIssues.BatchedListIsRightIff | packages/core/issues/mutations.ts:498-515 | a list that was right is right after a batch exactly when the batch moves no issue to or from its parent |
| SubIssues.DeletionKeepsSubIssuesRight | packages/core/issues/delete-cache.ts:97-165 | a deletion takes the issue's own list and its row from the others, in order; lists that were right stay right |
| CommentForest.CascadePass | packages/core/issues/mutations.ts:794-806 | one pass of the loop adds only what every reply-closed superset must hold, and stops only when closed |
| CommentForest.CascadeDelete | packages/core/issues/mutations.ts:791-812 | the fixpoint is the least set with the comment that is closed under replies |
| CommentForest.ClimbToRoot | packages/core/issues/mutations.ts:839-847 | the guarded climb terminates, on a root or inside a ring it has gone round |
| CommentForest.CollectDescendants | packages/core/issues/mutations.ts:848-869 | the stack walk collects the least reply-closed set with the root |
| CommentForest.CollectThreadCommentIds | packages/core/issues/mutations.ts:831-869 | for every list, cyclic parents included, exactly the connected component of the comment |
| CommentForest.ThreadFromRoot | packages/core/issues/mutations.ts:838-869 | from wherever the climb ends, going down again covers the whole component |
| CommentForest.SameThread | packages/core/issues/mutations.ts:831-869 | any two comments of one thread get the same set |
| TimelineRows.Partition | apps/mobile/lib/timeline-thread.ts:37-60 | the top level, orphan replies included, and the replies of each parent, in order |
| TimelineRows.EntryKeepsPlace | apps/mobile/lib/timeline-thread.ts:45-60 | an entry stands in the top level, or among the replies of its loaded parent, where it stands in the timeline |
| TimelineRows.CollectBundle | apps/mobile/lib/timeline-thread.ts:61-86 | the queue walk ends and emits the descendants of a top-level comment, each once, level by level |
| TimelineRows.BuildRow | apps/mobile/lib/timeline-thread.ts:61-86 | one row: the entry with its whole bundle, or none for activity |
| TimelineRows.BuildTimelineRows | apps/mobile/lib/timeline-thread.ts:37-87 | the rows are those of the top level, in order |
| TimelineRows.RowsArePermutationIffAcyclic | apps/mobile/lib/timeline-thread.ts:37-87 | no entry is shown twice, and the flattened rows are a permutation of the input exactly when no comments form a ring |
| TimelineRows.RingIsNotShown | apps/mobile/lib/timeline-thread.ts:37-87 | any two comments that reply to each other give no row at all |
| TimelineRows.TopLevelThread | apps/mobile/lib/timeline-thread.ts:61-86 | the thread of a top-level comment is what hangs below it |
| TimelineRows.ThreeWalksAgreeIff | packages/core/issues/mutations.ts:791-869 | for a top-level comment the thread is the row's ids, and the cascade removes the same set exactly when no activity names one of them as parent |
| TimelineRows.ActivityIsDeletedOnly | packages/core/issues/mutations.ts:791-869 | any comment with an activity below it: deleted together, not one thread |
| Resolution.ResolveComment | packages/core/issues/mutations.ts:876-903 | the timeline after a resolve or unresolve, with the thread as the connected component |
| Resolution.EntriesAfter | packages/core/issues/mutations.ts:876-903 | slot by slot, the comment takes the time and keeps the rest, an entry that loses its resolution loses who resolved it, and nothing else changes |
| Resolution.ResolveLeavesExactlyOne | packages/core/issues/mutations.ts:876-903 | resolving an existing comment leaves exactly it resolved in its thread, and every other thread untouched |
| Resolution.OpKeepsAtMostOne | packages/core/issues/mutations.ts:876-903 | one operation keeps at most one resolution per thread and the forest |
| Resolution.RunKeepsAtMostOne | packages/core/issues/mutations.ts:876-903 | over every run no thread ever shows two resolutions |
| Resolution.UnresolveIsLocal | packages/core/issues/mutations.ts:876-903 | unresolving changes only the entry with that id |
| MentionSerialize.SerializeMentions | apps/mobile/lib/mention-serialize.ts:122-175 | the scanner with its early exit, abort and fallback computes the scan of the whole text |
| MentionSerialize.LinksAre | apps/mobile/lib/mention-serialize.ts:161-165 | the link of each kind, issues without the leading `@` |
| MentionSerialize.SpacesAre | apps/mobile/lib/mention-serialize.ts:149-151 | the word ends at exactly the twenty-five white space and line terminator characters |
| MentionSerialize.AllLinkedOrPlain | apps/mobile/lib/mention-serialize.ts:122-175 | a text in which all markers are laid out in order is sent with exactly those links, every other text stripped of its sentinels with no link |
| MentionSerialize.LayoutIsScanned | apps/mobile/lib/mention-serialize.ts:126-168 | the scan finds every layout and uses every marker |
| MentionSerialize.ScanFindsLayout | apps/mobile/lib/mention-serialize.ts:126-168 | a scan that uses every marker has found a layout |
| MentionSerialize.LinksReplacePlainMentions | apps/mobile/lib/mention-serialize.ts:170-174 | the linked text is the stripped text with each `@name`, in order, replaced by its link |
| MentionSerialize.SentIsClean | apps/mobile/lib/mention-serialize.ts:122-175 | with sentinel-free names and ids nothing sent holds a sentinel |
| MentionSerialize.TokenAtCursor | apps/mobile/lib/mention-serialize.ts:47-78 | the token found is the open word at the cursor, and none is found only when there is none |
| MentionSerialize.TypedTokenIff | apps/mobile/lib/mention-serialize.ts:47-78 | an `@` and what is typed after it are a token exactly when it stands at the front or behind a space and the word has no space and no further `@` |
| MentionSerialize.ComposedMessageRoundTrips | apps/mobile/lib/mention-serialize.ts:85-175 | whatever is typed and picked from left to right is sent with every picked mention linked and the typed text as it was |
| MentionSerialize.SpacedNameIsNeverLinked | apps/mobile/lib/mention-serialize.ts:140-160 | one marker with whitespace in its name makes the whole message plain |
| TaskMessages.MergeIsAscendingIff | packages/core/chat/queries.ts:155-164 | a merge stays strictly ascending exactly when its new messages have distinct numbers |
| TaskMessages.RepeatedNumberStaysTwice | packages/core/chat/queries.ts:155-164 | a batch that breaks the order |
| TaskMessages.MergeHolds | packages/core/chat/queries.ts:155-164 | a merge holds everything there was and exactly the new numbers of the batch |
| TaskMessages.FirstWriterWins | packages/core/chat/queries.ts:155-164 | over every run of batches the list is strictly ascending and the first writer of each number is kept |
| TaskMessages.MergesConverge | packages/core/chat/queries.ts:155-164 | when batches agree per number, the final list depends only on their union |
| Inbox.GroupByKey | packages/core/inbox/queries.ts:76-87 | the loop files every active item under its key, keys in order of first appearance |
| Inbox.DeduplicateInboxItems | packages/core/inbox/queries.ts:76-112 | grouping, sorting and anchoring compute the deduplicated inbox |
| Inbox.OneRowPerKey | packages/core/inbox/queries.ts:76-112 | exactly one row per key with an active item, newest first, each the newest of its group with the newest anchor when its own is missing |
| Inbox.DeduplicatingIsIdempotent | packages/core/inbox/queries.ts:76-112 | deduplicating twice is deduplicating once |
| Inbox.ArchiveInbox | packages/core/inbox/mutations.ts:34-47 | the optimistic update keeps the snapshot, and what it writes deduplicates to the earlier inbox without exactly that row |
| Inbox.ArchiveRemovesExactlyOneRow | packages/core/inbox/mutations.ts:34-47 | archive and deduplicate again is the earlier inbox without that issue's row, in the same order |
| FeatureFlags.XorDiffersBitwise | packages/core/feature-flags/hash.ts:48 | bit i of the exclusive or is set exactly when the two numbers differ in bit i |
| FeatureFlags.SumOfA | packages/core/feature-flags/hash.ts:29-56 | the sum of "a" is the published one |
| FeatureFlags.ImulIsModular | packages/core/feature-flags/hash.ts:40-52 | signed 32-bit multiplication is multiplication modulo 2^32 |
| FeatureFlags.JsStepIsStep | packages/core/feature-flags/hash.ts:48-52 | one turn of the signed loop is one FNV-1a step on unsigned numbers |
| FeatureFlags.Fnv1a | packages/core/feature-flags/hash.ts:29-56 | the nested loop with the final unsigned shift computes FNV-1a over the parts with zero bytes between |
| FeatureFlags.SameAsServer | server/pkg/featureflag/hash.go:15-24 | the server's three writes to its hasher give the same sum |
| FeatureFlags.StepIsInjective | packages/core/feature-flags/hash.ts:48-52 | every step is a bijection on 32-bit states |
| FeatureFlags.SuffixNeverMerges | packages/core/feature-flags/hash.ts:29-56 | distinct states stay distinct under every common suffix |
| FeatureFlags.JoinIsInjective | packages/core/feature-flags/hash.ts:34-41 | the separator keeps key and identifier apart, for keys without a zero byte |
| FeatureFlags.BucketIsResidue | packages/core/feature-flags/hash.ts:63-65 | the bucket is the residue modulo 100 of the sum over key, zero byte and identifier |
| FeatureFlags.AttributeIs | packages/core/feature-flags/static-provider.ts:104-116 | an attribute is what the context has under that name, unless it is empty |
| FeatureFlags.RuleDecides | packages/core/feature-flags/static-provider.ts:48-102 | deny before allow before percentage before default, each by its attribute or the user, and the variant that goes with the decision |
| FeatureFlags.RolloutIsMonotone | packages/core/feature-flags/static-provider.ts:48-98 | raising the percentage never turns a context off nor changes the decision of one that is on |
| FeatureFlags.RolloutNeverFlaps | packages/core/feature-flags/static-provider.ts:48-75 | over every ascending run of percentages each context is off, then on, and never off again |
| FeatureFlags.RolloutThreshold | packages/core/feature-flags/static-provider.ts:48-75 | a context is on at a whole percentage exactly when it is not denied, and is allowed or has a smaller bucket |
| WorkspaceSwitching.Workspace.SetCurrentWorkspace | packages/core/platform/workspace-storage.ts:34-64 | the new variables and queue; a call with the same slug changes the id only |
| WorkspaceSwitching.LastSwitchIsCurrent | packages/core/platform/workspace-storage.ts:34-74 | over every run slug and workspace id are those of the last switch |
| WorkspaceSwitching.Workspace.SubscribeToCurrentSlug | packages/core/platform/workspace-storage.ts:80-87 | a subscriber added during a notification is still visited by it |
| WorkspaceSwitching.Workspace.Delete | packages/core/platform/workspace-storage.ts:84-86 | a subscriber deleted before its turn is skipped |
| WorkspaceSwitching.RunRegisters | packages/core/platform/workspace-storage.ts:80-92 | over every run the subscribers are those added and not deleted since, each once, and every registration is one store |
| WorkspaceSwitching.SubscriberCosts | packages/core/platform/workspace-storage.ts:46-52 | a new subscriber is called once more in the pass under way and once in the one queued |
| WorkspaceSwitching.DeletionSaves | packages/core/platform/workspace-storage.ts:46-52 | a deleted one is not called in the pass under way, if its turn was to come, nor in the one queued |
| WorkspaceSwitching.Workspace.RunMicrotask | packages/core/platform/workspace-storage.ts:45-62 | one step of the two queued loops: the flag cleared first, the slug captured for subscribers and read afresh for stores |
| WorkspaceSwitching.QuietMeansCurrent | packages/core/platform/workspace-storage.ts:34-92 | in every reachable state, calls from inside callbacks included, once no notification is queued or being made all subscribers were last told the current slug, and stores likewise, except those behind a callback that threw |
| WorkspaceSwitching.ThrowLeavesOneBehind | packages/core/platform/workspace-storage.ts:46-52 | a run in which one is left with the old slug and nothing is pending |
| WorkspaceSwitching.Workspace.AbandonMicrotask | packages/core/platform/workspace-storage.ts:46-61 | a throwing callback ends the loop with the rest uncalled and the flag cleared |
| WorkspaceSwitching.ThrowCosts | packages/core/platform/workspace-storage.ts:46-52 | a throw costs all calls left in the pass under way and none of the one queued |
| WorkspaceSwitching.DrainDelivers | packages/core/platform/workspace-storage.ts:34-92 | from every such state the queue drains, and then everyone agrees on the unchanged slug, but for those skipped before |
| WorkspaceSwitching.QueuedPassReachesAll | packages/core/platform/workspace-storage.ts:34-92 | a pass still to come reaches every subscriber and every store, those skipped before included |
| WorkspaceSwitching.BurstIsOnePass | packages/core/platform/workspace-storage.ts:34-64 | any number of switches before the microtasks run calls each subscriber once, or never when none named another slug |
| WorkspaceKeys.WorkspaceAwareStorage.GetItem | packages/core/platform/workspace-storage.ts:108-109 | reads the current namespace, nothing without one |
| WorkspaceKeys.WorkspaceAwareStorage.SetItem | packages/core/platform/workspace-storage.ts:110-112 | writes in the current namespace, dropped without one |
| WorkspaceKeys.WorkspaceAwareStorage.RemoveItem | packages/core/platform/workspace-storage.ts:113-115 | removes in the current namespace, dropped without one |
| WorkspaceKeys.LeaksIff | packages/core/platform/workspace-storage.ts:106-117 | for different slugs a write under one can be seen under the other exactly when one is the other behind a colon |
| WorkspaceKeys.ColonFreeIsApart | packages/views/workspace/slug.ts:1 | colon-free slugs overlap only when equal |
| WorkspaceKeys.WorkspacesAreIsolated | packages/core/platform/workspace-storage.ts:94-117 | over every run of switches, writes and removals a workspace reads what its own operations alone would have left |
| WorkspaceKeys.WorkspaceReadsItsOwn | packages/core/platform/workspace-storage.ts:94-117 | over every such run a workspace reads back, key by key, what it last wrote itself, and nothing once it removed that |
| WsClient.BaseIs | packages/core/api/ws-client.ts:163-167 | the base doubles from one second to sixteen and is thirty from then on |
| WsClient.DelayRange | packages/core/api/ws-client.ts:168-173 | the delay at the lowest, the middle and a higher random number |
| WsClient.DelayInBackoff | packages/core/api/ws-client.ts:163-172 | the rounded, jittered, capped delay lies between 80% and 120% of the capped exponential and never above the cap |
| WsClient.WSClient.Open | packages/core/api/ws-client.ts:73-126 | `connect`: a fresh socket becomes the remembered one |
| WsClient.WSClient.HandleOpen | packages/core/api/ws-client.ts:94-103 | opening authenticates at once unless a token has to be sent first |
| WsClient.WSClient.HandleAuthenticated | packages/core/api/ws-client.ts:182-195 | the attempt is reset, and the callbacks are gone through on a reconnect |
| WsClient.WSClient.HandleClose | packages/core/api/ws-client.ts:153-180 | a close counts one attempt and arms a timer with its delay |
| WsClient.WSClient.Close | packages/core/api/ws-client.ts:197-214 | `disconnect`: timer, socket, history and callbacks are dropped |
| WsClient.NeverTwoConnections | packages/core/api/ws-client.ts:73-214 | in every reachable state there is exactly one of a live socket and an armed timer while a connection is wanted, none otherwise, and `disconnect` leaves neither |
| WsClient.SecondConnectEscapes | packages/core/api/ws-client.ts:73-214 | after one more `connect`, `disconnect` still leaves nothing exactly when no socket was live |
| WsClient.DisconnectForgets | packages/core/api/ws-client.ts:197-214 | in every reachable state `disconnect` brings back the first state, but for the token and a pass in progress, which calls no more |
| WsClient.TimerReconnects | packages/core/api/ws-client.ts:73-180 | a timer that fires, or a connect, leaves one fresh socket and no timer, and a socket that opens stays the only one |
| WsClient.OpenWaitsForTokenIff | packages/core/api/ws-client.ts:91-100 | opening authenticates unless, outside cookie mode, there is a non-empty token to send first |
| WsClient.BackoffFollowsCloses | packages/core/api/ws-client.ts:153-180 | after k closes since the last authentication or disconnect the next timer has the k-th backoff |
| WsClient.CallbacksRunIff | packages/core/api/ws-client.ts:182-195 | the callbacks run on the second and later authentications since the last disconnect, and on the first exactly when that disconnect came from inside a callback |
| WsClient.PassCallsAll | packages/core/api/ws-client.ts:182-195 | a pass calls every callback left, once and in order, then notes the connection, and changes nothing else |
| WsClient.PassFollowsChanges | packages/core/api/ws-client.ts:186-192 | a callback added during a pass is called last in it, one removed before its turn is not called, and none is after a disconnect |
| WsClient.OwnerIsObeyed | packages/core/api/ws-client.ts:197-238 | over every run the token is the one set last, and the callbacks are those added and not removed since |
| WsClient.DisconnectInsideCallback | packages/core/api/ws-client.ts:182-214 | a run that reaches that state |
| ExceptionFuse.SessionFuse.ShouldDropException | packages/core/analytics/exception-dedupe.ts:40-78 | the decision and the blob it leaves under every storage failure |
| ExceptionFuse.TallyCounts | packages/core/analytics/exception-dedupe.ts:40-78 | the tally of the theorems below counts, over every run, the reports of each fingerprint and those that were not dropped |
| ExceptionFuse.DropsOnlyAfterThree | packages/core/analytics/exception-dedupe.ts:40-94 | under any run of events, read failures, write failures and damage that does not count up by one or more, an event is dropped only after three with its fingerprint were kept |
| ExceptionFuse.ToleranceIsExact | packages/core/analytics/exception-dedupe.ts:54-67 | a blob, with whole counts or not, leads to an early drop of a fingerprint exactly when fewer than three were kept and it counts at least one more than were |
| ExceptionFuse.FirstThreeOfEachAreKept | packages/core/analytics/exception-dedupe.ts:40-94 | with working storage at most fifty fingerprints are tracked, each keeps exactly the smaller of n and three, every other keeps all |

## Left out

- React, TanStack Query internals, network calls, cancellation and invalidation refetches: only the synchronous reads and writes of the cache and the reported stale keys are modelled.
- Assignee-grouped boards, Gantt rows and project metrics: the source only invalidates them; lists of another shape are kept as they are.
- WsUpdaters.RunKeepsRight: every write is accepted as made and no write changes who created an issue; an answer or a fetch carries what the server has as it arrives, so an older full row that arrives after a later remote write is not among the events; nor are rollbacks and deletions, which have theorems of their own.
- Label and metadata events, pagination (load more, the Gantt walk), and flattening of buckets.
- Filters with an empty id or an empty list, which the client would not send (`packages/core/api/client.ts:509-515`) but judges cards by; no surface builds one.
- The total of a `my:all` list is what three first pages merge to: such a list agrees with the server only if they hold everything.
- The date filter is two instants and a column; its time zone arithmetic is left out.
- A patch key set explicitly to `undefined` is not distinguished from an absent one.
- Coordinator.RollbackIssueChange: lists that left the cache come back in some order.
- Issue columns the rules never look at are one map of strings; dates, positions and percentages are numbers without NaN.
- CommentForest.CollectDescendants: the order in which the stack visits children is not captured, only the set.
- TimelineRows.BuildTimelineRows: entries have distinct ids, as the server gives them; with a reply that carries its own parent's id the walk of the source does not end.
- TaskMessages.MergeHolds: batches have distinct numbers; `TaskMessages.MergeIsAscendingIff` says what a repetition does.
- Inbox.ArchiveRemovesExactlyOneRow: issue ids are not empty and no issue id is an item id, as the server gives them.
- Mention suggestions, the cursor after an insertion, and UTF-16 code units: text is a sequence of characters.
- UTF-8 encoding: the hash takes bytes. `FeatureFlags.RolloutIsMonotone` and `RolloutThreshold` take percentages as real numbers.
- WorkspaceSwitching.QuietMeansCurrent: a subscriber counts as told the slug it reads when it subscribes, and a store as loaded from the namespace current at its registration, as `useSyncExternalStore` and the persist middleware do.
- WsClient.NeverTwoConnections: the owner connects only while no connection is wanted; sockets and timers fire only while live and armed, and never while a callback is running.
- WsClient.DelayInBackoff: real numbers in place of floating point.
- ExceptionFuse.DropsOnlyAfterThree: other writers of the blob may lose, damage or lower counts; how far they may raise one is exactly the bound of `ExceptionFuse.ToleranceIsExact`.
- Building a fingerprint from an exception: the fingerprint is given as its hash, or none.
- The message dispatch of the WebSocket client, its malformed-frame log, and its URL parameters.
- Permission rules, recent contexts, session sorting, HTTP clients, schemas, auth and UI.

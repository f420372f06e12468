/** Which writes the rules get right: the exact part played by the flags a write comes with and by the
    date filter of a list (packages/core/issues/cache-coordinator.ts:82-208). */
module Drift {
  import opened Options
  import opened IssueTypes
  import opened Membership
  import opened Buckets
  import opened Coordinator
  import opened Agreement

  predicate Loaded(c: ListCache, id: string) {
    FindIssueLocation(c, id).Some?
  }

  ghost predicate BelongsTo(w: World, key: ListKey, issue: Issue) {
    Belongs(w, key.ContractScope(), key.ContractFilter(), issue)
  }

  /** What the verdicts about the row before and after a write say, in the server's terms. */
  lemma WriteIsInformed(key: ListKey, w: World, before: Issue, row: Issue, patch: Patch, base: Option<Issue>,
                        copy: Issue)
    requires SameRow(copy, before) && SameRow(Merge(before, patch), row) && (base.Some? ==> SameRow(base.value, before))
    ensures var was, now := Matches(key, AsPatch(copy)), Matches(key, Spread(base, patch));
            && (was.Yes? ==> BelongsTo(w, key, before)) && (was.No? ==> !BelongsTo(w, key, before))
            && (now.Yes? ==> BelongsTo(w, key, row)) && (now.No? ==> !BelongsTo(w, key, row))
  {
    var scope, filter := key.ContractScope(), key.ContractFilter();
    VerdictIsSound(w, AsPatch(copy), copy, scope, filter);
    SameRowsJudgedAlike(w, scope, filter, copy, before);
    var merged := if base.Some? then Merge(base.value, patch) else Merge(before, patch);
    MergedCarries(before, patch);
    VerdictIsSound(w, Spread(base, patch), merged, scope, filter);
    if base.Some? { SameRowsMerge(base.value, before, patch); }
    SameRowsJudgedAlike(w, scope, filter, merged, row);
  }

  // ----- writes whose flags name what they move -----

  /** A loaded card is patched and stays: the filter is untouched, or judges the patched card in. */
  predicate Keeps(key: ListKey, c: ListCache, id: string, patch: Patch, changed: Dims) {
    var loc := FindIssueLocation(c, id);
    loc.Some? && (!FilterTouched(key, changed) || Matches(key, Spread(Some(loc.value.issue), patch)).Yes?)
  }

  /** A card that is not loaded is taken off the count of its old column: judged in before, and out after. */
  predicate CountsDown(key: ListKey, c: ListCache, id: string, patch: Patch, changed: Dims, base: Option<Issue>) {
    && !Loaded(c, id) && base.Some? && (FilterTouched(key, changed) || changed.status)
    && Matches(key, AsPatch(base.value)).Yes? && Matches(key, Spread(base, patch)).No?
  }

  /** The rules pass over a list without the card: nothing it asks for is flagged, or it is judged out before
      and after, or in before and after with no move of the status. */
  predicate Overlooked(key: ListKey, c: ListCache, id: string, patch: Patch, changed: Dims, base: Option<Issue>) {
    var was := if base.Some? then Matches(key, AsPatch(base.value)) else Unknown;
    var now := Matches(key, Spread(base, patch));
    !Loaded(c, id) &&
    (|| (!FilterTouched(key, changed) && !changed.status)
     || (was.No? && now.No?)
     || (was.Yes? && now.Yes? &&
         (!changed.status || patch.status.None? || patch.status.value == base.value.status)))
  }

  /** The date filter at fault: a card stays loaded though the written row is out of the window, a row that was
      out of it is counted down, or a row that the other filters take crosses its edge unseen. */
  ghost predicate WindowFails(key: ListKey, w: World, c: ListCache, before: Issue, row: Issue,
                              patch: Patch, changed: Dims, base: Option<Issue>)
  {
    var was, now := InWindow(key.sort.window, before), InWindow(key.sort.window, row);
    || (Keeps(key, c, before.id, patch, changed) && !now)
    || (CountsDown(key, c, before.id, patch, changed, base) && !was && GetBucket(c, before.status).total > 0)
    || (Overlooked(key, c, before.id, patch, changed, base) && BelongsTo(w, key, before) && was != now)
  }

  /** The judgement of the patched card. */
  function Judged(key: ListKey, c: ListCache, id: string, patch: Patch): Verdict
    requires Loaded(c, id)
  {
    Matches(key, Spread(Some(FindIssueLocation(c, id).value.issue), patch))
  }

  /** A list with the card is always written; it is reported exactly when its filter is touched and cannot judge
      the patched card, and loses the card exactly when its filter is touched and judges it out. */
  lemma LoadedGuards(key: ListKey, c: ListCache, id: string, patch: Patch, changed: Dims, base: Option<Issue>)
    requires Valid(c) && Loaded(c, id)
    ensures var o := ReconcileList(key, c, id, patch, changed, base);
            && o.written
            && (o.stale <==> FilterTouched(key, changed) && Judged(key, c, id, patch).Unknown?)
            && (Loaded(o.next, id) <==> !(FilterTouched(key, changed) && Judged(key, c, id, patch).No?))
            && (Keeps(key, c, id, patch, changed) <==> !o.stale && Loaded(o.next, id))
  {
    PatchKeeps(c, id, patch);
    RemoveKeeps(c, id);
  }

  /** A list with the card shows the write, if it keeps the card, and every other card as before. */
  lemma LoadedListShowsWrite(key: ListKey, c: ListCache, id: string, patch: Patch, changed: Dims, base: Option<Issue>,
                             other: string)
    requires Valid(c) && Loaded(c, id) && other != id
    ensures var next := ReconcileList(key, c, id, patch, changed, base).next;
            && FindIssueLocation(next, other) == FindIssueLocation(c, other)
            && (Loaded(next, id) ==>
                  ShowsWrite(FindIssueLocation(c, id).value.issue, FindIssueLocation(next, id).value.issue, patch))
  {
    PatchShowsWrite(c, id, patch, other);
    RemoveKeeps(c, id);
    RemoveKeepsOthers(c, id, other);
  }

  /** A list without the card is counted down, passed over, or reported; it is moved as well as reported exactly
      when the card is in before and after and its flagged status moves. */
  lemma AbsentGuards(key: ListKey, c: ListCache, id: string, patch: Patch, changed: Dims, base: Option<Issue>)
    requires !Loaded(c, id)
    ensures var o := ReconcileList(key, c, id, patch, changed, base);
            && (CountsDown(key, c, id, patch, changed, base) <==> !o.stale && o.written)
            && (Overlooked(key, c, id, patch, changed, base) <==> !o.stale && !o.written)
            && (o.stale && o.written <==>
                  && base.Some? && changed.status && Matches(key, AsPatch(base.value)).Yes?
                  && Matches(key, Spread(base, patch)).Yes? && Merge(base.value, patch).status != base.value.status)
  {
  }

  /** What is written to a list without the card is right, whether or not the list is reported: every total is
      the one that is due. */
  lemma WrittenIsDue(key: ListKey, c: ListCache, server: Server, after: Server, w: World,
                     id: string, patch: Patch, changed: Dims, base: Option<Issue>)
    requires Agrees(c, server, w, key) && ServerWrite(server, after, id, patch, base)
    requires Covers(changed, server[id], after[id]) && key.sort.window.None? && !Loaded(c, id)
    requires ReconcileList(key, c, id, patch, changed, base).written
    ensures var next := ReconcileList(key, c, id, patch, changed, base).next;
            AllDue(c, next, w, key, server[id], after[id]) && Agrees(next, after, w, key)
  {
    var o := ReconcileList(key, c, id, patch, changed, base);
    AbsentGuards(key, c, id, patch, changed, base);
    AbsentOutcome(key, c, id, patch, changed, base);
    WriteIsInformed(key, w, server[id], after[id], patch, base, base.value);
    CountedIsPositive(c, server, w, key, id);
    CountDownIsDueIff(c, w, key, server[id], after[id]);
    if o.stale { MoveIsDue(c, w, key, server[id], after[id]); }
    AbsentAgreesIff(c, o.next, server, after, w, key, id);
  }

  lemma LoadedFitsIff(key: ListKey, c: ListCache, server: Server, after: Server, w: World,
                      id: string, patch: Patch, changed: Dims, base: Option<Issue>)
    requires Agrees(c, server, w, key) && ServerWrite(server, after, id, patch, base)
    requires Covers(changed, server[id], after[id]) && Loaded(c, id)
    ensures var o := ReconcileList(key, c, id, patch, changed, base);
            Fits(key, w, c, server[id], after[id], o) <==>
            !(Keeps(key, c, id, patch, changed) && !InWindow(key.sort.window, after[id]))
  {
    AgreeingIsValid(c, server, w, key);
    AgreeingLocation(c, server, w, key, id);
    CurrentLocation(c, server, id);
    var copy := FindIssueLocation(c, id).value.issue;
    WriteIsInformed(key, w, server[id], after[id], patch, Some(copy), copy);
    LoadedGuards(key, c, id, patch, changed, base);
    if !FilterTouched(key, changed) {
      UntouchedFilterKeepsMembership(w, key.ContractScope(), key.ContractFilter(), changed, server[id], after[id]);
    }
  }

  lemma AbsentFitsIff(key: ListKey, c: ListCache, server: Server, after: Server, w: World,
                      id: string, patch: Patch, changed: Dims, base: Option<Issue>)
    requires Agrees(c, server, w, key) && ServerWrite(server, after, id, patch, base)
    requires Covers(changed, server[id], after[id]) && !Loaded(c, id)
    ensures var o := ReconcileList(key, c, id, patch, changed, base);
            Fits(key, w, c, server[id], after[id], o) <==>
            !WindowFails(key, w, c, server[id], after[id], patch, changed, base)
  {
    WriteIsInformed(key, w, server[id], after[id], patch, base, if base.Some? then base.value else server[id]);
    AbsentGuards(key, c, id, patch, changed, base);
    if !FilterTouched(key, changed) {
      UntouchedFilterKeepsMembership(w, key.ContractScope(), key.ContractFilter(), changed, server[id], after[id]);
    }
  }

  /** One list under one server write with flags that cover it: it is left wrong and unreported exactly when
      the date filter is at fault. */
  lemma ListKeepsAgreeingIff(key: ListKey, c: ListCache, server: Server, after: Server, w: World,
                             id: string, patch: Patch, changed: Dims, base: Option<Issue>)
    requires Agrees(c, server, w, key) && ServerWrite(server, after, id, patch, base)
    requires Covers(changed, server[id], after[id])
    ensures var o := ReconcileList(key, c, id, patch, changed, base);
            o.stale || Agrees(o.next, after, w, key) <==>
            !WindowFails(key, w, c, server[id], after[id], patch, changed, base)
  {
    ListAgreesIff(key, c, server, after, w, id, patch, changed, base);
    if Loaded(c, id) {
      LoadedFitsIff(key, c, server, after, w, id, patch, changed, base);
    } else {
      AbsentFitsIff(key, c, server, after, w, id, patch, changed, base);
    }
  }

  /** In particular a list without a date filter agrees again or is reported. */
  lemma ListKeepsAgreeing(key: ListKey, c: ListCache, server: Server, after: Server, w: World,
                          id: string, patch: Patch, changed: Dims, base: Option<Issue>)
    requires Agrees(c, server, w, key) && ServerWrite(server, after, id, patch, base)
    requires Covers(changed, server[id], after[id]) && key.sort.window.None?
    ensures var o := ReconcileList(key, c, id, patch, changed, base);
            o.stale || Agrees(o.next, after, w, key)
  {
    ListKeepsAgreeingIff(key, c, server, after, w, id, patch, changed, base);
  }

  /** With a filter on the creation date, which no write changes, the one failure left is the count-down
      of a card that was never counted. */
  lemma CreationWindowFailsIff(key: ListKey, c: ListCache, server: Server, after: Server, w: World,
                               id: string, patch: Patch, changed: Dims, base: Option<Issue>)
    requires Agrees(c, server, w, key) && ServerWrite(server, after, id, patch, base)
    requires Covers(changed, server[id], after[id]) && after[id].createdAt == server[id].createdAt
    requires key.sort.window.Some? && key.sort.window.value.field.CreatedAt?
    ensures var o := ReconcileList(key, c, id, patch, changed, base);
            !o.stale && !Agrees(o.next, after, w, key) <==>
            && CountsDown(key, c, id, patch, changed, base)
            && !InWindow(key.sort.window, server[id]) && GetBucket(c, server[id].status).total > 0
  {
    ListKeepsAgreeingIff(key, c, server, after, w, id, patch, changed, base);
    AgreeingLocation(c, server, w, key, id);
  }

  /** A server whose only row is the issue. */
  function Only(issue: Issue): Server {
    map[issue.id := issue]
  }

  function OneBucket(s: Status, b: Bucket): ListCache {
    ListCache(map[s := b])
  }

  /** The one bucket of a list over such a server, with its card loaded or only counted. */
  lemma OneBucketAgrees(issue: Issue, loaded: bool, w: World, key: ListKey)
    requires InList(w, key, issue)
    ensures Agrees(OneBucket(issue.status, Bucket(if loaded then [issue] else [], 1)), Only(issue), w, key)
  {
    var c := OneBucket(issue.status, Bucket(if loaded then [issue] else [], 1));
    forall s: Status ensures BucketAgrees(GetBucket(c, s), s, Matching(Only(issue), w, key, s), Only(issue)) {
      assert Matching(Only(issue), w, key, s) == if s == issue.status then {issue.id} else {};
    }
  }

  lemma EmptyAgrees(issue: Issue, w: World, key: ListKey)
    requires !InList(w, key, issue)
    ensures Agrees(ListCache(map[]), Only(issue), w, key)
  {
    forall s: Status
      ensures BucketAgrees(GetBucket(ListCache(map[]), s), s, Matching(Only(issue), w, key, s), Only(issue))
    {
      assert Matching(Only(issue), w, key, s) == {};
    }
  }

  // ----- a date filter at work -----

  lemma TwoRowServerAgrees(counted: Issue, other: Issue, w: World, key: ListKey)
    requires counted.id != other.id && InList(w, key, counted) && !InList(w, key, other)
    ensures Agrees(OneBucket(counted.status, Bucket([counted], 1)), Only(counted)[other.id := other], w, key)
  {
    var c, server := OneBucket(counted.status, Bucket([counted], 1)), Only(counted)[other.id := other];
    OneBucketAgrees(counted, true, w, key);
    forall s: Status ensures BucketAgrees(GetBucket(c, s), s, Matching(server, w, key, s), server) {
      assert BucketAgrees(GetBucket(c, s), s, Matching(Only(counted), w, key, s), Only(counted));
      assert Matching(server, w, key, s) == Matching(Only(counted), w, key, s);
    }
  }

  /** An issue that leaves the project of a list is counted down there. */
  lemma MoveOutIsCountedDown(key: ListKey, c: ListCache, issue: Issue, other: string)
    requires key.MyList? && key.scope != "all" && key.filter == NO_FILTER.(projectId := issue.projectId)
    requires issue.projectId.Some? && issue.projectId.value != other && !Loaded(c, issue.id)
    ensures var patch, base := EMPTY_PATCH.(projectId := Some(Some(other))), Some(issue);
            CountsDown(key, c, issue.id, patch, IssueChangedDims(patch, base), base)
  {
  }

  /** A project list filtered by creation date never counted an older issue of the project; when that
      issue moves to another project the list takes one off its total and is not reported. */
  lemma OlderIssueIsCountedDown(key: ListKey, w: World, recent: Issue, aged: Issue, other: string)
    requires key.MyList? && key.scope != "all" && key.sort.window.Some? && key.sort.window.value.field.CreatedAt?
    requires key.filter == NO_FILTER.(projectId := aged.projectId)
    requires aged.projectId.Some? && aged.projectId.value != other
    requires recent.projectId == aged.projectId && recent.status == aged.status && recent.id != aged.id
    requires InWindow(key.sort.window, recent) && !InWindow(key.sort.window, aged)
    ensures var patch, base := EMPTY_PATCH.(projectId := Some(Some(other))), Some(aged);
            var c, server := OneBucket(recent.status, Bucket([recent], 1)), Only(recent)[aged.id := aged];
            var o := ReconcileList(key, c, aged.id, patch, IssueChangedDims(patch, base), base);
            && Agrees(c, server, w, key)
            && !o.stale && !Agrees(o.next, server[aged.id := Merge(aged, patch)], w, key)
  {
    var patch, base := EMPTY_PATCH.(projectId := Some(Some(other))), Some(aged);
    var c, server := OneBucket(recent.status, Bucket([recent], 1)), Only(recent)[aged.id := aged];
    TwoRowServerAgrees(recent, aged, w, key);
    assert GetBucket(c, recent.status).issues == [recent] && aged.id !in Ids([recent]);
    var changed, after := IssueChangedDims(patch, base), server[aged.id := Merge(aged, patch)];
    ChangedDimsAreExact(patch, aged);
    assert aged.fields + patch.fields == aged.fields;
    MoveOutIsCountedDown(key, c, aged, other);
    CreationWindowFailsIff(key, c, server, after, w, aged.id, patch, changed, base);
  }

  /** For instance, with one issue from the window and one from before it. */
  lemma WindowedListMiscounts(w: World) returns (key: ListKey, c: ListCache, server: Server, patch: Patch)
    ensures |server| == 2 && "old" in server && patch == EMPTY_PATCH.(projectId := Some(Some("q")))
    ensures var aged := server["old"];
            var o := ReconcileList(key, c, "old", patch, IssueChangedDims(patch, Some(aged)), Some(aged));
            Agrees(c, server, w, key) && !o.stale && !Agrees(o.next, server["old" := Merge(aged, patch)], w, key)
  {
    var window := DateWindow(CreatedAt, 10, 20);
    key := MyList("project", NO_FILTER.(projectId := Some("p")), ListSort("position", Some(window)));
    patch := EMPTY_PATCH.(projectId := Some(Some("q")));
    var recent := Issue("new", Todo, None, None, "u", None, Some("p"), 0.0, 15, 15, map[]);
    var aged := recent.(id := "old", createdAt := 5);
    c, server := OneBucket(Todo, Bucket([recent], 1)), Only(recent)["old" := aged];
    OlderIssueIsCountedDown(key, w, recent, aged, "q");
  }

  // ----- writes whose flags miss something -----

  /** Whatever list without a date filter agreed before the write, it agrees after it or is reported. */
  ghost predicate AlwaysKept(before: Issue, row: Issue, patch: Patch, changed: Dims, base: Option<Issue>) {
    forall key: ListKey, c: ListCache, server: Server, w: World ::
      KeptIn(key, c, server, w, before, row, patch, changed, base)
  }

  ghost predicate KeptIn(key: ListKey, c: ListCache, server: Server, w: World, before: Issue, row: Issue,
                         patch: Patch, changed: Dims, base: Option<Issue>)
  {
    key.sort.window.None? && before.id in server && server[before.id] == before && Agrees(c, server, w, key) ==>
      var o := ReconcileList(key, c, before.id, patch, changed, base);
      o.stale || Agrees(o.next, server[before.id := row], w, key)
  }

  /** A column that stays, or is filled for the first time: no list loses the card by it. */
  predicate Enters<T(==)>(was: Option<T>, now: Option<T>) {
    was.None? || was == now
  }

  /** The flags name every group that moved. A first assignee or a first project may go unflagged if the status is
      flagged: no list that shows the card loses it, and every list without the card is looked at. */
  predicate Enough(changed: Dims, before: Issue, row: Issue) {
    && (before.assigneeId != row.assigneeId || before.assigneeType != row.assigneeType ==>
          || changed.assignee
          || (changed.status
              && Enters(before.assigneeId, row.assigneeId) && Enters(before.assigneeType, row.assigneeType)))
    && (before.projectId != row.projectId ==>
          changed.project || (changed.status && Enters(before.projectId, row.projectId)))
    && (before.status != row.status ==> changed.status)
  }

  /** A merge of the row with the patch, by the same creator. */
  predicate Writes(before: Issue, row: Issue, patch: Patch, base: Option<Issue>) {
    && SameRow(Merge(before, patch), row) && row.creatorId == before.creatorId
    && (base.Some? ==> SameRow(base.value, before))
  }

  /** A list whose filter no flag touches does not lose the card. */
  lemma UntouchedFilterKeepsCard(key: ListKey, w: World, before: Issue, row: Issue, changed: Dims)
    requires Enough(changed, before, row) && before.creatorId == row.creatorId
    requires !FilterTouched(key, changed) && BelongsTo(w, key, before)
    ensures BelongsTo(w, key, row)
  {
  }

  lemma EnoughFitsLoaded(key: ListKey, c: ListCache, server: Server, after: Server, w: World,
                         id: string, patch: Patch, changed: Dims, base: Option<Issue>)
    requires Agrees(c, server, w, key) && ServerWrite(server, after, id, patch, base) && key.sort.window.None?
    requires Enough(changed, server[id], after[id]) && Loaded(c, id)
    ensures Fits(key, w, c, server[id], after[id], ReconcileList(key, c, id, patch, changed, base))
  {
    var before, row := server[id], after[id];
    AgreeingIsValid(c, server, w, key);
    AgreeingLocation(c, server, w, key, id);
    CurrentLocation(c, server, id);
    var copy := FindIssueLocation(c, id).value.issue;
    WriteIsInformed(key, w, before, row, patch, Some(copy), copy);
    LoadedGuards(key, c, id, patch, changed, base);
    if !FilterTouched(key, changed) {
      UntouchedFilterKeepsCard(key, w, before, row, changed);
    }
  }

  lemma EnoughFitsAbsent(key: ListKey, c: ListCache, server: Server, after: Server, w: World,
                         id: string, patch: Patch, changed: Dims, base: Option<Issue>)
    requires Agrees(c, server, w, key) && ServerWrite(server, after, id, patch, base) && key.sort.window.None?
    requires Enough(changed, server[id], after[id]) && changed.status && !Loaded(c, id)
    ensures Fits(key, w, c, server[id], after[id], ReconcileList(key, c, id, patch, changed, base))
  {
    WriteIsInformed(key, w, server[id], after[id], patch, base, if base.Some? then base.value else server[id]);
  }

  lemma EnoughFits(key: ListKey, c: ListCache, server: Server, after: Server, w: World,
                   id: string, patch: Patch, changed: Dims, base: Option<Issue>)
    requires Agrees(c, server, w, key) && ServerWrite(server, after, id, patch, base) && key.sort.window.None?
    requires Enough(changed, server[id], after[id])
    ensures Fits(key, w, c, server[id], after[id], ReconcileList(key, c, id, patch, changed, base))
  {
    if Covers(changed, server[id], after[id]) {
      ListAgreesIff(key, c, server, after, w, id, patch, changed, base);
      ListKeepsAgreeing(key, c, server, after, w, id, patch, changed, base);
    } else if Loaded(c, id) {
      EnoughFitsLoaded(key, c, server, after, w, id, patch, changed, base);
    } else {
      EnoughFitsAbsent(key, c, server, after, w, id, patch, changed, base);
    }
  }

  const UNSORTED := ListSort("", None)

  /** An unflagged status move: a list that only counts the card keeps its counts. */
  lemma MissedStatusDrifts(before: Issue, row: Issue, patch: Patch, changed: Dims, base: Option<Issue>, w: World)
    requires Writes(before, row, patch, base) && before.status != row.status && !changed.status
    ensures !KeptIn(WorkspaceList(UNSORTED), OneBucket(before.status, Bucket([], 1)), Only(before), w,
                    before, row, patch, changed, base)
  {
    var key, c := WorkspaceList(UNSORTED), OneBucket(before.status, Bucket([], 1));
    OneBucketAgrees(before, false, w, key);
    ListAgreesIff(key, c, Only(before), Only(before)[before.id := row], w, before.id, patch, changed, base);
    assert !Loaded(c, before.id);
    assert !FilterTouched(key, changed);
  }

  /** A loaded card that leaves a list whose filter no flag touches stays there. */
  lemma UntouchedCardStays(key: ListKey, before: Issue, row: Issue, patch: Patch, changed: Dims, base: Option<Issue>,
                           w: World)
    requires Writes(before, row, patch, base) && key.sort.window.None? && !FilterTouched(key, changed)
    requires InList(w, key, before) && !InList(w, key, row)
    ensures !KeptIn(key, OneBucket(before.status, Bucket([before], 1)), Only(before), w,
                    before, row, patch, changed, base)
  {
    var c := OneBucket(before.status, Bucket([before], 1));
    OneBucketAgrees(before, true, w, key);
    AgreeingIsValid(c, Only(before), w, key);
    assert GetBucket(c, before.status).issues == [before] && before.id in Ids([before]);
    LocationIs(c, before.id, before.status);
    PatchKeeps(c, before.id, patch);
    ListAgreesIff(key, c, Only(before), Only(before)[before.id := row], w, before.id, patch, changed, base);
  }

  /** A card that enters a list that no flag makes the rules look at is not counted. */
  lemma UntouchedCardIsMissed(key: ListKey, before: Issue, row: Issue, patch: Patch, changed: Dims,
                              base: Option<Issue>, w: World)
    requires Writes(before, row, patch, base) && key.sort.window.None?
    requires !FilterTouched(key, changed) && !changed.status
    requires !InList(w, key, before) && InList(w, key, row)
    ensures !KeptIn(key, ListCache(map[]), Only(before), w, before, row, patch, changed, base)
  {
    EmptyAgrees(before, w, key);
    var c, server := ListCache(map[]), Only(before);
    ListAgreesIff(key, c, server, server[before.id := row], w, before.id, patch, changed, base);
  }

  /** An assignee that moves unflagged: the list of the old assignee, or of the new one, is wrong. */
  lemma MissedAssigneeDrifts(before: Issue, row: Issue, patch: Patch, changed: Dims, base: Option<Issue>, w: World)
    returns (key: ListKey, c: ListCache)
    requires Writes(before, row, patch, base) && !changed.assignee
    requires before.assigneeId != row.assigneeId || before.assigneeType != row.assigneeType
    requires || !changed.status
             || !Enters(before.assigneeId, row.assigneeId) || !Enters(before.assigneeType, row.assigneeType)
    ensures !KeptIn(key, c, Only(before), w, before, row, patch, changed, base)
  {
    if !Enters(before.assigneeId, row.assigneeId) {
      key := MyList("assigned", NO_FILTER.(assigneeId := before.assigneeId), UNSORTED);
      c := OneBucket(before.status, Bucket([before], 1));
      UntouchedCardStays(key, before, row, patch, changed, base, w);
    } else if !Enters(before.assigneeType, row.assigneeType) {
      key := MyList("type", NO_FILTER.(assigneeTypes := Some([before.assigneeType.value])), UNSORTED);
      c := OneBucket(before.status, Bucket([before], 1));
      UntouchedCardStays(key, before, row, patch, changed, base, w);
    } else if before.assigneeId != row.assigneeId {
      key, c := MyList("assigned", NO_FILTER.(assigneeId := row.assigneeId), UNSORTED), ListCache(map[]);
      UntouchedCardIsMissed(key, before, row, patch, changed, base, w);
    } else {
      key := MyList("type", NO_FILTER.(assigneeTypes := Some([row.assigneeType.value])), UNSORTED);
      c := ListCache(map[]);
      UntouchedCardIsMissed(key, before, row, patch, changed, base, w);
    }
  }

  lemma MissedProjectDrifts(before: Issue, row: Issue, patch: Patch, changed: Dims, base: Option<Issue>, w: World)
    returns (key: ListKey, c: ListCache)
    requires Writes(before, row, patch, base) && !changed.project && before.projectId != row.projectId
    requires !changed.status || !Enters(before.projectId, row.projectId)
    ensures !KeptIn(key, c, Only(before), w, before, row, patch, changed, base)
  {
    if before.projectId.Some? {
      key := MyList("project", NO_FILTER.(projectId := before.projectId), UNSORTED);
      c := OneBucket(before.status, Bucket([before], 1));
      UntouchedCardStays(key, before, row, patch, changed, base, w);
    } else {
      key, c := MyList("project", NO_FILTER.(projectId := row.projectId), UNSORTED), ListCache(map[]);
      UntouchedCardIsMissed(key, before, row, patch, changed, base, w);
    }
  }

  /** A list, over a server with the one issue, that the missing flag lets drift, whatever belongs to whom. */
  lemma MissedListDrifts(before: Issue, row: Issue, patch: Patch, changed: Dims, base: Option<Issue>, w: World)
    returns (key: ListKey, c: ListCache)
    requires Writes(before, row, patch, base) && !Enough(changed, before, row)
    ensures !KeptIn(key, c, Only(before), w, before, row, patch, changed, base)
  {
    if before.status != row.status && !changed.status {
      key, c := WorkspaceList(UNSORTED), OneBucket(before.status, Bucket([], 1));
      MissedStatusDrifts(before, row, patch, changed, base, w);
    } else if before.projectId == row.projectId || changed.project
              || (changed.status && Enters(before.projectId, row.projectId)) {
      key, c := MissedAssigneeDrifts(before, row, patch, changed, base, w);
    } else {
      key, c := MissedProjectDrifts(before, row, patch, changed, base, w);
    }
  }

  /** For a given row and write, every agreeing list agrees again or is reported exactly when the flags
      are enough. */
  lemma FlagsDecide(before: Issue, row: Issue, patch: Patch, changed: Dims, base: Option<Issue>)
    requires Writes(before, row, patch, base)
    ensures AlwaysKept(before, row, patch, changed, base) <==> Enough(changed, before, row)
  {
    if Enough(changed, before, row) {
      forall key: ListKey, c: ListCache, server: Server, w: World
        ensures KeptIn(key, c, server, w, before, row, patch, changed, base)
      {
        if key.sort.window.None? && before.id in server && server[before.id] == before && Agrees(c, server, w, key) {
          var after := server[before.id := row];
          EnoughFits(key, c, server, after, w, before.id, patch, changed, base);
          ListAgreesIff(key, c, server, after, w, before.id, patch, changed, base);
        }
      }
    } else {
      var w := World("me", (u, t, a) => false);
      var key, c := MissedListDrifts(before, row, patch, changed, base, w);
      assert !KeptIn(key, c, Only(before), w, before, row, patch, changed, base);
    }
  }

  /** An issue is unassigned, and the event, which carries the written row, says that no group moved: the
      card stays in the list of its old assignee, unreported. */
  lemma UnassignedCardStays(before: Issue, at: int, w: World, sort: ListSort)
    requires before.assigneeId.Some? && sort.window.None?
    ensures var key := MyList("assigned", NO_FILTER.(assigneeId := before.assigneeId), sort);
            var row := before.(assigneeType := None, assigneeId := None, updatedAt := at);
            var c := OneBucket(before.status, Bucket([before], 1));
            var o := ReconcileList(key, c, before.id, AsPatch(row), Dims(false, false, false), Some(before));
            && Agrees(c, Only(before), w, key)
            && !o.stale && !Agrees(o.next, Only(before)[before.id := row], w, key)
  {
    var key := MyList("assigned", NO_FILTER.(assigneeId := before.assigneeId), sort);
    var row := before.(assigneeType := None, assigneeId := None, updatedAt := at);
    OneBucketAgrees(before, true, w, key);
    assert before.fields + row.fields == row.fields;
    UntouchedCardStays(key, before, row, AsPatch(row), Dims(false, false, false), Some(before), w);
  }
}

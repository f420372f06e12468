/** The optimistic lifecycle of issue updates (packages/core/issues/mutations.ts): replaying a
    write counts it once, and a failed write leaves no trace. */
module Mutations {
  import opened Options
  import opened Sequences
  import opened IssueTypes
  import opened InboxTypes
  import opened Membership
  import opened Buckets
  import opened Coordinator
  import opened Agreement
  import opened Drift
  import opened CacheRuns
  import opened WsUpdaters

  // ----- exactly-once counting -----

  ghost predicate SameCounts(c: ListCache, next: ListCache) {
    forall s: Status ::
      && GetBucket(next, s).total == GetBucket(c, s).total
      && Ids(GetBucket(next, s).issues) == Ids(GetBucket(c, s).issues)
  }

  /** The rule that would take a loaded card off the list. */
  predicate Evicts(key: ListKey, c: ListCache, id: string, patch: Patch, changed: Dims) {
    var loc := FindIssueLocation(c, id);
    loc.Some? && FilterTouched(key, changed) && Matches(key, Spread(Some(loc.value.issue), patch)).No?
  }

  /** What the rules do to a list that holds the card. */
  lemma LoadedOutcome(key: ListKey, c: ListCache, id: string, patch: Patch, changed: Dims, base: Option<Issue>)
    requires FindIssueLocation(c, id).Some?
    ensures ReconcileList(key, c, id, patch, changed, base).next ==
            if Evicts(key, c, id, patch, changed) then RemoveIssueFromBuckets(c, id)
            else PatchIssueInBuckets(c, id, patch)
  {
  }

  /** A write that moves none of the columns the rules read: a replay, or a full row of which the entity
      is an older copy. */
  predicate Settles(issue: Issue, patch: Patch) {
    var next := Merge(issue, patch);
    && next.status == issue.status && next.creatorId == issue.creatorId && next.projectId == issue.projectId
    && next.assigneeId == issue.assigneeId && next.assigneeType == issue.assigneeType
  }

  lemma SettledIsJudgedAlike(key: ListKey, issue: Issue, patch: Patch)
    requires Settles(issue, patch)
    ensures Matches(key, AsPatch(Merge(issue, patch))) == Matches(key, AsPatch(issue))
  {
  }

  /** A card that is not loaded never moves a count once its base shows the written columns (or is unknown). */
  lemma AbsentReplay(key: ListKey, c: ListCache, id: string, patch: Patch, changed: Dims, base: Option<Issue>)
    requires FindIssueLocation(c, id).None? && (base.Some? ==> Settles(base.value, patch))
    ensures ReconcileList(key, c, id, patch, changed, base).next == c
  {
    if base.Some? {
      SettledIsJudgedAlike(key, base.value, patch);
    }
  }

  lemma RemovalMovesCounts(c: ListCache, id: string)
    requires Valid(c) && FindIssueLocation(c, id).Some?
    ensures !SameCounts(c, RemoveIssueFromBuckets(c, id))
  {
    var s := FindIssueLocation(c, id).value.status;
    RemoveKeeps(c, id);
    assert id in Ids(GetBucket(c, s).issues) && id !in Ids(GetBucket(RemoveIssueFromBuckets(c, id), s).issues);
  }

  lemma PatchMovesCountsIff(c: ListCache, id: string, patch: Patch, next: ListCache)
    requires Valid(c) && FindIssueLocation(c, id).Some? && next == PatchIssueInBuckets(c, id, patch)
    ensures var s := FindIssueLocation(c, id).value.status;
            SameCounts(c, next) <==> Pick(patch.status, s) == s
  {
    var Location(s, row) := FindIssueLocation(c, id).value;
    LocationIs(c, id, s);
    if Merge(row, patch).status == s {
      StayMovesNoCount(c, id, patch, s, row);
    } else {
      MoveMovesCounts(c, id, patch, s, row);
    }
  }

  lemma StayMovesNoCount(c: ListCache, id: string, patch: Patch, s: Status, row: Issue)
    requires Valid(c) && FindIssueLocation(c, id) == Some(Location(s, row)) && row.status == s
    requires Merge(row, patch).status == s
    ensures SameCounts(c, PatchIssueInBuckets(c, id, patch))
  {
    PatchShape(c, id, patch, s, row);
    assert BucketOk(GetBucket(c, s), s);
    PatchColumnKeeps(GetBucket(c, s).issues, row, patch, id);
  }

  lemma MoveMovesCounts(c: ListCache, id: string, patch: Patch, s: Status, row: Issue)
    requires Valid(c) && FindIssueLocation(c, id) == Some(Location(s, row)) && row.status == s
    requires Merge(row, patch).status != s
    ensures !SameCounts(c, PatchIssueInBuckets(c, id, patch))
  {
    var next := PatchIssueInBuckets(c, id, patch);
    PatchKeeps(c, id, patch);
    if id in Ids(GetBucket(next, s).issues) { LocationIs(next, id, s); }
    assert id in Ids(GetBucket(c, s).issues) && id !in Ids(GetBucket(next, s).issues);
  }

  /** A write whose base already shows the columns the rules read (an echo, or the server's answer) moves
      no count and no card, whatever the flags say, exactly when the loaded card, if any, is in the column
      the write names and is not judged out of the list. */
  lemma ReplayMovesNothingIff(key: ListKey, c: ListCache, id: string, patch: Patch, changed: Dims, base: Option<Issue>)
    requires Valid(c) && (base.Some? ==> Settles(base.value, patch))
    ensures var loc := FindIssueLocation(c, id);
            SameCounts(c, ReconcileList(key, c, id, patch, changed, base).next) <==>
            (loc.Some? ==>
               Pick(patch.status, loc.value.status) == loc.value.status && !Evicts(key, c, id, patch, changed))
  {
    if FindIssueLocation(c, id).Some? {
      LoadedOutcome(key, c, id, patch, changed, base);
      RemovalMovesCounts(c, id);
      PatchMovesCountsIff(c, id, patch, PatchIssueInBuckets(c, id, patch));
    } else {
      AbsentReplay(key, c, id, patch, changed, base);
    }
  }

  /** The flags of the second pass name nothing the first did not. */
  predicate Within(second: Dims, first: Dims) {
    && (second.assignee ==> first.assignee) && (second.project ==> first.project) && (second.status ==> first.status)
  }

  /** The same patch again, with a base that carries it, is not even seen. */
  lemma ListEchoIsNoOp(key: ListKey, c: ListCache, id: string, patch: Patch, first: Dims, base: Option<Issue>,
                       second: Dims, base': Option<Issue>)
    requires Valid(c) && Within(second, first) && (base'.Some? ==> Settles(base'.value, patch))
    ensures var once := ReconcileList(key, c, id, patch, first, base).next;
            ReconcileList(key, once, id, patch, second, base').next == once
  {
    var once := ReconcileList(key, c, id, patch, first, base).next;
    var loc := FindIssueLocation(c, id);
    if loc.Some? {
      LoadedOutcome(key, c, id, patch, first, base);
      if Evicts(key, c, id, patch, first) {
        RemoveKeeps(c, id);
        AbsentReplay(key, once, id, patch, second, base');
      } else {
        PatchedEchoIsNoOp(key, c, id, patch, first, second, base');
      }
    } else {
      AbsentStaysAbsent(key, c, id, patch, first, base);
      AbsentReplay(key, once, id, patch, second, base');
    }
  }

  lemma PatchedEchoIsNoOp(key: ListKey, c: ListCache, id: string, patch: Patch, first: Dims, second: Dims,
                          base': Option<Issue>)
    requires Valid(c) && Within(second, first) && FindIssueLocation(c, id).Some? && !Evicts(key, c, id, patch, first)
    ensures var once := PatchIssueInBuckets(c, id, patch);
            ReconcileList(key, once, id, patch, second, base').next == once
  {
    var once := PatchIssueInBuckets(c, id, patch);
    var row := FindIssueLocation(c, id).value.issue;
    PatchKeeps(c, id, patch);
    MergedCarries(row, patch);
    assert Merge(Merge(row, patch), patch) == Merge(row, patch);
    assert !Evicts(key, once, id, patch, second);
    LoadedOutcome(key, once, id, patch, second, base');
    CarriedPatchIsNoOp(once, id, patch);
  }

  lemma {:induction false} PatchInboxTwice(rows: seq<InboxItem>, id: string, status: Status)
    ensures PatchInboxIssueStatus(PatchInboxIssueStatus(rows, id, status), id, status) ==
            PatchInboxIssueStatus(rows, id, status)
  {
    if rows != [] {
      PatchInboxTwice(rows[1..], id, status);
      assert PatchInboxIssueStatus(rows, id, status)[1..] == PatchInboxIssueStatus(rows[1..], id, status);
    }
  }

  /** A write delivered twice is a write delivered once: the second time lists, details and inbox stay
      exactly as they are. */
  lemma EchoChangesNothing(s: CacheState, id: string, patch: Patch, first: Dims, base: Option<Issue>, second: Dims,
                           base': Option<Issue>)
    requires Within(second, first) && (base'.Some? ==> Settles(base'.value, patch))
    requires forall key <- s.lists :: s.lists[key].ByStatus? ==> Valid(s.lists[key].cache)
    ensures var once := ApplyChange(s, id, patch, first, base);
            ApplyChange(once, id, patch, second, base') == once
  {
    var once := ApplyChange(s, id, patch, first, base);
    var twice := ApplyChange(once, id, patch, second, base');
    forall key | key in s.lists ensures twice.lists[key] == once.lists[key] {
      if s.lists[key].ByStatus? {
        ListEchoIsNoOp(key, s.lists[key].cache, id, patch, first, base, second, base');
      }
    }
    assert twice.lists == once.lists;
    if id in s.details { MergedCarries(s.details[id], patch); }
    if s.inbox.Some? && patch.status.Some? { PatchInboxTwice(s.inbox.value, id, patch.status.value); }
  }

  // ----- an optimistic write, and then what the server says about it -----

  /** Every loaded copy of the issue will show the columns of `row` once it has taken the patch. */
  ghost predicate CopiesSettle(s: CacheState, id: string, patch: Patch, row: Issue) {
    && (forall key <- s.lists :: s.lists[key].ByStatus? ==>
          Valid(s.lists[key].cache) && (Loaded(s.lists[key].cache, id) ==>
          Settles(Merge(FindIssueLocation(s.lists[key].cache, id).value.issue, patch), AsPatch(row))))
    && (id in s.details ==> Settles(Merge(s.details[id], patch), AsPatch(row)))
  }

  ghost predicate SameListCounts(s: CacheState, next: CacheState) {
    && next.lists.Keys == s.lists.Keys
    && forall key <- s.lists :: s.lists[key].ByStatus? ==>
         next.lists[key].ByStatus? && SameCounts(s.lists[key].cache, next.lists[key].cache)
  }

  /** The optimistic half of an update as the coordinator sees it. */
  function Optimistic(s: CacheState, id: string, patch: Patch): CacheState {
    var base := Lookup(s.details, id);
    ApplyChange(s, id, patch, IssueChangedDims(patch, base), base)
  }

  /** onSuccess: the row the server stored, against the intent of the write. */
  function Reconciled(s: CacheState, id: string, intent: Patch, row: Issue): CacheState {
    ApplyChange(s, id, AsPatch(row), IssueChangedDims(intent, Some(row)), Some(row))
  }

  /** The answer is shown: by the detail, and by every list that still holds the card. */
  lemma AnswerIsShown(s: CacheState, id: string, intent: Patch, row: Issue, key: ListKey)
    requires key in s.lists && s.lists[key].ByStatus? && Valid(s.lists[key].cache)
    ensures var next := Reconciled(s, id, intent, row);
            && (id in s.details ==> id in next.details && ShowsWrite(s.details[id], next.details[id], AsPatch(row)))
            && key in next.lists && next.lists[key].ByStatus?
            && var c, c' := s.lists[key].cache, next.lists[key].cache;
               Loaded(c, id) && Loaded(c', id) ==>
                 ShowsWrite(FindIssueLocation(c, id).value.issue, FindIssueLocation(c', id).value.issue, AsPatch(row))
  {
    var changed := IssueChangedDims(intent, Some(row));
    ChangeShowsWrite(s, id, AsPatch(row), changed, Some(row));
    if Loaded(s.lists[key].cache, id) {
      var other := id + "'";
      assert |other| > |id|;
      LoadedListShowsWrite(key, s.lists[key].cache, id, AsPatch(row), changed, Some(row), other);
    }
  }

  /** A copy that is loaded after a change was loaded before it, and shows the columns of the row. */
  lemma CopySettles(key: ListKey, c: ListCache, id: string, patch: Patch, changed: Dims, base: Option<Issue>,
                    row: Issue)
    requires Valid(c)
    requires var loc := FindIssueLocation(c, id); loc.Some? ==> Settles(Merge(loc.value.issue, patch), AsPatch(row))
    ensures var loc := FindIssueLocation(ReconcileList(key, c, id, patch, changed, base).next, id);
            loc.Some? ==> Settles(loc.value.issue, AsPatch(row))
  {
    if FindIssueLocation(c, id).None? {
      AbsentStaysAbsent(key, c, id, patch, changed, base);
    } else if Evicts(key, c, id, patch, changed) {
      LoadedOutcome(key, c, id, patch, changed, base);
      RemoveKeeps(c, id);
    } else {
      LoadedOutcome(key, c, id, patch, changed, base);
      PatchKeeps(c, id, patch);
    }
  }

  lemma AbsentStaysAbsent(key: ListKey, c: ListCache, id: string, patch: Patch, changed: Dims, base: Option<Issue>)
    requires FindIssueLocation(c, id).None?
    ensures FindIssueLocation(ReconcileList(key, c, id, patch, changed, base).next, id).None?
  {
    AbsentOutcome(key, c, id, patch, changed, base);
  }

  // ----- any number of answers and echoes -----

  /** The list has taken the write: a loaded copy shows the columns of the row, and the groups that the write
      moved do not judge it out. */
  ghost predicate QuietList(key: ListKey, c: ListCache, id: string, row: Issue, moved: Dims) {
    Loaded(c, id) ==>
      && Valid(c)
      && Settles(FindIssueLocation(c, id).value.issue, AsPatch(row))
      && (FilterTouched(key, moved) ==> !Matches(key, AsPatch(row)).No?)
  }

  ghost predicate Quiet(s: CacheState, id: string, row: Issue, moved: Dims) {
    && (forall key <- s.lists :: s.lists[key].ByStatus? ==> QuietList(key, s.lists[key].cache, id, row, moved))
    && (id in s.details ==> Settles(s.details[id], AsPatch(row)))
  }

  lemma MergedRowIsJudgedAlike(key: ListKey, copy: Issue, row: Issue)
    ensures Matches(key, AsPatch(Merge(copy, AsPatch(row)))) == Matches(key, AsPatch(row))
    ensures Settles(Merge(copy, AsPatch(row)), AsPatch(row))
  {
  }

  lemma WrittenListIsQuiet(key: ListKey, c: ListCache, id: string, patch: Patch, first: Dims, base: Option<Issue>,
                           row: Issue)
    requires Valid(c)
    requires var loc := FindIssueLocation(c, id); loc.Some? ==> Settles(Merge(loc.value.issue, patch), AsPatch(row))
    ensures QuietList(key, ReconcileList(key, c, id, patch, first, base).next, id, row, first)
  {
    CopySettles(key, c, id, patch, first, base, row);
    if FindIssueLocation(c, id).None? {
      AbsentStaysAbsent(key, c, id, patch, first, base);
    } else {
      var merged := Merge(FindIssueLocation(c, id).value.issue, patch);
      LoadedOutcome(key, c, id, patch, first, base);
      PatchKeeps(c, id, patch);
      RemoveKeeps(c, id);
      SettledIsJudgedAlike(key, merged, AsPatch(row));
      MergedRowIsJudgedAlike(key, merged, row);
    }
  }

  lemma QuietListEcho(key: ListKey, c: ListCache, id: string, row: Issue, moved: Dims, second: Dims,
                      base': Option<Issue>)
    requires QuietList(key, c, id, row, moved) && Within(second, moved)
    requires base'.Some? ==> Settles(base'.value, AsPatch(row))
    ensures var next := ReconcileList(key, c, id, AsPatch(row), second, base').next;
            SameCounts(c, next) && QuietList(key, next, id, row, moved)
  {
    if Loaded(c, id) {
      ReplayMovesNothingIff(key, c, id, AsPatch(row), second, base');
      var Location(s, copy) := FindIssueLocation(c, id).value;
      LocationIs(c, id, s);
      MergedRowIsJudgedAlike(key, copy, row);
      assert !Evicts(key, c, id, AsPatch(row), second);
      LoadedOutcome(key, c, id, AsPatch(row), second, base');
      PatchKeeps(c, id, AsPatch(row));
    } else {
      AbsentReplay(key, c, id, AsPatch(row), second, base');
    }
  }

  lemma QuietEcho(s: CacheState, id: string, row: Issue, moved: Dims, second: Dims, base': Option<Issue>)
    requires Quiet(s, id, row, moved) && Within(second, moved)
    requires base'.Some? ==> Settles(base'.value, AsPatch(row))
    ensures var next := ApplyChange(s, id, AsPatch(row), second, base');
            SameListCounts(s, next) && Quiet(next, id, row, moved)
  {
    var next := ApplyChange(s, id, AsPatch(row), second, base');
    forall key | key in s.lists && s.lists[key].ByStatus?
      ensures next.lists[key].ByStatus? && SameCounts(s.lists[key].cache, next.lists[key].cache)
      ensures QuietList(key, next.lists[key].cache, id, row, moved)
    {
      QuietListEcho(key, s.lists[key].cache, id, row, moved, second, base');
    }
  }

  /** What the server says about the write afterwards: its answer, or the event it broadcasts. */
  datatype Reply = Answer(intent: Patch) | Echo(meta: Meta)

  function Receive(s: CacheState, id: string, row: Issue, reply: Reply): CacheState {
    match reply
    case Answer(intent) => Reconciled(s, id, intent, row)
    case Echo(meta) => Updated(s, id, AsPatch(row), meta)
  }

  function ReceiveAll(s: CacheState, id: string, row: Issue, replies: seq<Reply>): CacheState
    decreases |replies|
  {
    if replies == [] then s else ReceiveAll(Receive(s, id, row, replies[0]), id, row, replies[1..])
  }

  /** Replies are taken one after the other. */
  lemma {:induction false} ReceivedInTurn(s: CacheState, id: string, row: Issue, replies: seq<Reply>, reply: Reply)
    ensures ReceiveAll(s, id, row, replies + [reply]) == Receive(ReceiveAll(s, id, row, replies), id, row, reply)
    decreases |replies|
  {
    if replies == [] {
      assert [] + [reply] == [reply];
      assert ReceiveAll(s, id, row, [reply]) == ReceiveAll(Receive(s, id, row, reply), id, row, []);
    } else {
      assert (replies + [reply])[0] == replies[0] && (replies + [reply])[1..] == replies[1..] + [reply];
      ReceivedInTurn(Receive(s, id, row, replies[0]), id, row, replies[1..], reply);
    }
  }

  /** The answer is to an intent that the row shows, and no flag names a group that the write did not move. */
  predicate Truthful(s: CacheState, id: string, row: Issue, moved: Dims, reply: Reply) {
    match reply
    case Answer(intent) => Settles(row, intent)
    case Echo(meta) =>
      && (meta.assignee == Some(true) ==> moved.assignee) && (meta.status == Some(true) ==> moved.status)
      && (meta.project == Some(true) ==> moved.project)
      && (meta.project.None? && CachedIssue(s, id).None? && row.projectId.Some? ==> moved.project)
  }

  /** No change takes away the copy that the handler looks up: the workspace list has no filter to lose it by. */
  lemma {:induction false} FirstCopyStays(order: seq<ListKey>, s: CacheState, id: string, patch: Patch, changed: Dims,
                                          base: Option<Issue>)
    requires forall key <- s.lists ::
               s.lists[key].ByStatus? && Loaded(s.lists[key].cache, id) ==> Valid(s.lists[key].cache)
    ensures FirstListCopy(order, s.lists, id).Some? ==>
            FirstListCopy(order, ApplyChange(s, id, patch, changed, base).lists, id).Some?
  {
    if order != [] {
      FirstCopyStays(order[1..], s, id, patch, changed, base);
      var key := order[0];
      if key.WorkspaceList? && key in s.lists && s.lists[key].ByStatus? && Loaded(s.lists[key].cache, id) {
        LoadedOutcome(key, s.lists[key].cache, id, patch, changed, base);
        PatchKeeps(s.lists[key].cache, id, patch);
      }
    }
  }

  lemma {:induction false} QuietCopySettles(order: seq<ListKey>, s: CacheState, id: string, row: Issue, moved: Dims)
    requires Quiet(s, id, row, moved)
    ensures var copy := FirstListCopy(order, s.lists, id); copy.Some? ==> Settles(copy.value, AsPatch(row))
  {
    if order != [] {
      QuietCopySettles(order[1..], s, id, row, moved);
    }
  }

  lemma ReceiptIsQuiet(s: CacheState, id: string, row: Issue, moved: Dims, reply: Reply)
    requires Quiet(s, id, row, moved) && Truthful(s, id, row, moved, reply)
    ensures var next := Receive(s, id, row, reply);
            && SameListCounts(s, next) && Quiet(next, id, row, moved)
            && (CachedIssue(s, id).Some? ==> CachedIssue(next, id).Some?)
  {
    match reply {
      case Answer(intent) =>
        var dims := IssueChangedDims(intent, Some(row));
        QuietEcho(s, id, row, moved, dims, Some(row));
        FirstCopyStays(s.order, s, id, AsPatch(row), dims, Some(row));
      case Echo(meta) =>
        var cached := CachedIssue(s, id);
        QuietCopySettles(s.order, s, id, row, moved);
        QuietEcho(s, id, row, moved, WsDims(AsPatch(row), meta, cached), cached);
        FirstCopyStays(s.order, s, id, AsPatch(row), WsDims(AsPatch(row), meta, cached), cached);
    }
  }

  lemma SameCountsAgain(s: CacheState, t: CacheState, u: CacheState)
    requires SameListCounts(s, t) && SameListCounts(t, u)
    ensures SameListCounts(s, u)
  {
    forall key | key in s.lists && s.lists[key].ByStatus?
      ensures u.lists[key].ByStatus? && SameCounts(s.lists[key].cache, u.lists[key].cache)
    {
      assert SameCounts(s.lists[key].cache, t.lists[key].cache) && SameCounts(t.lists[key].cache, u.lists[key].cache);
    }
  }

  lemma {:induction false} QuietReceivesAll(s: CacheState, id: string, row: Issue, moved: Dims, replies: seq<Reply>)
    requires Quiet(s, id, row, moved) && forall reply <- replies :: Truthful(s, id, row, moved, reply)
    ensures SameListCounts(s, ReceiveAll(s, id, row, replies))
    decreases |replies|
  {
    if replies != [] {
      var next := Receive(s, id, row, replies[0]);
      ReceiptIsQuiet(s, id, row, moved, replies[0]);
      forall reply | reply in replies[1..] ensures Truthful(next, id, row, moved, reply) {
        assert reply in replies;
      }
      QuietReceivesAll(next, id, row, moved, replies[1..]);
      SameCountsAgain(s, next, ReceiveAll(s, id, row, replies));
    }
  }

  /** An optimistic write counts once in every list, reported or not, however many answers and echoes of it
      follow, in whatever order. */
  lemma WriteCountsOnce(s: CacheState, id: string, patch: Patch, row: Issue, replies: seq<Reply>)
    requires CopiesSettle(s, id, patch, row)
    requires forall reply <- replies :: Truthful(s, id, row, IssueChangedDims(patch, Lookup(s.details, id)), reply)
    ensures SameListCounts(Optimistic(s, id, patch), ReceiveAll(Optimistic(s, id, patch), id, row, replies))
  {
    var base := Lookup(s.details, id);
    var moved := IssueChangedDims(patch, base);
    var once := Optimistic(s, id, patch);
    forall key | key in once.lists && once.lists[key].ByStatus?
      ensures QuietList(key, once.lists[key].cache, id, row, moved)
    {
      WrittenListIsQuiet(key, s.lists[key].cache, id, patch, moved, base, row);
    }
    FirstCopyStays(s.order, s, id, patch, moved, base);
    QuietReceivesAll(once, id, row, moved, replies);
  }

  /** Its answer alone, the row of onSuccess, differing from the optimistic copy in any other column. */
  lemma AnswerCountsOnce(s: CacheState, id: string, patch: Patch, row: Issue)
    requires CopiesSettle(s, id, patch, row) && Settles(row, patch)
    ensures SameListCounts(Optimistic(s, id, patch), Reconciled(Optimistic(s, id, patch), id, patch, row))
  {
    var once, reply := Optimistic(s, id, patch), Answer(patch);
    WriteCountsOnce(s, id, patch, row, [reply]);
    assert ReceiveAll(once, id, row, [reply]) == Receive(once, id, row, reply);
  }

  /** Its WebSocket echo alone, judged against the copy that the handler itself looks up. */
  lemma WsEchoCountsOnce(s: CacheState, id: string, patch: Patch, row: Issue, meta: Meta)
    requires CopiesSettle(s, id, patch, row)
    requires Truthful(s, id, row, IssueChangedDims(patch, Lookup(s.details, id)), Echo(meta))
    ensures SameListCounts(Optimistic(s, id, patch), Updated(Optimistic(s, id, patch), id, AsPatch(row), meta))
  {
    var once, reply := Optimistic(s, id, patch), Echo(meta);
    WriteCountsOnce(s, id, patch, row, [reply]);
    assert ReceiveAll(once, id, row, [reply]) == Receive(once, id, row, reply);
  }

  predicate RowsWithinTotals(c: ListCache) {
    forall s: Status :: |GetBucket(c, s).issues| <= GetBucket(c, s).total
  }

  lemma CurrentIsValid(c: ListCache, server: Server)
    requires ListCurrent(c, server) && RowsWithinTotals(c)
    ensures Valid(c)
  {
    forall s: Status ensures BucketOk(GetBucket(c, s), s) {
      assert Current(GetBucket(c, s).issues, s, server);
    }
    forall s: Status, t: Status | s != t ensures Ids(GetBucket(c, s).issues) !! Ids(GetBucket(c, t).issues) {
      forall i | i in Ids(GetBucket(c, s).issues) ensures i !in Ids(GetBucket(c, t).issues) {
        CurrentElsewhere(c, server, i, s);
        if i in Ids(GetBucket(c, t).issues) { CurrentElsewhere(c, server, i, t); }
      }
    }
  }

  /** In a cache that is right, whatever is excepted, the copies settle for the row that the server stores. */
  lemma RightCopiesSettle(s: CacheState, server: Server, w: World, excepted: set<ListKey>, e: Event)
    requires Keyed(server) && Right(s, server, w, excepted) && Possible(server, e) && e.Mutated?
    requires forall key <- s.lists :: s.lists[key].ByStatus? ==> RowsWithinTotals(s.lists[key].cache)
    ensures CopiesSettle(s, e.id, e.patch, ServerAfter(server, e)[e.id]) &&
            Settles(ServerAfter(server, e)[e.id], e.patch)
  {
    var before, row := server[e.id], ServerAfter(server, e)[e.id];
    forall key | key in s.lists && s.lists[key].ByStatus?
      ensures Valid(s.lists[key].cache)
      ensures Loaded(s.lists[key].cache, e.id) ==>
              Settles(Merge(FindIssueLocation(s.lists[key].cache, e.id).value.issue, e.patch), AsPatch(row))
    {
      var c := s.lists[key].cache;
      CurrentIsValid(c, server);
      if Loaded(c, e.id) {
        CurrentLocation(c, server, e.id);
        SameRowsMerge(FindIssueLocation(c, e.id).value.issue, before, e.patch);
      }
    }
  }

  /** In particular in every cache that is right: the write and all that the server says about it count once. */
  lemma LocalWriteCountsOnce(s: CacheState, server: Server, w: World, excepted: set<ListKey>, e: Event,
                             replies: seq<Reply>)
    requires Keyed(server) && Right(s, server, w, excepted) && Possible(server, e) && e.Mutated?
    requires forall key <- s.lists :: s.lists[key].ByStatus? ==> RowsWithinTotals(s.lists[key].cache)
    requires forall reply <- replies ::
               Truthful(s, e.id, ServerAfter(server, e)[e.id],
                        IssueChangedDims(e.patch, Lookup(s.details, e.id)), reply)
    ensures var once := Handle(s, server, e);
            SameListCounts(once, ReceiveAll(once, e.id, ServerAfter(server, e)[e.id], replies))
  {
    RightCopiesSettle(s, server, w, excepted, e);
    WriteCountsOnce(s, e.id, e.patch, ServerAfter(server, e)[e.id], replies);
  }

  // ----- rollback of one write -----

  lemma UnwrittenIsUnchanged(id: string, patch: Patch, changed: Dims, base: Option<Issue>)
    ensures var rule := RuleFor(id, patch, changed, base);
            forall key, c :: !rule(key, c).written ==> rule(key, c).next == c
  {
  }

  lemma RestoreUndoes(lists: map<ListKey, ListData>, rule: ListRule)
    requires forall key, c :: !rule(key, c).written ==> rule(key, c).next == c
    ensures RestoreLists(ListsAfter(lists, rule), ListsBefore(lists, rule)) == lists
  {
    var back := RestoreLists(ListsAfter(lists, rule), ListsBefore(lists, rule));
    forall key | key in lists ensures key in back && back[key] == lists[key] {
    }
  }

  /** The onError leg undoes the coordinator's pass exactly. */
  lemma RollbackRestores(s: CacheState, id: string, patch: Patch, changed: Dims, base: Option<Issue>)
    ensures Rollback(ApplyChange(s, id, patch, changed, base), id, ResultOf(s, id, patch, changed, base)) == s
  {
    UnwrittenIsUnchanged(id, patch, changed, base);
    RestoreUndoes(s.lists, RuleFor(id, patch, changed, base));
    if id in s.details {
      assert s.details[id := Merge(s.details[id], patch)][id := s.details[id]] == s.details;
    }
  }

  /** Another change went through between a write and its rollback: nothing of it is lost if it changed none of
      the lists that the write had taken a snapshot of, nor the write's own detail, nor, when the write moved
      the status, the inbox. */
  ghost predicate NothingLost(s: CacheState, id: string, rule: ListRule, patch: Patch,
                              other: string, between: ListRule, otherPatch: Patch)
  {
    && (forall key <- s.lists :: s.lists[key].ByStatus? && rule(key, s.lists[key].cache).written ==>
          between(key, s.lists[key].cache).next == s.lists[key].cache)
    && (other == id && id in s.details ==> Carries(s.details[id], otherPatch))
    && (patch.status.Some? && otherPatch.status.Some? && s.inbox.Some? ==>
          PatchInboxIssueStatus(s.inbox.value, other, otherPatch.status.value) == s.inbox.value)
  }

  lemma LateListsIff(lists: map<ListKey, ListData>, rule: ListRule, between: ListRule)
    requires forall key, c :: !rule(key, c).written ==> rule(key, c).next == c
    ensures RestoreLists(ListsAfter(ListsAfter(lists, rule), between), ListsBefore(lists, rule)) ==
            ListsAfter(lists, between)
            <==> forall key <- lists :: lists[key].ByStatus? && rule(key, lists[key].cache).written ==>
                   between(key, lists[key].cache).next == lists[key].cache
  {
    var back := RestoreLists(ListsAfter(ListsAfter(lists, rule), between), ListsBefore(lists, rule));
    var alone := ListsAfter(lists, between);
    assert back.Keys == lists.Keys && alone.Keys == lists.Keys;
    forall key | key in lists
      ensures back[key] == if lists[key].ByStatus? && rule(key, lists[key].cache).written then lists[key]
                           else DataAfter(key, lists[key], between)
    {
    }
    if back == alone {
      forall key | key in lists && lists[key].ByStatus? && rule(key, lists[key].cache).written
        ensures between(key, lists[key].cache).next == lists[key].cache
      {
        assert back[key] == alone[key];
      }
    }
  }

  function MergedInto(details: map<string, Issue>, id: string, patch: Patch): map<string, Issue> {
    if id in details then details[id := Merge(details[id], patch)] else details
  }

  lemma LateDetailsIff(details: map<string, Issue>, id: string, patch: Patch, other: string, otherPatch: Patch)
    ensures var both := MergedInto(MergedInto(details, id, patch), other, otherPatch);
            var alone := MergedInto(details, other, otherPatch);
            (if id in details then both[id := details[id]] else both) == alone <==>
            (other == id && id in details ==> Carries(details[id], otherPatch))
  {
    var both := MergedInto(MergedInto(details, id, patch), other, otherPatch);
    var alone := MergedInto(details, other, otherPatch);
    if id in details {
      assert other != id ==> both[id := details[id]] == alone;
      assert other == id ==> both[id := details[id]] == details && alone[id] == Merge(details[id], otherPatch);
    }
  }

  /** A rollback that comes after another change leaves what that change alone would have left exactly when
      nothing of it is lost. */
  lemma LateRollbackIff(s: CacheState, id: string, patch: Patch, changed: Dims, base: Option<Issue>,
                        other: string, otherPatch: Patch, otherChanged: Dims, otherBase: Option<Issue>)
    ensures var r, once := ResultOf(s, id, patch, changed, base), ApplyChange(s, id, patch, changed, base);
            var both := ApplyChange(once, other, otherPatch, otherChanged, otherBase);
            Rollback(both, id, r) == ApplyChange(s, other, otherPatch, otherChanged, otherBase) <==>
            NothingLost(s, id, RuleFor(id, patch, changed, base), patch,
                        other, RuleFor(other, otherPatch, otherChanged, otherBase), otherPatch)
  {
    var rule, between := RuleFor(id, patch, changed, base), RuleFor(other, otherPatch, otherChanged, otherBase);
    UnwrittenIsUnchanged(id, patch, changed, base);
    LateListsIff(s.lists, rule, between);
    LateDetailsIff(s.details, id, patch, other, otherPatch);
  }

  function TwoCards(a: Issue, b: Issue): ListCache {
    OneBucket(a.status, Bucket([a, b], 2))
  }

  lemma TwoCardsAreLoaded(a: Issue, b: Issue)
    requires a.id != b.id && a.status == b.status
    ensures Valid(TwoCards(a, b)) && Loaded(TwoCards(a, b), a.id)
    ensures FindIssueLocation(TwoCards(a, b), b.id) == Some(Location(b.status, b))
  {
    var c := TwoCards(a, b);
    assert [a, b][1..] == [b] && Ids([b]) == {b.id} + Ids([]) && Ids([a, b]) == {a.id} + Ids([b]);
    assert ColumnOk([b], b.status) && ColumnOk([a, b], a.status);
    forall s: Status ensures BucketOk(GetBucket(c, s), s) {
    }
    LocationIs(c, a.id, a.status);
    LocationIs(c, b.id, b.status);
  }

  lemma MoveIsSeen(c: ListCache, b: Issue, status: Status, moved: Dims)
    requires Valid(c) && FindIssueLocation(c, b.id) == Some(Location(b.status, b)) && b.status != status
    ensures var move := EMPTY_PATCH.(status := Some(status));
            ReconcileList(WorkspaceList(UNSORTED), c, b.id, move, moved, Some(b)).next != c
  {
    var move := EMPTY_PATCH.(status := Some(status));
    LoadedOutcome(WorkspaceList(UNSORTED), c, b.id, move, moved, Some(b));
    PatchKeeps(c, b.id, move);
  }

  /** A write to one card is rolled back after an event moved another: the move is lost in a list that shows both. */
  lemma LateRollbackLosesMove(s: CacheState, a: Issue, b: Issue, patch: Patch, status: Status)
    requires a.id != b.id && a.status == b.status && b.status != status
    requires s.lists == map[WorkspaceList(UNSORTED) := ByStatus(TwoCards(a, b))]
    ensures var move := EMPTY_PATCH.(status := Some(status));
            var changed, moved := IssueChangedDims(patch, None), IssueChangedDims(move, Some(b));
            var r, once := ResultOf(s, a.id, patch, changed, None), ApplyChange(s, a.id, patch, changed, None);
            var both := ApplyChange(once, b.id, move, moved, Some(b));
            Rollback(both, a.id, r) != ApplyChange(s, b.id, move, moved, Some(b))
  {
    var key, move := WorkspaceList(UNSORTED), EMPTY_PATCH.(status := Some(status));
    var changed, moved := IssueChangedDims(patch, None), IssueChangedDims(move, Some(b));
    TwoCardsAreLoaded(a, b);
    MoveIsSeen(TwoCards(a, b), b, status, moved);
    WrittenIfLoaded(key, TwoCards(a, b), a.id, patch, changed, None);
    assert s.lists[key].ByStatus? && s.lists[key].cache == TwoCards(a, b);
    LateRollbackIff(s, a.id, patch, changed, None, b.id, move, moved, Some(b));
  }

  lemma WrittenIfLoaded(key: ListKey, c: ListCache, id: string, patch: Patch, changed: Dims, base: Option<Issue>)
    requires Loaded(c, id)
    ensures ReconcileList(key, c, id, patch, changed, base).written
  {
  }

  /** The parent whose sub-issue list shows the card: from the detail, from the freshest loaded
      copy, or by scanning the loaded sub-issue lists. */
  function ParentOf(s: CacheState, id: string, prevIssue: Option<Issue>): Option<string> {
    var detail := Lookup(s.details, id);
    var known := OrElse(if detail.Some? then detail.value.parentId else None,
                        if prevIssue.Some? then prevIssue.value.parentId else None);
    if Truthy(known) then known else ParentAmong(s.childOrder, s.children, id)
  }

  function ParentAmong(order: seq<string>, children: map<string, seq<Issue>>, id: string): Option<string> {
    if order == [] then None
    else if order[0] in children && id in Ids(children[order[0]]) then Some(order[0])
    else ParentAmong(order[1..], children, id)
  }

  datatype UpdateContext = UpdateContext(change: ChangeResult, parentId: Option<string>,
    prevChildren: Option<seq<Issue>>)

  function UpdateContextOf(s: CacheState, id: string, patch: Patch): UpdateContext {
    var base := Lookup(s.details, id);
    var change := ResultOf(s, id, patch, IssueChangedDims(patch, base), base);
    var parentId := ParentOf(s, id, change.prevIssue);
    UpdateContext(change, parentId, if Truthy(parentId) then Lookup(s.children, parentId.value) else None)
  }

  /** The cache after the optimistic write: a re-parented card leaves its old parent's list. */
  function UpdateIssue(s: CacheState, id: string, patch: Patch): CacheState {
    var base := Lookup(s.details, id);
    var ctx := UpdateContextOf(s, id, patch);
    var next := ApplyChange(s, id, patch, IssueChangedDims(patch, base), base);
    if ctx.prevChildren.None? then next
    else
      var detached := patch.parentId.Some? && patch.parentId.value != ctx.parentId;
      next.(children := s.children[ctx.parentId.value :=
        if detached then Without(ctx.prevChildren.value, id) else PatchRows(ctx.prevChildren.value, {id}, patch)])
  }

  function UpdateIssueFailed(s: CacheState, id: string, ctx: UpdateContext): CacheState {
    var back := Rollback(s, id, ctx.change);
    if Truthy(ctx.parentId) && ctx.prevChildren.Some?
    then back.(children := back.children[ctx.parentId.value := ctx.prevChildren.value]) else back
  }

  method UpdateIssueOnMutate(qc: QueryCache, id: string, patch: Patch) returns (ctx: UpdateContext)
    requires qc.Valid()
    modifies qc
    ensures qc.Valid()
    ensures qc.State() == UpdateIssue(old(qc.State()), id, patch)
    ensures ctx == UpdateContextOf(old(qc.State()), id, patch)
  {
    ghost var s := qc.State();
    var prevDetail := Lookup(qc.details, id);
    var change := ApplyIssueChange(qc, id, patch, IssueChangedDims(patch, prevDetail), prevDetail);
    var parentId := OrElse(if prevDetail.Some? then prevDetail.value.parentId else None,
                           if change.prevIssue.Some? then change.prevIssue.value.parentId else None);
    if !Truthy(parentId) {
      parentId := ParentAmong(qc.childOrder, qc.children, id);
    }
    var prevChildren := if Truthy(parentId) then Lookup(qc.children, parentId.value) else None;
    if prevChildren.Some? {
      var detached := patch.parentId.Some? && patch.parentId.value != parentId;
      qc.children := qc.children[parentId.value :=
        if detached then Without(prevChildren.value, id) else PatchRows(prevChildren.value, {id}, patch)];
    }
    ctx := UpdateContext(change, parentId, prevChildren);
  }

  method UpdateIssueOnError(qc: QueryCache, id: string, ctx: UpdateContext)
    requires qc.Valid()
    modifies qc
    ensures qc.Valid() && old(qc.order) <= qc.order && old(qc.childOrder) <= qc.childOrder
    ensures qc.State() == UpdateIssueFailed(old(qc.State()), id, ctx).(order := qc.order, childOrder := qc.childOrder)
    ensures ctx.change.prevLists.Keys <= old(qc.lists.Keys) ==> qc.order == old(qc.order)
    ensures (ctx.prevChildren.Some? && ctx.parentId.Some? ==> ctx.parentId.value in old(qc.children)) ==>
            qc.childOrder == old(qc.childOrder)
  {
    RollbackIssueChange(qc, id, ctx.change);
    if Truthy(ctx.parentId) && ctx.prevChildren.Some? {
      var p := ctx.parentId.value;
      if p !in qc.children {
        DistinctConcat(qc.childOrder, [p]);
        qc.childOrder := qc.childOrder + [p];
      }
      qc.children := qc.children[p := ctx.prevChildren.value];
    }
  }

  /** A failed single update, re-parenting prune included, leaves no trace. */
  lemma FailedUpdateLeavesNoTrace(s: CacheState, id: string, patch: Patch)
    ensures UpdateIssueFailed(UpdateIssue(s, id, patch), id, UpdateContextOf(s, id, patch)) == s
  {
    var base := Lookup(s.details, id);
    RollbackRestores(s, id, patch, IssueChangedDims(patch, base), base);
    var ctx := UpdateContextOf(s, id, patch);
    if ctx.prevChildren.Some? {
      assert s.children[ctx.parentId.value := ctx.prevChildren.value] == s.children;
    }
  }
}

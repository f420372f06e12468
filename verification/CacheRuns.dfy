/** The whole cache over runs of server writes (packages/core/issues/ws-updaters.ts and the
    reconcile legs of mutations.ts): nothing drifts unless its key was reported. */
module CacheRuns {
  import opened Options
  import opened IssueTypes
  import opened InboxTypes
  import opened Membership
  import opened Buckets
  import opened Coordinator
  import opened Agreement
  import opened Drift

  // ----- loaded rows stay current in every list, flagged or not -----

  lemma RowsStayCurrent(c: ListCache, next: ListCache, server: Server, after: Server, id: string)
    requires ListCurrent(c, server) && OneRowWritten(server, after, id) && FindIssueLocation(c, id).None?
    requires forall t: Status :: GetBucket(next, t).issues == GetBucket(c, t).issues
    ensures ListCurrent(next, after)
  {
    forall t: Status ensures Current(GetBucket(next, t).issues, t, after) {
      assert Current(GetBucket(c, t).issues, t, server);
    }
  }

  lemma RemoveStaysCurrent(c: ListCache, server: Server, after: Server, id: string)
    requires ListCurrent(c, server) && OneRowWritten(server, after, id) && FindIssueLocation(c, id).Some?
    ensures ListCurrent(RemoveIssueFromBuckets(c, id), after)
  {
    forall t: Status ensures Current(GetBucket(RemoveIssueFromBuckets(c, id), t).issues, t, after) {
      RemovedRowsCurrent(c, server, after, id, t);
    }
  }

  /** Every list, whatever becomes of its counts, keeps showing current rows only. */
  lemma ListStaysCurrent(key: ListKey, c: ListCache, server: Server, after: Server,
                         id: string, patch: Patch, changed: Dims, base: Option<Issue>)
    requires ListCurrent(c, server) && ServerWrite(server, after, id, patch, base)
    ensures ListCurrent(ReconcileList(key, c, id, patch, changed, base).next, after)
  {
    var next := ReconcileList(key, c, id, patch, changed, base).next;
    if Loaded(c, id) {
      RemoveStaysCurrent(c, server, after, id);
      forall t: Status ensures Current(GetBucket(PatchIssueInBuckets(c, id, patch), t).issues, t, after) {
        PatchStaysCurrentAt(c, server, after, id, patch, t);
      }
      assert ListCurrent(PatchIssueInBuckets(c, id, patch), after);
    } else {
      AbsentOutcome(key, c, id, patch, changed, base);
      RowsStayCurrent(c, next, server, after, id);
    }
  }

  // ----- the inbox projection -----

  /** An inbox row refers to an existing issue and shows its status. */
  ghost predicate InboxCurrent(rows: seq<InboxItem>, server: Server) {
    rows != [] ==>
      && (rows[0].issueId.Some? ==>
        rows[0].issueId.value in server && rows[0].issueStatus == Some(server[rows[0].issueId.value].status))
      && InboxCurrent(rows[1..], server)
  }

  lemma {:induction false} PatchedInboxCurrent(rows: seq<InboxItem>, server: Server, after: Server, id: string,
                                               status: Status)
    requires InboxCurrent(rows, server) && OneRowWritten(server, after, id) && after[id].status == status
    ensures InboxCurrent(PatchInboxIssueStatus(rows, id, status), after)
  {
    if rows != [] {
      PatchedInboxCurrent(rows[1..], server, after, id, status);
      assert PatchInboxIssueStatus(rows, id, status)[1..] == PatchInboxIssueStatus(rows[1..], id, status);
    }
  }

  lemma {:induction false} UntouchedInboxCurrent(rows: seq<InboxItem>, server: Server, after: Server, id: string)
    requires InboxCurrent(rows, server) && OneRowWritten(server, after, id) && after[id].status == server[id].status
    ensures InboxCurrent(rows, after)
  {
    if rows != [] {
      UntouchedInboxCurrent(rows[1..], server, after, id);
    }
  }

  // ----- the whole cache -----

  /** Rows, details and inbox are current; every list that was not excepted agrees with the server. */
  ghost predicate Right(s: CacheState, server: Server, w: World, excepted: set<ListKey>) {
    && (forall key <- s.lists :: s.lists[key].ByStatus? ==> ListCurrent(s.lists[key].cache, server))
    && (forall key <- s.lists :: s.lists[key].ByStatus? && key !in excepted ==>
      Agrees(s.lists[key].cache, server, w, key))
    && (forall i <- s.details :: i in server && SameRow(s.details[i], server[i]))
    && (s.inbox.Some? ==> InboxCurrent(s.inbox.value, server))
  }

  /** The lists whose edit is not the one that the written row calls for, and that are not reported. */
  ghost function Slipped(s: CacheState, w: World, before: Issue, row: Issue, patch: Patch, changed: Dims,
                         base: Option<Issue>): set<ListKey>
  {
    set key | key in s.lists && s.lists[key].ByStatus? &&
      !Fits(key, w, s.lists[key].cache, before, row,
            ReconcileList(key, s.lists[key].cache, before.id, patch, changed, base))
  }

  /** One server write through the coordinator keeps the cache right up to the keys it reports and the lists
      that slip; and a list that agreed before agrees after it exactly when it does neither. */
  lemma WriteKeepsRight(s: CacheState, server: Server, after: Server, w: World, excepted: set<ListKey>,
                        id: string, patch: Patch, changed: Dims, base: Option<Issue>)
    requires Right(s, server, w, excepted) && ServerWrite(server, after, id, patch, base)
    ensures var next := ApplyChange(s, id, patch, changed, base);
            var stale := ResultOf(s, id, patch, changed, base).staleKeys;
            var slipped := Slipped(s, w, server[id], after[id], patch, changed, base);
            && Right(next, after, w, excepted + stale + slipped)
            && (forall key <- s.lists :: s.lists[key].ByStatus? && key !in excepted + stale ==>
                  (Agrees(next.lists[key].cache, after, w, key) <==> key !in slipped))
  {
    var rule := RuleFor(id, patch, changed, base);
    var next := ApplyChange(s, id, patch, changed, base);
    var slipped := Slipped(s, w, server[id], after[id], patch, changed, base);
    forall key | key in next.lists && next.lists[key].ByStatus?
      ensures ListCurrent(next.lists[key].cache, after)
      ensures key !in excepted + StaleIn(s.lists, rule) ==>
              (Agrees(next.lists[key].cache, after, w, key) <==> key !in slipped)
    {
      var c := s.lists[key].cache;
      assert next.lists[key].cache == ReconcileList(key, c, id, patch, changed, base).next;
      ListStaysCurrent(key, c, server, after, id, patch, changed, base);
      if key !in excepted + StaleIn(s.lists, rule) {
        ListAgreesIff(key, c, server, after, w, id, patch, changed, base);
      }
    }
    if id in s.details {
      SameRowsMerge(s.details[id], server[id], patch);
    }
    if s.inbox.Some? {
      if patch.status.Some? {
        PatchedInboxCurrent(s.inbox.value, server, after, id, patch.status.value);
      } else {
        UntouchedInboxCurrent(s.inbox.value, server, after, id);
      }
    }
  }

  /** With flags that cover the write, a list without a date filter does not slip. */
  lemma CoveredDoesNotSlip(s: CacheState, server: Server, after: Server, w: World, key: ListKey,
                           id: string, patch: Patch, changed: Dims, base: Option<Issue>)
    requires ServerWrite(server, after, id, patch, base) && Covers(changed, server[id], after[id])
    requires key in s.lists && s.lists[key].ByStatus? && key.sort.window.None?
    requires Agrees(s.lists[key].cache, server, w, key)
    ensures key !in Slipped(s, w, server[id], after[id], patch, changed, base)
  {
    ListAgreesIff(key, s.lists[key].cache, server, after, w, id, patch, changed, base);
    ListKeepsAgreeing(key, s.lists[key].cache, server, after, w, id, patch, changed, base);
  }

  // ----- created issues -----

  /** The issue is new to the server, or it is announced again. */
  ghost predicate RowAdded(server: Server, after: Server, issue: Issue) {
    after == server[issue.id := issue] && (issue.id in server ==> server[issue.id] == issue)
  }

  lemma AppendStaysCurrent(rows: seq<Issue>, s: Status, server: Server, after: Server, issue: Issue)
    requires Current(rows, s, server) && RowAdded(server, after, issue)
    ensures Current(rows, s, after)
    ensures issue.id !in Ids(rows) && issue.status == s ==>
            Current(rows + [issue], s, after) && Ids(rows + [issue]) == Ids(rows) + {issue.id}
  {
    if issue.id !in Ids(rows) && issue.status == s {
      AppendKeeps(rows, issue, s, issue.id);
      forall i | i in Ids(rows + [issue]) ensures i in after && SameRow(FindRow(rows + [issue], i).value, after[i]) {
        AppendKeeps(rows, issue, s, i);
      }
    }
  }

  lemma AddStaysCurrent(c: ListCache, server: Server, after: Server, issue: Issue)
    requires ListCurrent(c, server) && RowAdded(server, after, issue)
    ensures ListCurrent(AddIssueToBuckets(c, issue), after)
  {
    forall t: Status ensures Current(GetBucket(AddIssueToBuckets(c, issue), t).issues, t, after) {
      assert Current(GetBucket(c, t).issues, t, server);
      AppendStaysCurrent(GetBucket(c, t).issues, t, server, after, issue);
    }
  }

  lemma MatchingAfterAdd(server: Server, after: Server, w: World, key: ListKey, issue: Issue, s: Status)
    requires RowAdded(server, after, issue) && issue.id !in server
    ensures Matching(after, w, key, s) ==
            Matching(server, w, key, s) + (if issue.status == s && InList(w, key, issue) then {issue.id} else {})
    ensures issue.id !in Matching(server, w, key, s)
  {
  }

  lemma AppendedAgreesIff(b: Bucket, t: Status, m: set<string>, m': set<string>, server: Server, after: Server,
                          issue: Issue, inList: bool)
    requires BucketAgrees(b, t, m, server) && RowAdded(server, after, issue) && issue.id !in server
    requires issue.id !in m && m' == m + (if inList then {issue.id} else {})
    ensures t == issue.status ==> (BucketAgrees(Bucket(b.issues + [issue], b.total + 1), t, m', after) <==> inList)
    ensures t != issue.status && m' == m ==> BucketAgrees(b, t, m', after)
  {
    AppendStaysCurrent(b.issues, t, server, after, issue);
    assert issue.id !in Ids(b.issues);
  }

  lemma AddedBucketIs(c: ListCache, issue: Issue, t: Status)
    requires issue.id !in Ids(GetBucket(c, t).issues)
    ensures var b := GetBucket(c, t);
            GetBucket(AddIssueToBuckets(c, issue), t) ==
            if t == issue.status then Bucket(b.issues + [issue], b.total + 1) else b
  {
  }

  lemma AddedBucketAgreesIff(key: ListKey, c: ListCache, server: Server, after: Server, w: World, issue: Issue,
                             t: Status)
    requires BucketAgrees(GetBucket(c, t), t, Matching(server, w, key, t), server)
    requires RowAdded(server, after, issue) && issue.id !in server
    ensures BucketAgrees(GetBucket(AddIssueToBuckets(c, issue), t), t, Matching(after, w, key, t), after) <==>
            t != issue.status || InList(w, key, issue)
  {
    var b := GetBucket(c, t);
    MatchingAfterAdd(server, after, w, key, issue, t);
    var m, m' := Matching(server, w, key, t), Matching(after, w, key, t);
    var inList := t == issue.status && InList(w, key, issue);
    AppendedAgreesIff(b, t, m, m', server, after, issue, inList);
    AddedBucketIs(c, issue, t);
  }

  /** A list agrees again after a new issue is appended to its bucket exactly when the issue is in the list:
      for a workspace list, when the date filter takes it. */
  lemma AddedListAgreesIff(key: ListKey, c: ListCache, server: Server, after: Server, w: World, issue: Issue)
    requires Agrees(c, server, w, key) && RowAdded(server, after, issue) && issue.id !in server
    ensures Agrees(AddIssueToBuckets(c, issue), after, w, key) <==> InList(w, key, issue)
    ensures key.WorkspaceList? ==> (InList(w, key, issue) <==> InWindow(key.sort.window, issue))
  {
    var next := AddIssueToBuckets(c, issue);
    forall t: Status
      ensures BucketAgrees(GetBucket(next, t), t, Matching(after, w, key, t), after) <==>
              t != issue.status || InList(w, key, issue)
    {
      assert BucketAgrees(GetBucket(c, t), t, Matching(server, w, key, t), server);
      AddedBucketAgreesIff(key, c, server, after, w, issue, t);
    }
    if Agrees(next, after, w, key) {
      var t := issue.status;
      assert BucketAgrees(GetBucket(next, t), t, Matching(after, w, key, t), after);
    }
  }

  /** Announcing an issue the server already had leaves an agreeing list right exactly when the
      card is loaded: a card the list only counts is counted twice. */
  lemma ReannouncedIsRightIffLoaded(c: ListCache, server: Server, w: World, key: ListKey, issue: Issue)
    requires Agrees(c, server, w, key) && issue.id in server && server[issue.id] == issue
    ensures Agrees(AddIssueToBuckets(c, issue), server, w, key) <==> Loaded(c, issue.id)
  {
    AgreeingLocation(c, server, w, key, issue.id);
    var next, t := AddIssueToBuckets(c, issue), issue.status;
    if Loaded(c, issue.id) {
      CurrentLocation(c, server, issue.id);
    } else {
      assert BucketAgrees(GetBucket(c, t), t, Matching(server, w, key, t), server);
      assert GetBucket(next, t).total == GetBucket(c, t).total + 1;
      assert !BucketAgrees(GetBucket(next, t), t, Matching(server, w, key, t), server);
    }
  }

  /** An issue that a list counts and has not loaded is announced again. */
  lemma ReannouncedIsCountedTwice() returns (c: ListCache, server: Server, w: World, key: ListKey, issue: Issue)
    ensures Agrees(c, server, w, key) && issue.id in server && server[issue.id] == issue
    ensures GetBucket(AddIssueToBuckets(c, issue), issue.status).total == 2 && |server| == 1
    ensures !Agrees(AddIssueToBuckets(c, issue), server, w, key)
  {
    issue := Issue("i", Todo, None, None, "u", None, None, 0.0, 1, 1, map[]);
    c, server := OneBucket(Todo, Bucket([], 1)), Only(issue);
    w, key := World("me", (u, t, a) => false), WorkspaceList(UNSORTED);
    OneBucketAgrees(issue, false, w, key);
    ReannouncedIsRightIffLoaded(c, server, w, key, issue);
  }

  /** A new issue is appended to every workspace list, also to one whose date filter leaves it out. */
  lemma WindowedListTakesNewIssue() returns (c: ListCache, w: World, key: ListKey, issue: Issue)
    ensures key.WorkspaceList? && Agrees(c, map[], w, key) && RowAdded(map[], Only(issue), issue)
    ensures !Agrees(AddIssueToBuckets(c, issue), Only(issue), w, key)
  {
    issue := Issue("i", Todo, None, None, "u", None, None, 0.0, 30, 30, map[]);
    c := ListCache(map[]);
    w := World("me", (u, t, a) => false);
    key := WorkspaceList(ListSort("position", Some(DateWindow(CreatedAt, 10, 20))));
    forall s: Status ensures BucketAgrees(GetBucket(c, s), s, Matching(map[], w, key, s), map[]) {
      assert Matching(map[], w, key, s) == {};
    }
    assert RowAdded(map[], Only(issue), issue);
    AddedListAgreesIff(key, c, map[], Only(issue), w, issue);
  }

  lemma {:induction false} InboxAfterAdd(rows: seq<InboxItem>, server: Server, after: Server, issue: Issue)
    requires InboxCurrent(rows, server) && RowAdded(server, after, issue)
    ensures InboxCurrent(rows, after)
  {
    if rows != [] {
      InboxAfterAdd(rows[1..], server, after, issue);
    }
  }
}

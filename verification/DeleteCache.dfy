/** Taking a deleted issue out of the cache (packages/core/issues/delete-cache.ts, onIssueDeleted in
    packages/core/issues/ws-updaters.ts and onInboxIssueDeleted in packages/core/inbox/ws-updaters.ts). */
module DeleteCache {
  import opened Options
  import opened Sequences
  import opened IssueTypes
  import opened InboxTypes
  import opened Membership
  import opened Buckets
  import opened Coordinator
  import opened Agreement
  import opened Drift

  /** The clean-up looks the issue up in every list under the two prefixes, and throws on a board of another
      shape, which has no buckets: before its first write. */
  predicate Completes(lists: map<ListKey, ListData>) {
    forall key <- lists :: lists[key].ByStatus?
  }

  function ParentOfCopy(copy: Option<Issue>): set<string> {
    if copy.Some? && Truthy(copy.value.parentId) then {copy.value.parentId.value} else {}
  }

  function ParentsInLists(order: seq<ListKey>, lists: map<ListKey, ListData>, id: string): set<string> {
    if order == [] then {}
    else
      (if order[0] in lists && lists[order[0]].ByStatus?
       then ParentOfCopy(LoadedCopy(lists[order[0]].cache, id)) else {})
      + ParentsInLists(order[1..], lists, id)
  }

  function ParentsInChildren(order: seq<string>, children: map<string, seq<Issue>>, id: string): set<string> {
    if order == [] then {}
    else
      (if order[0] in children && id in Ids(children[order[0]])
       then ParentOfCopy(FindRow(children[order[0]], id)) + {order[0]} else {})
      + ParentsInChildren(order[1..], children, id)
  }

  /** Every parent that the detail, a list, or a sub-issue list knows of. */
  function ParentsOf(s: CacheState, id: string): set<string> {
    ParentOfCopy(Lookup(s.details, id)) + ParentsInLists(s.order, s.lists, id)
    + ParentsInChildren(s.childOrder, s.children, id)
  }

  lemma {:induction false} ParentsInListsAre(order: seq<ListKey>, lists: map<ListKey, ListData>, id: string, p: string)
    ensures p in ParentsInLists(order, lists, id) <==>
            exists key :: key in order && key in lists && lists[key].ByStatus? &&
              Loaded(lists[key].cache, id) && NamesParent(FindIssueLocation(lists[key].cache, id).value.issue, p)
  {
    if order != [] {
      ParentsInListsAre(order[1..], lists, id, p);
      assert forall key :: key in order <==> key == order[0] || key in order[1..];
    }
  }

  lemma {:induction false} ParentsInChildrenAre(order: seq<string>, children: map<string, seq<Issue>>, id: string,
                                                p: string)
    ensures p in ParentsInChildren(order, children, id) <==>
            exists q :: q in order && q in children && id in Ids(children[q]) &&
              (q == p || NamesParent(FindRow(children[q], id).value, p))
  {
    if order != [] {
      ParentsInChildrenAre(order[1..], children, id, p);
      assert forall q :: q in order <==> q == order[0] || q in order[1..];
    }
  }

  predicate NamesParent(issue: Issue, p: string) {
    issue.parentId == Some(p) && p != ""
  }

  /** The parents known are those that the detail, a card or a sub-issue row of the issue names, and those whose
      sub-issue list holds it. */
  lemma ParentsAre(s: CacheState, id: string, p: string)
    ensures p in ParentsOf(s, id) <==>
            || (id in s.details && NamesParent(s.details[id], p))
            || (exists key :: key in s.order && key in s.lists && s.lists[key].ByStatus? &&
                  Loaded(s.lists[key].cache, id) &&
                  NamesParent(FindIssueLocation(s.lists[key].cache, id).value.issue, p))
            || (exists q :: q in s.childOrder && q in s.children && id in Ids(s.children[q]) &&
                  (q == p || NamesParent(FindRow(s.children[q], id).value, p)))
  {
    ParentsInListsAre(s.order, s.lists, id, p);
    ParentsInChildrenAre(s.childOrder, s.children, id, p);
  }

  function Prune(lists: map<ListKey, ListData>, id: string): map<ListKey, ListData> {
    map key | key in lists ::
      if lists[key].ByStatus? then ByStatus(RemoveIssueFromBuckets(lists[key].cache, id)) else lists[key]
  }

  /** The issue leaves every sub-issue list, and its own goes. */
  function PruneChildren(children: map<string, seq<Issue>>, id: string): map<string, seq<Issue>> {
    map p | p in children && p != id :: Without(children[p], id)
  }

  /** `old?.filter((i) => i.issue_id !== issueId)` */
  function DropInbox(rows: seq<InboxItem>, id: string): seq<InboxItem> {
    if rows == [] then []
    else if rows[0].issueId == Some(id) then DropInbox(rows[1..], id)
    else [rows[0]] + DropInbox(rows[1..], id)
  }

  /** The cache after an `issue:deleted` event. */
  function Deleted(s: CacheState, id: string): CacheState {
    if !Completes(s.lists) then s
    else s.(lists := Prune(s.lists, id),
            details := s.details - {id},
            inbox := if s.inbox.Some? then Some(DropInbox(s.inbox.value, id)) else None,
            children := PruneChildren(s.children, id),
            childOrder := Omit(s.childOrder, id))
  }

  lemma {:induction false} HolderIsParent(order: seq<string>, children: map<string, seq<Issue>>, id: string, p: string)
    requires p in order && p in children && id in Ids(children[p])
    ensures p in ParentsInChildren(order, children, id)
  {
    if p != order[0] {
      HolderIsParent(order[1..], children, id, p);
    }
  }

  /** The first walk: it collects the parents, or ends at a board of another shape. */
  method CollectParents(qc: QueryCache, id: string) returns (completed: bool, parents: set<string>)
    requires qc.Valid()
    ensures completed <==> Completes(qc.lists)
    ensures completed ==> parents == ParentsOf(qc.State(), id)
  {
    parents := ParentOfCopy(Lookup(qc.details, id));
    var rest := qc.order;
    ghost var all := ParentsOf(qc.State(), id);
    ghost var below := ParentsInChildren(qc.childOrder, qc.children, id);
    while rest != []
      invariant parents + ParentsInLists(rest, qc.lists, id) + below == all
      invariant forall key <- rest :: key in qc.lists
      invariant forall key <- qc.lists :: key in rest || qc.lists[key].ByStatus?
      decreases |rest|
    {
      if qc.lists[rest[0]].OtherShape? {
        return false, {};
      }
      parents := parents + ParentOfCopy(LoadedCopy(qc.lists[rest[0]].cache, id));
      rest := rest[1..];
    }
    var hosts := qc.childOrder;
    while hosts != []
      invariant parents + ParentsInChildren(hosts, qc.children, id) == all
      invariant forall p <- hosts :: p in qc.children
      decreases |hosts|
    {
      var p := hosts[0];
      if id in Ids(qc.children[p]) {
        parents := parents + ParentOfCopy(FindRow(qc.children[p], id)) + {p};
      }
      hosts := hosts[1..];
    }
    completed := true;
  }

  /** The issue leaves the sub-issue list of every parent collected. */
  method PruneParents(qc: QueryCache, id: string, parents: set<string>)
    requires qc.Valid()
    requires forall p <- qc.children :: id in Ids(qc.children[p]) ==> p in parents
    modifies qc
    ensures qc.Valid()
    ensures qc.State() == old(qc.State()).(children := qc.children) && qc.children.Keys == old(qc.children.Keys)
    ensures forall p <- qc.children :: qc.children[p] == Without(old(qc.children)[p], id)
  {
    ghost var s := qc.State();
    var rest := parents;
    while rest != {}
      invariant rest <= parents
      invariant qc.State() == s.(children := qc.children) && qc.children.Keys == s.children.Keys
      invariant forall p <- s.children ::
                  qc.children[p] == if p in parents - rest then Without(s.children[p], id) else s.children[p]
      decreases |rest|
    {
      var p :| p in rest;
      if p in qc.children {
        qc.children := qc.children[p := Without(qc.children[p], id)];
      }
      rest := rest - {p};
    }
    forall p | p in s.children ensures qc.children[p] == Without(s.children[p], id) {
      if p !in parents { WithoutAbsent(s.children[p], id); }
    }
  }

  lemma ChildrenArePruned(before: map<string, seq<Issue>>, after: map<string, seq<Issue>>, id: string)
    requires after.Keys == before.Keys && forall p <- after :: after[p] == Without(before[p], id)
    ensures after - {id} == PruneChildren(before, id)
  {
  }

  /** The sub-issue lists: the issue leaves those of its parents, and its own goes. */
  method CleanUpChildren(qc: QueryCache, id: string, parents: set<string>)
    requires qc.Valid() && forall p <- qc.children :: id in Ids(qc.children[p]) ==> p in parents
    modifies qc
    ensures qc.Valid()
    ensures qc.State() == old(qc.State()).(children := PruneChildren(old(qc.children), id),
                                           childOrder := Omit(old(qc.childOrder), id))
  {
    ghost var before := qc.children;
    PruneParents(qc, id, parents);
    ChildrenArePruned(before, qc.children, id);
    OmitKeepsDistinct(qc.childOrder, id);
    qc.children := qc.children - {id};
    qc.childOrder := Omit(qc.childOrder, id);
  }

  method OnIssueDeleted(qc: QueryCache, id: string) returns (staleKeys: set<ListKey>)
    requires qc.Valid()
    modifies qc
    ensures qc.Valid()
    ensures qc.State() == Deleted(old(qc.State()), id)
    ensures staleKeys == if Completes(old(qc.lists)) then old(qc.lists.Keys) else {}
  {
    var completed, parents := CollectParents(qc, id);
    if !completed {
      return {};
    }
    ghost var s := qc.State();
    HoldersAreParents(s, id);
    staleKeys := qc.lists.Keys;
    qc.lists := Prune(qc.lists, id);
    CleanUpChildren(qc, id, parents);
    assert qc.State() == Deleted(s, id).(details := s.details, inbox := s.inbox);
    qc.details := qc.details - {id};
    if qc.inbox.Some? {
      qc.inbox := Some(DropInbox(qc.inbox.value, id));
    }
  }

  lemma HoldersAreParents(s: CacheState, id: string)
    requires forall p :: p in s.childOrder <==> p in s.children
    ensures forall p <- s.children :: id in Ids(s.children[p]) ==> p in ParentsOf(s, id)
  {
    forall p | p in s.children && id in Ids(s.children[p]) ensures p in ParentsOf(s, id) {
      HolderIsParent(s.childOrder, s.children, id, p);
    }
  }

  // ----- what a deletion leaves -----

  /** The server drops the row, and clears the parent of its sub-issues. */
  ghost predicate RowDeleted(server: Server, after: Server, id: string) {
    && id in server && after.Keys == server.Keys - {id}
    && forall i <- after ::
         after[i] == if server[i].parentId == Some(id) then server[i].(parentId := None) else server[i]
  }

  /** The rows show a sub-issue of the deleted issue. */
  predicate ShowsSubIssue(rows: seq<Issue>, id: string) {
    rows != [] && (rows[0].parentId == Some(id) || ShowsSubIssue(rows[1..], id))
  }

  ghost predicate ListShowsSubIssue(c: ListCache, id: string) {
    exists s: Status :: ShowsSubIssue(Without(GetBucket(c, s).issues, id), id)
  }

  lemma {:induction false} ShownIsFound(rows: seq<Issue>, id: string, s: Status) returns (i: string)
    requires ColumnOk(rows, s) && ShowsSubIssue(rows, id)
    ensures i in Ids(rows) && FindRow(rows, i).value.parentId == Some(id)
  {
    if rows[0].parentId == Some(id) {
      i := rows[0].id;
    } else {
      i := ShownIsFound(rows[1..], id, s);
    }
  }

  lemma {:induction false} FoundIsShown(rows: seq<Issue>, id: string, i: string)
    requires i in Ids(rows) && FindRow(rows, i).value.parentId == Some(id)
    ensures ShowsSubIssue(rows, id)
  {
    if rows[0].id != i {
      FoundIsShown(rows[1..], id, i);
    }
  }

  /** The rows of a bucket without the issue are current again exactly when they show no sub-issue of it. */
  lemma CurrentAfterDeletion(rows: seq<Issue>, t: Status, server: Server, after: Server, id: string)
    requires Current(rows, t, server) && RowDeleted(server, after, id)
    ensures Current(Without(rows, id), t, after) <==> !ShowsSubIssue(Without(rows, id), id)
    ensures Ids(Without(rows, id)) == Ids(rows) - {id}
  {
    var left := Without(rows, id);
    WithoutKeeps(rows, id, t);
    forall i | i in Ids(left)
      ensures i in after && SameRow(FindRow(left, i).value, server[i])
      ensures SameRow(FindRow(left, i).value, after[i]) <==> FindRow(left, i).value.parentId != Some(id)
    {
      WithoutFinds(rows, id, i);
    }
    if ShowsSubIssue(left, id) {
      var i := ShownIsFound(left, id, t);
      assert !SameRow(FindRow(left, i).value, after[i]);
    } else {
      forall i | i in Ids(left) ensures FindRow(left, i).value.parentId != Some(id) {
        if FindRow(left, i).value.parentId == Some(id) { FoundIsShown(left, id, i); }
      }
    }
  }

  lemma MatchingAfterDeletion(server: Server, after: Server, w: World, key: ListKey, id: string, t: Status)
    requires RowDeleted(server, after, id)
    ensures Matching(after, w, key, t) == Matching(server, w, key, t) - {id}
    ensures id in Matching(server, w, key, t) <==> t == server[id].status && InList(w, key, server[id])
  {
    forall i | i in after ensures InList(w, key, after[i]) == InList(w, key, server[i]) {
    }
  }

  lemma PrunedBucketAgreesIff(c: ListCache, server: Server, after: Server, w: World, key: ListKey, id: string,
                              t: Status)
    requires Agrees(c, server, w, key) && RowDeleted(server, after, id)
    ensures BucketAgrees(GetBucket(RemoveIssueFromBuckets(c, id), t), t, Matching(after, w, key, t), after) <==>
            && !ShowsSubIssue(Without(GetBucket(c, t).issues, id), id)
            && (t == server[id].status && InList(w, key, server[id]) ==> id in Ids(GetBucket(c, t).issues))
  {
    AgreeingIsValid(c, server, w, key);
    var b, m := GetBucket(c, t), Matching(server, w, key, t);
    assert BucketAgrees(b, t, m, server);
    RemovedBucketIs(c, id, t);
    CurrentAfterDeletion(b.issues, t, server, after, id);
    MatchingAfterDeletion(server, after, w, key, id, t);
    assert |m - {id}| == |m| - One(id in m);
  }

  /** A list that agreed agrees again after the clean-up exactly when it did not merely count the issue, and
      shows no sub-issue of it. */
  lemma PrunedListAgreesIff(c: ListCache, server: Server, after: Server, w: World, key: ListKey, id: string)
    requires Agrees(c, server, w, key) && RowDeleted(server, after, id)
    ensures Agrees(RemoveIssueFromBuckets(c, id), after, w, key) <==>
            (InList(w, key, server[id]) ==> Loaded(c, id)) && !ListShowsSubIssue(c, id)
  {
    var next, s := RemoveIssueFromBuckets(c, id), server[id].status;
    AgreeingLocation(c, server, w, key, id);
    if Loaded(c, id) {
      CurrentLocation(c, server, id);
    }
    forall t: Status
      ensures BucketAgrees(GetBucket(next, t), t, Matching(after, w, key, t), after) <==>
              && !ShowsSubIssue(Without(GetBucket(c, t).issues, id), id)
              && (t == s && InList(w, key, server[id]) ==> id in Ids(GetBucket(c, t).issues))
    {
      PrunedBucketAgreesIff(c, server, after, w, key, id, t);
    }
    if Agrees(next, after, w, key) {
      assert BucketAgrees(GetBucket(next, s), s, Matching(after, w, key, s), after);
      forall t: Status ensures !ShowsSubIssue(Without(GetBucket(c, t).issues, id), id) {
        assert BucketAgrees(GetBucket(next, t), t, Matching(after, w, key, t), after);
      }
    }
  }

  /** Nothing in the cache is the issue, or hangs below it or on it. */
  ghost predicate Forgotten(s: CacheState, id: string) {
    && (forall key <- s.lists :: s.lists[key].ByStatus? && !Loaded(s.lists[key].cache, id))
    && id !in s.details && id !in s.children
    && (forall p <- s.children :: id !in Ids(s.children[p]))
    && (s.inbox.Some? ==> forall row <- s.inbox.value :: row.issueId != Some(id))
  }

  lemma {:induction false} WithoutForgets(rows: seq<Issue>, id: string)
    ensures id !in Ids(Without(rows, id))
  {
    if rows != [] {
      WithoutForgets(rows[1..], id);
    }
  }

  lemma {:induction false} DropInboxForgets(rows: seq<InboxItem>, id: string)
    ensures forall row :: row in DropInbox(rows, id) <==> row in rows && row.issueId != Some(id)
  {
    if rows != [] {
      DropInboxForgets(rows[1..], id);
      assert forall row :: row in rows <==> row == rows[0] || row in rows[1..];
    }
  }

  lemma {:induction false} DropInboxConcat(a: seq<InboxItem>, b: seq<InboxItem>, id: string)
    ensures DropInbox(a + b, id) == DropInbox(a, id) + DropInbox(b, id)
  {
    if a == [] {
      assert a + b == b;
    } else {
      assert (a + b)[1..] == a[1..] + b && (a + b)[0] == a[0];
      DropInboxConcat(a[1..], b, id);
    }
  }

  lemma DropInboxOne(row: InboxItem, id: string)
    ensures DropInbox([row], id) == if row.issueId == Some(id) then [] else [row]
  {
    assert [row][1..] == [];
  }

  /** A deletion that completes leaves in every list every other card as it was found, and takes one off a total
      exactly where the card was loaded. */
  lemma DeletionKeepsOtherCards(s: CacheState, id: string, key: ListKey, other: string, t: Status)
    requires Completes(s.lists) && key in s.lists && Valid(s.lists[key].cache) && other != id
    ensures key in Deleted(s, id).lists && Deleted(s, id).lists[key].ByStatus?
    ensures var c, next := s.lists[key].cache, Deleted(s, id).lists[key].cache;
            && FindIssueLocation(next, other) == FindIssueLocation(c, other)
            && GetBucket(next, t).issues == Without(GetBucket(c, t).issues, id)
            && GetBucket(next, t).total == GetBucket(c, t).total - One(id in Ids(GetBucket(c, t).issues))
  {
    RemoveKeepsOthers(s.lists[key].cache, id, other);
    RemovedBucketIs(s.lists[key].cache, id, t);
  }

  /** It leaves every other detail, and of the inbox what is not about the issue, in order. */
  lemma DeletionKeepsOtherRows(s: CacheState, id: string, before: seq<InboxItem>, row: InboxItem,
                               after: seq<InboxItem>)
    requires Completes(s.lists)
    ensures var next := Deleted(s, id);
            && next.lists.Keys == s.lists.Keys && next.order == s.order
            && next.details == (map i | i in s.details && i != id :: s.details[i])
            && (s.inbox.None? ==> next.inbox.None?)
            && (s.inbox == Some(before + [row] + after) ==>
                  next.inbox == Some(DropInbox(before, id) + (if row.issueId == Some(id) then [] else [row])
                                     + DropInbox(after, id)))
  {
    DropInboxConcat(before + [row], after, id);
    DropInboxConcat(before, [row], id);
    DropInboxOne(row, id);
  }

  /** A list that agreed agrees after the deletion exactly when it did not merely count the issue, and shows no
      sub-issue of it. */
  lemma DeletedListAgreesIff(s: CacheState, server: Server, after: Server, w: World, key: ListKey, id: string)
    requires Completes(s.lists) && key in s.lists
    requires Agrees(s.lists[key].cache, server, w, key) && RowDeleted(server, after, id)
    ensures key in Deleted(s, id).lists && Deleted(s, id).lists[key].ByStatus?
    ensures var c := s.lists[key].cache;
            Agrees(Deleted(s, id).lists[key].cache, after, w, key) <==>
            (InList(w, key, server[id]) ==> Loaded(c, id)) && !ListShowsSubIssue(c, id)
  {
    PrunedListAgreesIff(s.lists[key].cache, server, after, w, key, id);
  }

  /** A deletion leaves nothing of the issue behind exactly when no board of another shape is cached: with one
      the handler throws, and lists, detail and inbox keep what they had, unreported. */
  lemma DeletionForgetsIff(s: CacheState, id: string)
    requires forall key <- s.lists :: s.lists[key].ByStatus? ==> Valid(s.lists[key].cache)
    ensures Forgotten(Deleted(s, id), id) <==> Completes(s.lists)
    ensures !Completes(s.lists) ==> Deleted(s, id) == s
  {
    if Completes(s.lists) {
      var next := Deleted(s, id);
      forall key | key in next.lists ensures !Loaded(next.lists[key].cache, id) {
        RemoveKeeps(s.lists[key].cache, id);
      }
      forall p | p in next.children ensures id !in Ids(next.children[p]) {
        WithoutForgets(s.children[p], id);
      }
      if s.inbox.Some? { DropInboxForgets(s.inbox.value, id); }
    }
  }

  /** With a grouped board cached, the list that shows a deleted issue goes on showing it. */
  lemma GroupedBoardBlocksDeletion(s: CacheState, board: ListKey, key: ListKey, issue: Issue, w: World)
    requires board in s.lists && s.lists[board].OtherShape? && InList(w, key, issue)
    requires key in s.lists && s.lists[key] == ByStatus(OneBucket(issue.status, Bucket([issue], 1)))
    ensures Agrees(s.lists[key].cache, Only(issue), w, key) && RowDeleted(Only(issue), map[], issue.id)
    ensures var next := Deleted(s, issue.id).lists;
            key in next && next[key].ByStatus? && !Agrees(next[key].cache, map[], w, key)
  {
    OneBucketAgrees(issue, true, w, key);
    var c, t := s.lists[key].cache, issue.status;
    assert GetBucket(c, t).issues == [issue] && issue.id in Ids([issue]);
    assert !BucketAgrees(GetBucket(c, t), t, Matching(map[], w, key, t), map[]);
  }
}

/** Loaded lists against the server's table: every write either keeps a list right or flags it. */
module Agreement {
  import opened Options
  import opened IssueTypes
  import opened Membership
  import opened Buckets
  import opened Coordinator

  type Server = map<string, Issue>

  /** What the key asks the server for: scope and filter, and the date filter in its last segment. */
  ghost predicate InList(w: World, key: ListKey, issue: Issue) {
    Belongs(w, key.ContractScope(), key.ContractFilter(), issue) && InWindow(key.sort.window, issue)
  }

  /** The ids the server would count in one bucket of the list. */
  ghost function Matching(server: Server, w: World, key: ListKey, s: Status): set<string> {
    set i | i in server && server[i].status == s && InList(w, key, server[i])
  }

  /** The loaded rows are distinct, current rows of that status. */
  ghost predicate Current(rows: seq<Issue>, s: Status, server: Server) {
    ColumnOk(rows, s) && forall i <- Ids(rows) :: i in server && SameRow(FindRow(rows, i).value, server[i])
  }

  /** The rows are current, they belong to the bucket, and the count is the server's. */
  ghost predicate BucketAgrees(b: Bucket, s: Status, m: set<string>, server: Server) {
    Current(b.issues, s, server) && Ids(b.issues) <= m && b.total == |m|
  }

  ghost predicate ListCurrent(c: ListCache, server: Server) {
    forall s: Status :: Current(GetBucket(c, s).issues, s, server)
  }

  ghost predicate Agrees(c: ListCache, server: Server, w: World, key: ListKey) {
    forall s: Status :: BucketAgrees(GetBucket(c, s), s, Matching(server, w, key, s), server)
  }

  /** One row of the server's table was written; every other row is as before. */
  ghost predicate OneRowWritten(server: Server, after: Server, id: string) {
    && id in server && id in after && after.Keys == server.Keys
    && forall i <- server :: i != id ==> after[i] == server[i]
  }

  /** What a server write looks like to the coordinator: the row is merged with the patch and stamped,
      the creator stays, and the base is a copy of the old row if there is one. */
  ghost predicate ServerWrite(server: Server, after: Server, id: string, patch: Patch, base: Option<Issue>) {
    && OneRowWritten(server, after, id) && server[id].id == id
    && SameRow(Merge(server[id], patch), after[id]) && after[id].creatorId == server[id].creatorId
    && (base.Some? ==> SameRow(base.value, server[id]))
  }

  // ----- one bucket -----

  /** Two id sets that differ at most in one id. */
  ghost predicate Moved(m: set<string>, m': set<string>, id: string) {
    forall i :: i != id ==> (i in m <==> i in m')
  }

  function One(b: bool): nat {
    if b then 1 else 0
  }

  lemma MovedSize(m: set<string>, m': set<string>, id: string)
    requires Moved(m, m', id)
    ensures |m'| == |m| - One(id in m) + One(id in m')
  {
    assert m' - {id} == m - {id};
    assert |m'| == |m' - {id}| + One(id in m') && |m| == |m - {id}| + One(id in m);
  }

  lemma CurrentUntouched(rows: seq<Issue>, s: Status, server: Server, after: Server, id: string)
    requires Current(rows, s, server) && OneRowWritten(server, after, id) && id !in Ids(rows)
    ensures Current(rows, s, after)
  {
  }

  lemma CurrentWithout(rows: seq<Issue>, s: Status, server: Server, after: Server, id: string)
    requires Current(rows, s, server) && OneRowWritten(server, after, id)
    ensures Current(Without(rows, id), s, after) && Ids(Without(rows, id)) == Ids(rows) - {id}
  {
    WithoutKeeps(rows, id, s);
    forall i | i in Ids(Without(rows, id))
      ensures i in after && SameRow(FindRow(Without(rows, id), i).value, after[i])
    {
      WithoutFinds(rows, id, i);
    }
  }

  lemma CurrentInserted(rows: seq<Issue>, s: Status, server: Server, after: Server, row: Issue)
    requires Current(rows, s, server) && OneRowWritten(server, after, row.id)
    requires row.id !in Ids(rows) && SameRow(row, after[row.id]) && row.status == s
    ensures Current(InsertByPosition(rows, row), s, after) && Ids(InsertByPosition(rows, row)) == Ids(rows) + {row.id}
  {
    InsertKeeps(rows, row, s);
    var next := InsertByPosition(rows, row);
    forall i | i in Ids(next) ensures i in after && SameRow(FindRow(next, i).value, after[i]) {
      InsertFinds(rows, row, i);
    }
  }

  lemma CurrentPatched(rows: seq<Issue>, s: Status, server: Server, after: Server, row: Issue, patch: Patch)
    requires Current(rows, s, server) && OneRowWritten(server, after, row.id)
    requires FindRow(rows, row.id) == Some(row) && row.status == s
    requires SameRow(Merge(row, patch), after[row.id]) && Merge(row, patch).status == s
    ensures Current(PatchColumn(rows, row, patch), s, after) && Ids(PatchColumn(rows, row, patch)) == Ids(rows)
  {
    PatchColumnKeeps(rows, row, patch, row.id);
    var next := PatchColumn(rows, row, patch);
    forall i | i in Ids(next) ensures i in after && SameRow(FindRow(next, i).value, after[i]) {
      PatchColumnKeeps(rows, row, patch, i);
    }
  }

  /** In a current list the card found is a copy of the server's row, in the bucket of its status. */
  lemma CurrentLocation(c: ListCache, server: Server, id: string)
    requires ListCurrent(c, server) && FindIssueLocation(c, id).Some?
    ensures var Location(s, row) := FindIssueLocation(c, id).value;
            id in server && row.id == id && SameRow(row, server[id]) && s == row.status == server[id].status
  {
    var loc := FindIssueLocation(c, id).value;
    assert Current(GetBucket(c, loc.status).issues, loc.status, server);
    RowStatus(GetBucket(c, loc.status).issues, loc.status, id);
  }

  /** Only the bucket of its status can hold a current row. */
  lemma CurrentElsewhere(c: ListCache, server: Server, id: string, t: Status)
    requires ListCurrent(c, server) && id in Ids(GetBucket(c, t).issues)
    ensures id in server && server[id].status == t
  {
    assert Current(GetBucket(c, t).issues, t, server);
    RowStatus(GetBucket(c, t).issues, t, id);
  }

  lemma PatchedBucketCurrent(b: Bucket, server: Server, after: Server, row: Issue, patch: Patch, t: Status)
    requires Current(b.issues, t, server) && OneRowWritten(server, after, row.id)
    requires SameRow(Merge(row, patch), after[row.id])
    requires row.id in Ids(b.issues) <==> row.status == t
    requires row.status == t ==> FindRow(b.issues, row.id) == Some(row)
    ensures var b' := PatchedBucket(b, t, row.status, row, patch);
            && Current(b'.issues, t, after)
            && Ids(b'.issues) == Ids(b.issues) - {row.id} + if t == after[row.id].status then {row.id} else {}
  {
    var merged := Merge(row, patch);
    if t == row.status && merged.status == t {
      CurrentPatched(b.issues, t, server, after, row, patch);
    } else if t == row.status {
      CurrentWithout(b.issues, t, server, after, row.id);
    } else if t == merged.status {
      CurrentInserted(b.issues, t, server, after, merged);
    }
  }

  lemma PatchStaysCurrentAt(c: ListCache, server: Server, after: Server, id: string, patch: Patch, t: Status)
    requires ListCurrent(c, server) && ServerWrite(server, after, id, patch, None) && FindIssueLocation(c, id).Some?
    ensures var rows, rows' := GetBucket(c, t).issues, GetBucket(PatchIssueInBuckets(c, id, patch), t).issues;
            Current(rows', t, after) && Ids(rows') == Ids(rows) - {id} + if t == after[id].status then {id} else {}
  {
    CurrentLocation(c, server, id);
    var row := FindIssueLocation(c, id).value.issue;
    SameRowsMerge(row, server[id], patch);
    PatchedBucketIs(c, id, patch, row.status, row, t);
    assert Current(GetBucket(c, t).issues, t, server);
    if id in Ids(GetBucket(c, t).issues) { CurrentElsewhere(c, server, id, t); }
    PatchedBucketCurrent(GetBucket(c, t), server, after, row, patch, t);
  }

  // ----- one list -----

  lemma {:induction false} ColumnSize(rows: seq<Issue>, s: Status)
    requires ColumnOk(rows, s)
    ensures |Ids(rows)| == |rows|
  {
    if rows != [] {
      ColumnSize(rows[1..], s);
    }
  }

  lemma SubsetSize(a: set<string>, b: set<string>)
    requires a <= b
    ensures |a| <= |b|
  {
    assert b == a + (b - a);
  }

  /** A list that agrees with the server satisfies the cache invariant. */
  lemma AgreeingIsValid(c: ListCache, server: Server, w: World, key: ListKey)
    requires Agrees(c, server, w, key)
    ensures Valid(c)
  {
    forall s: Status ensures BucketOk(GetBucket(c, s), s) {
      var b := GetBucket(c, s);
      assert BucketAgrees(b, s, Matching(server, w, key, s), server);
      ColumnSize(b.issues, s);
      SubsetSize(Ids(b.issues), Matching(server, w, key, s));
    }
    forall s: Status, t: Status | s != t ensures Ids(GetBucket(c, s).issues) !! Ids(GetBucket(c, t).issues) {
      assert BucketAgrees(GetBucket(c, s), s, Matching(server, w, key, s), server);
      assert BucketAgrees(GetBucket(c, t), t, Matching(server, w, key, t), server);
    }
  }

  /** The ids of a bucket move by at most the written row. */
  lemma MatchingAfter(server: Server, after: Server, w: World, key: ListKey, id: string, s: Status)
    requires OneRowWritten(server, after, id)
    ensures Moved(Matching(server, w, key, s), Matching(after, w, key, s), id)
    ensures id in Matching(after, w, key, s) <==> after[id].status == s && InList(w, key, after[id])
    ensures id in Matching(server, w, key, s) <==> server[id].status == s && InList(w, key, server[id])
  {
  }

  lemma AgreeingLocation(c: ListCache, server: Server, w: World, key: ListKey, id: string)
    requires Agrees(c, server, w, key)
    ensures ListCurrent(c, server)
    ensures FindIssueLocation(c, id).Some? ==> id in server && InList(w, key, server[id])
  {
    forall s: Status ensures Current(GetBucket(c, s).issues, s, server) {
      assert BucketAgrees(GetBucket(c, s), s, Matching(server, w, key, s), server);
    }
    if FindIssueLocation(c, id).Some? {
      CurrentLocation(c, server, id);
      var s := FindIssueLocation(c, id).value.status;
      assert BucketAgrees(GetBucket(c, s), s, Matching(server, w, key, s), server);
    }
  }

  /** A patched card that stays loaded is right exactly when the written row is in the list. */
  lemma PatchAgreesIff(c: ListCache, server: Server, after: Server, w: World, key: ListKey, id: string, patch: Patch)
    requires Agrees(c, server, w, key) && ServerWrite(server, after, id, patch, None)
    requires FindIssueLocation(c, id).Some?
    ensures Agrees(PatchIssueInBuckets(c, id, patch), after, w, key) <==> InList(w, key, after[id])
  {
    AgreeingLocation(c, server, w, key, id);
    CurrentLocation(c, server, id);
    var next, row := PatchIssueInBuckets(c, id, patch), FindIssueLocation(c, id).value.issue;
    forall t: Status
      ensures InList(w, key, after[id]) ==> BucketAgrees(GetBucket(next, t), t, Matching(after, w, key, t), after)
      ensures t == after[id].status ==> id in Ids(GetBucket(next, t).issues)
    {
      MatchingAfter(server, after, w, key, id, t);
      MovedSize(Matching(server, w, key, t), Matching(after, w, key, t), id);
      PatchStaysCurrentAt(c, server, after, id, patch, t);
      PatchedBucketIs(c, id, patch, row.status, row, t);
      assert BucketAgrees(GetBucket(c, t), t, Matching(server, w, key, t), server);
    }
    if Agrees(next, after, w, key) {
      var t := after[id].status;
      assert BucketAgrees(GetBucket(next, t), t, Matching(after, w, key, t), after);
    }
  }

  /** The total a bucket must show after the write: one less if the row left it, one more if it entered. */
  ghost function Due(b: Bucket, t: Status, w: World, key: ListKey, before: Issue, row: Issue): int {
    b.total - One(t == before.status && InList(w, key, before)) + One(t == row.status && InList(w, key, row))
  }

  lemma DueIsExact(c: ListCache, server: Server, after: Server, w: World, key: ListKey, id: string, t: Status)
    requires Agrees(c, server, w, key) && OneRowWritten(server, after, id)
    ensures |Matching(after, w, key, t)| == Due(GetBucket(c, t), t, w, key, server[id], after[id])
  {
    MatchingAfter(server, after, w, key, id, t);
    MovedSize(Matching(server, w, key, t), Matching(after, w, key, t), id);
    assert BucketAgrees(GetBucket(c, t), t, Matching(server, w, key, t), server);
  }

  /** What a removal leaves of the rows of one bucket. */
  function RowsLeft(rows: seq<Issue>, t: Status, s: Status, id: string): seq<Issue> {
    if t == s then Without(rows, id) else rows
  }

  lemma RowsLeftCurrent(rows: seq<Issue>, t: Status, s: Status, server: Server, after: Server, id: string)
    requires Current(rows, t, server) && OneRowWritten(server, after, id)
    requires t != s ==> id !in Ids(rows)
    ensures Current(RowsLeft(rows, t, s, id), t, after) && Ids(RowsLeft(rows, t, s, id)) == Ids(rows) - {id}
  {
    if t == s {
      CurrentWithout(rows, t, server, after, id);
    } else {
      CurrentUntouched(rows, t, server, after, id);
    }
  }

  lemma RowsLeftAre(c: ListCache, id: string, t: Status)
    requires FindIssueLocation(c, id).Some?
    ensures var s, next := FindIssueLocation(c, id).value.status, RemoveIssueFromBuckets(c, id);
            && GetBucket(next, t).issues == RowsLeft(GetBucket(c, t).issues, t, s, id)
            && GetBucket(next, t).total == if t == s then Dec(GetBucket(c, t).total) else GetBucket(c, t).total
  {
  }

  lemma RemovedRowsCurrent(c: ListCache, server: Server, after: Server, id: string, t: Status)
    requires ListCurrent(c, server) && OneRowWritten(server, after, id) && FindIssueLocation(c, id).Some?
    ensures var rows := GetBucket(RemoveIssueFromBuckets(c, id), t).issues;
            Current(rows, t, after) && Ids(rows) == Ids(GetBucket(c, t).issues) - {id}
  {
    CurrentLocation(c, server, id);
    assert Current(GetBucket(c, t).issues, t, server);
    if id in Ids(GetBucket(c, t).issues) { CurrentElsewhere(c, server, id, t); }
    RowsLeftAre(c, id, t);
    RowsLeftCurrent(GetBucket(c, t).issues, t, server[id].status, server, after, id);
  }

  lemma RemoveShowsCurrent(c: ListCache, server: Server, after: Server, w: World, key: ListKey, id: string, t: Status)
    requires Agrees(c, server, w, key) && OneRowWritten(server, after, id) && FindIssueLocation(c, id).Some?
    ensures var rows := GetBucket(RemoveIssueFromBuckets(c, id), t).issues;
            Current(rows, t, after) && Ids(rows) <= Matching(after, w, key, t)
  {
    AgreeingLocation(c, server, w, key, id);
    CurrentLocation(c, server, id);
    var rows := GetBucket(RemoveIssueFromBuckets(c, id), t).issues;
    RemovedRowsCurrent(c, server, after, id, t);
    assert BucketAgrees(GetBucket(c, t), t, Matching(server, w, key, t), server);
    MatchingAfter(server, after, w, key, id, t);
    forall i | i in Ids(rows) ensures i in Matching(after, w, key, t) {
      assert i != id && i in Matching(server, w, key, t);
    }
  }

  /** A row in the list is counted in its bucket. */
  lemma CountedIsPositive(c: ListCache, server: Server, w: World, key: ListKey, id: string)
    requires Agrees(c, server, w, key) && id in server && InList(w, key, server[id])
    ensures GetBucket(c, server[id].status).total > 0
  {
    var s := server[id].status;
    assert BucketAgrees(GetBucket(c, s), s, Matching(server, w, key, s), server);
    assert id in Matching(server, w, key, s);
  }

  lemma RemovedBucketAgreesIff(c: ListCache, server: Server, after: Server, w: World, key: ListKey, id: string,
                               t: Status)
    requires Agrees(c, server, w, key) && OneRowWritten(server, after, id) && FindIssueLocation(c, id).Some?
    ensures BucketAgrees(GetBucket(RemoveIssueFromBuckets(c, id), t), t, Matching(after, w, key, t), after) <==>
            t != after[id].status || !InList(w, key, after[id])
  {
    AgreeingLocation(c, server, w, key, id);
    CurrentLocation(c, server, id);
    RowsLeftAre(c, id, t);
    RemoveShowsCurrent(c, server, after, w, key, id, t);
    DueIsExact(c, server, after, w, key, id, t);
    CountedIsPositive(c, server, w, key, id);
  }

  /** A removed card is right exactly when the written row is not in the list. */
  lemma RemoveAgreesIff(c: ListCache, server: Server, after: Server, w: World, key: ListKey, id: string)
    requires Agrees(c, server, w, key) && OneRowWritten(server, after, id)
    requires FindIssueLocation(c, id).Some?
    ensures Agrees(RemoveIssueFromBuckets(c, id), after, w, key) <==> !InList(w, key, after[id])
  {
    var next := RemoveIssueFromBuckets(c, id);
    forall t: Status
      ensures BucketAgrees(GetBucket(next, t), t, Matching(after, w, key, t), after) <==>
              t != after[id].status || !InList(w, key, after[id])
    {
      RemovedBucketAgreesIff(c, server, after, w, key, id, t);
    }
    if Agrees(next, after, w, key) {
      var t := after[id].status;
      assert BucketAgrees(GetBucket(next, t), t, Matching(after, w, key, t), after);
    }
  }

  lemma AbsentBucketAgreesIff(c: ListCache, b: Bucket, server: Server, after: Server, w: World, key: ListKey,
                              id: string, t: Status)
    requires Agrees(c, server, w, key) && OneRowWritten(server, after, id) && FindIssueLocation(c, id).None?
    requires b.issues == GetBucket(c, t).issues
    ensures BucketAgrees(b, t, Matching(after, w, key, t), after) <==>
            b.total == Due(GetBucket(c, t), t, w, key, server[id], after[id])
  {
    DueIsExact(c, server, after, w, key, id, t);
    MatchingAfter(server, after, w, key, id, t);
    assert BucketAgrees(GetBucket(c, t), t, Matching(server, w, key, t), server);
    assert id !in Ids(b.issues);
    assert Current(b.issues, t, after);
  }

  ghost predicate AllDue(c: ListCache, next: ListCache, w: World, key: ListKey, before: Issue, row: Issue) {
    forall t: Status :: GetBucket(next, t).total == Due(GetBucket(c, t), t, w, key, before, row)
  }

  /** The card is not loaded and the rows stay: the list is right exactly when every bucket shows the
      total that is due. */
  lemma AbsentAgreesIff(c: ListCache, next: ListCache, server: Server, after: Server, w: World, key: ListKey,
                        id: string)
    requires Agrees(c, server, w, key) && OneRowWritten(server, after, id) && FindIssueLocation(c, id).None?
    requires forall t: Status :: GetBucket(next, t).issues == GetBucket(c, t).issues
    ensures Agrees(next, after, w, key) <==> AllDue(c, next, w, key, server[id], after[id])
  {
    var before, row := server[id], after[id];
    if Agrees(next, after, w, key) {
      forall t: Status ensures GetBucket(next, t).total == Due(GetBucket(c, t), t, w, key, before, row) {
        AbsentBucketAgreesIff(c, GetBucket(next, t), server, after, w, key, id, t);
        assert BucketAgrees(GetBucket(next, t), t, Matching(after, w, key, t), after);
      }
    }
    if AllDue(c, next, w, key, before, row) {
      forall t: Status ensures BucketAgrees(GetBucket(next, t), t, Matching(after, w, key, t), after) {
        AbsentBucketAgreesIff(c, GetBucket(next, t), server, after, w, key, id, t);
        assert GetBucket(next, t).total == Due(GetBucket(c, t), t, w, key, before, row);
      }
    }
  }

  lemma MoveIsDue(c: ListCache, w: World, key: ListKey, before: Issue, row: Issue)
    requires InList(w, key, before) && InList(w, key, row) && GetBucket(c, before.status).total > 0
    ensures AllDue(c, MoveBucketTotal(c, before.status, row.status), w, key, before, row)
  {
  }

  lemma CountDownIsDueIff(c: ListCache, w: World, key: ListKey, before: Issue, row: Issue)
    requires InList(w, key, before) ==> GetBucket(c, before.status).total > 0
    ensures AllDue(c, DecrementBucketTotal(c, before.status), w, key, before, row) <==>
            !InList(w, key, row) && (InList(w, key, before) || GetBucket(c, before.status).total == 0)
  {
    var s, t, next := before.status, row.status, DecrementBucketTotal(c, before.status);
    assert GetBucket(next, s).total == Dec(GetBucket(c, s).total);
    assert forall u: Status :: u != s ==> GetBucket(next, u) == GetBucket(c, u);
    if AllDue(c, next, w, key, before, row) {
      assert GetBucket(next, s).total == Due(GetBucket(c, s), s, w, key, before, row);
      assert GetBucket(next, t).total == Due(GetBucket(c, t), t, w, key, before, row);
    }
  }

  lemma NothingIsDueIff(c: ListCache, w: World, key: ListKey, before: Issue, row: Issue)
    ensures AllDue(c, c, w, key, before, row) <==>
            InList(w, key, before) == InList(w, key, row) && (InList(w, key, before) ==> before.status == row.status)
  {
    var s, t := before.status, row.status;
    if AllDue(c, c, w, key, before, row) {
      assert GetBucket(c, s).total == Due(GetBucket(c, s), s, w, key, before, row);
      assert GetBucket(c, t).total == Due(GetBucket(c, t), t, w, key, before, row);
    }
  }

  // ----- the rules against one write -----

  /** The edit a list took is the one that the written row calls for: a card stays loaded if the row is in
      the list, a count goes down if the row left it, and nothing happens if nothing moved. */
  ghost predicate Fits(key: ListKey, w: World, c: ListCache, before: Issue, row: Issue, o: ListOutcome) {
    var was, now := InList(w, key, before), InList(w, key, row);
    || o.stale
    || if FindIssueLocation(c, before.id).Some? then FindIssueLocation(o.next, before.id).Some? <==> now
       else if o.written then !now && (was || GetBucket(c, before.status).total == 0)
       else was == now && (was ==> before.status == row.status)
  }

  /** A list with the card is right exactly when the card stays in it just if the written row is in it, whether
      or not the list is reported. */
  lemma LoadedListAgreesIff(key: ListKey, c: ListCache, server: Server, after: Server, w: World,
                            id: string, patch: Patch, changed: Dims, base: Option<Issue>)
    requires Agrees(c, server, w, key) && ServerWrite(server, after, id, patch, base)
    requires FindIssueLocation(c, id).Some?
    ensures var o := ReconcileList(key, c, id, patch, changed, base);
            Agrees(o.next, after, w, key) <==> (FindIssueLocation(o.next, id).Some? <==> InList(w, key, after[id]))
  {
    AgreeingIsValid(c, server, w, key);
    var o := ReconcileList(key, c, id, patch, changed, base);
    if o.next == PatchIssueInBuckets(c, id, patch) {
      PatchKeeps(c, id, patch);
      PatchAgreesIff(c, server, after, w, key, id, patch);
    } else {
      RemoveKeeps(c, id);
      RemoveAgreesIff(c, server, after, w, key, id);
    }
  }

  /** What the rules write to a list without the card: one off its old column, or, if they report it too, the move
      of one count; its rows stay. */
  lemma AbsentOutcome(key: ListKey, c: ListCache, id: string, patch: Patch, changed: Dims, base: Option<Issue>)
    requires FindIssueLocation(c, id).None?
    ensures var o := ReconcileList(key, c, id, patch, changed, base);
            && (o.written && !o.stale ==> base.Some? && o.next == DecrementBucketTotal(c, base.value.status))
            && (o.written && o.stale ==>
                  base.Some? && o.next == MoveBucketTotal(c, base.value.status, Merge(base.value, patch).status))
            && (!o.written ==> o.next == c)
            && forall t: Status :: GetBucket(o.next, t).issues == GetBucket(c, t).issues
  {
  }

  lemma AbsentListAgreesIff(key: ListKey, c: ListCache, server: Server, after: Server, w: World,
                            id: string, patch: Patch, changed: Dims, base: Option<Issue>)
    requires Agrees(c, server, w, key) && ServerWrite(server, after, id, patch, base)
    requires FindIssueLocation(c, id).None?
    ensures var o := ReconcileList(key, c, id, patch, changed, base);
            o.stale || Agrees(o.next, after, w, key) <==> Fits(key, w, c, server[id], after[id], o)
  {
    var o := ReconcileList(key, c, id, patch, changed, base);
    AbsentOutcome(key, c, id, patch, changed, base);
    AbsentAgreesIff(c, o.next, server, after, w, key, id);
    NothingIsDueIff(c, w, key, server[id], after[id]);
    if InList(w, key, server[id]) { CountedIsPositive(c, server, w, key, id); }
    CountDownIsDueIff(c, w, key, server[id], after[id]);
  }

  /** One agreeing list under one server write, whatever the flags say: it agrees again, or is reported,
      exactly when its edit fits. */
  lemma ListAgreesIff(key: ListKey, c: ListCache, server: Server, after: Server, w: World,
                      id: string, patch: Patch, changed: Dims, base: Option<Issue>)
    requires Agrees(c, server, w, key) && ServerWrite(server, after, id, patch, base)
    ensures var o := ReconcileList(key, c, id, patch, changed, base);
            o.stale || Agrees(o.next, after, w, key) <==> Fits(key, w, c, server[id], after[id], o)
  {
    if FindIssueLocation(c, id).Some? {
      LoadedListAgreesIff(key, c, server, after, w, id, patch, changed, base);
    } else {
      AbsentListAgreesIff(key, c, server, after, w, id, patch, changed, base);
    }
  }

  /** What the rules do to a list that counts the card before and after. */
  lemma MemberOutcome(key: ListKey, c: ListCache, id: string, patch: Patch, changed: Dims, base: Issue)
    requires FindIssueLocation(c, id).None? && (Merge(base, patch).status != base.status ==> changed.status)
    requires Matches(key, AsPatch(base)).Yes? && Matches(key, AsPatch(Merge(base, patch))).Yes?
    ensures var next := ReconcileList(key, c, id, patch, changed, Some(base)).next;
            next == if Merge(base, patch).status == base.status then c
                    else MoveBucketTotal(c, base.status, Merge(base, patch).status)
  {
  }

  /** A list that is flagged because a counted card moved has the right counts already, if the date filter
      takes the card before and after. */
  lemma MovedListAgreesToo(key: ListKey, c: ListCache, server: Server, after: Server, w: World,
                           id: string, patch: Patch, changed: Dims, base: Issue)
    requires Agrees(c, server, w, key) && ServerWrite(server, after, id, patch, Some(base))
    requires Covers(changed, server[id], after[id]) && FindIssueLocation(c, id).None?
    requires Matches(key, AsPatch(base)).Yes? && Matches(key, AsPatch(Merge(base, patch))).Yes?
    requires InWindow(key.sort.window, server[id]) && InWindow(key.sort.window, after[id])
    ensures Agrees(ReconcileList(key, c, id, patch, changed, Some(base)).next, after, w, key)
  {
    var before, row, o := server[id], after[id], ReconcileList(key, c, id, patch, changed, Some(base));
    JudgedIn(key, w, base, before);
    JudgedIn(key, w, Merge(base, patch), row);
    MemberOutcome(key, c, id, patch, changed, base);
    AbsentOutcome(key, c, id, patch, changed, Some(base));
    AbsentAgreesIff(c, o.next, server, after, w, key, id);
    CountedIsPositive(c, server, w, key, id);
    MoveIsDue(c, w, key, before, row);
    NothingIsDueIff(c, w, key, before, row);
  }

  lemma JudgedIn(key: ListKey, w: World, copy: Issue, row: Issue)
    requires SameRow(copy, row) && Matches(key, AsPatch(copy)).Yes? && InWindow(key.sort.window, row)
    ensures InList(w, key, row)
  {
    VerdictIsSound(w, AsPatch(copy), copy, key.ContractScope(), key.ContractFilter());
    SameRowsJudgedAlike(w, key.ContractScope(), key.ContractFilter(), copy, row);
  }
}

/** The bucketed list cache and its pure edits (packages/core/issues/cache-helpers.ts). */
module Buckets {
  import opened Options
  import opened IssueTypes

  const ALL_STATUSES := [Backlog, Todo, InProgress, InReview, Done, Blocked, Cancelled]

  datatype Location = Location(status: Status, issue: Issue)

  // ----- one column of rows -----

  function Ids(rows: seq<Issue>): set<string> {
    if rows == [] then {} else {rows[0].id} + Ids(rows[1..])
  }

  /** `rows.find((i) => i.id === id)` */
  function FindRow(rows: seq<Issue>, id: string): (r: Option<Issue>)
    ensures r.Some? <==> id in Ids(rows)
    ensures r.Some? ==> r.value.id == id
  {
    if rows == [] then None else if rows[0].id == id then Some(rows[0]) else FindRow(rows[1..], id)
  }

  /** `rows.filter((i) => i.id !== id)` */
  function Without(rows: seq<Issue>, id: string): seq<Issue> {
    if rows == [] then []
    else if rows[0].id == id then Without(rows[1..], id)
    else [rows[0]] + Without(rows[1..], id)
  }

  /** `rows.map((i) => (i.id === id ? row : i))` */
  function Replaced(rows: seq<Issue>, id: string, row: Issue): seq<Issue> {
    if rows == [] then []
    else [if rows[0].id == id then row else rows[0]] + Replaced(rows[1..], id, row)
  }

  /** Insert before the first row whose position is greater, else at the end. */
  function InsertByPosition(rows: seq<Issue>, issue: Issue): seq<Issue> {
    if rows == [] then [issue]
    else if rows[0].position > issue.position then [issue] + rows
    else [rows[0]] + InsertByPosition(rows[1..], issue)
  }

  /** The column of a card that keeps its status: re-inserted when its position changed, else in place. */
  function PatchColumn(rows: seq<Issue>, row: Issue, patch: Patch): seq<Issue> {
    if patch.position.Some? && patch.position.value != row.position
    then InsertByPosition(Without(rows, row.id), Merge(row, patch))
    else Replaced(rows, row.id, Merge(row, patch))
  }

  // ----- the cache -----

  function GetBucket(c: ListCache, status: Status): Bucket {
    if status in c.byStatus then c.byStatus[status] else Bucket([], 0)
  }

  function SetBucket(c: ListCache, status: Status, bucket: Bucket): ListCache {
    ListCache(c.byStatus[status := bucket])
  }

  function LocateIn(c: ListCache, id: string, statuses: seq<Status>): (r: Option<Location>)
    ensures r.Some? ==> FindRow(GetBucket(c, r.value.status).issues, id) == Some(r.value.issue)
    ensures r.None? <==> forall s <- statuses :: id !in Ids(GetBucket(c, s).issues)
  {
    if statuses == [] then None
    else
      var found := FindRow(GetBucket(c, statuses[0]).issues, id);
      if found.Some? then Some(Location(statuses[0], found.value)) else LocateIn(c, id, statuses[1..])
  }

  lemma EveryStatusIsListed()
    ensures forall s: Status :: s in ALL_STATUSES
  {
    forall s: Status ensures s in ALL_STATUSES {
      match s
      case Backlog => assert ALL_STATUSES[0] == s;
      case Todo => assert ALL_STATUSES[1] == s;
      case InProgress => assert ALL_STATUSES[2] == s;
      case InReview => assert ALL_STATUSES[3] == s;
      case Done => assert ALL_STATUSES[4] == s;
      case Blocked => assert ALL_STATUSES[5] == s;
      case Cancelled => assert ALL_STATUSES[6] == s;
    }
  }

  /** Locate which status bucket holds `id`, if any: the first one in the fixed status order. */
  function FindIssueLocation(c: ListCache, id: string): (r: Option<Location>)
    ensures r.Some? ==> FindRow(GetBucket(c, r.value.status).issues, id) == Some(r.value.issue)
    ensures r.None? <==> forall s: Status :: id !in Ids(GetBucket(c, s).issues)
  {
    EveryStatusIsListed();
    LocateIn(c, id, ALL_STATUSES)
  }

  /** `Math.max(0, total - 1)` */
  function Dec(total: nat): nat {
    if total == 0 then 0 else total - 1
  }

  function AddIssueToBuckets(c: ListCache, issue: Issue): ListCache {
    var bucket := GetBucket(c, issue.status);
    if issue.id in Ids(bucket.issues) then c
    else SetBucket(c, issue.status, Bucket(bucket.issues + [issue], bucket.total + 1))
  }

  /** The two halves of a status move; removing a card is the first half alone. */
  function LeaveBucket(c: ListCache, status: Status, id: string): ListCache {
    var bucket := GetBucket(c, status);
    SetBucket(c, status, Bucket(Without(bucket.issues, id), Dec(bucket.total)))
  }

  function EnterBucket(c: ListCache, issue: Issue, status: Status): ListCache {
    var bucket := GetBucket(c, status);
    SetBucket(c, status, Bucket(InsertByPosition(bucket.issues, issue), bucket.total + 1))
  }

  function RemoveIssueFromBuckets(c: ListCache, id: string): ListCache {
    match FindIssueLocation(c, id)
    case None => c
    case Some(loc) => LeaveBucket(c, loc.status, id)
  }

  function SetTotal(c: ListCache, status: Status, total: nat): ListCache {
    SetBucket(c, status, GetBucket(c, status).(total := total))
  }

  function MoveBucketTotal(c: ListCache, from: Status, to: Status): ListCache {
    if from == to then c
    else SetTotal(SetTotal(c, from, Dec(GetBucket(c, from).total)), to, GetBucket(c, to).total + 1)
  }

  function DecrementBucketTotal(c: ListCache, status: Status): ListCache {
    SetTotal(c, status, Dec(GetBucket(c, status).total))
  }

  function PatchIssueInBuckets(c: ListCache, id: string, patch: Patch): ListCache {
    match FindIssueLocation(c, id)
    case None => c
    case Some(loc) =>
      var nextStatus := Pick(patch.status, loc.status);
      if nextStatus == loc.status then
        var bucket := GetBucket(c, loc.status);
        SetBucket(c, loc.status, bucket.(issues := PatchColumn(bucket.issues, loc.issue, patch)))
      else
        EnterBucket(LeaveBucket(c, loc.status, id), Merge(loc.issue, patch), nextStatus)
  }

  // ----- what the column edits keep -----

  /** Distinct rows, all of one status. */
  ghost predicate ColumnOk(rows: seq<Issue>, s: Status) {
    rows == [] || (rows[0].status == s && rows[0].id !in Ids(rows[1..]) && ColumnOk(rows[1..], s))
  }

  ghost predicate Sorted(rows: seq<Issue>) {
    rows == [] || ((forall r <- rows[1..] :: rows[0].position <= r.position) && Sorted(rows[1..]))
  }

  lemma {:induction false} WithoutKeeps(rows: seq<Issue>, id: string, s: Status)
    requires ColumnOk(rows, s)
    ensures var r := Without(rows, id);
            && ColumnOk(r, s) && Ids(r) == Ids(rows) - {id}
            && |r| == |rows| - (if id in Ids(rows) then 1 else 0)
  {
    if rows != [] {
      WithoutKeeps(rows[1..], id, s);
      var rest := Without(rows[1..], id);
      assert ([rows[0]] + rest)[1..] == rest;
    }
  }

  lemma {:induction false} WithoutFinds(rows: seq<Issue>, id: string, other: string)
    ensures FindRow(Without(rows, id), other) == if other == id then None else FindRow(rows, other)
  {
    if rows != [] {
      WithoutFinds(rows[1..], id, other);
      var rest := Without(rows[1..], id);
      assert ([rows[0]] + rest)[1..] == rest;
    }
  }

  lemma {:induction false} InsertKeeps(rows: seq<Issue>, issue: Issue, s: Status)
    requires ColumnOk(rows, s) && issue.status == s && issue.id !in Ids(rows)
    ensures var r := InsertByPosition(rows, issue);
            && ColumnOk(r, s) && Ids(r) == Ids(rows) + {issue.id} && |r| == |rows| + 1
  {
    if rows != [] {
      InsertKeeps(rows[1..], issue, s);
      var rest := InsertByPosition(rows[1..], issue);
      assert ([rows[0]] + rest)[1..] == rest && ([issue] + rows)[1..] == rows;
    }
  }

  /** The inserted row is found, every other row is found as before, and the other rows keep their order. */
  lemma {:induction false} InsertFinds(rows: seq<Issue>, issue: Issue, other: string)
    requires issue.id !in Ids(rows)
    ensures FindRow(InsertByPosition(rows, issue), other) ==
            if other == issue.id then Some(issue) else FindRow(rows, other)
    ensures Without(InsertByPosition(rows, issue), issue.id) == rows
  {
    if rows != [] {
      InsertFinds(rows[1..], issue, other);
      WithoutAbsent(rows, issue.id);
      var rest := InsertByPosition(rows[1..], issue);
      assert ([rows[0]] + rest)[1..] == rest && ([issue] + rows)[1..] == rows;
    }
  }

  lemma {:induction false} WithoutAbsent(rows: seq<Issue>, id: string)
    requires id !in Ids(rows)
    ensures Without(rows, id) == rows
  {
    if rows != [] {
      WithoutAbsent(rows[1..], id);
    }
  }

  lemma {:induction false} ReplacedKeeps(rows: seq<Issue>, row: Issue, s: Status, other: string)
    requires ColumnOk(rows, s) && row.status == s
    ensures var r := Replaced(rows, row.id, row);
            && ColumnOk(r, s) && Ids(r) == Ids(rows) && |r| == |rows|
            && FindRow(r, other) == if other == row.id && row.id in Ids(rows) then Some(row) else FindRow(rows, other)
  {
    if rows != [] {
      ReplacedKeeps(rows[1..], row, s, other);
      var r := Replaced(rows, row.id, row);
      assert r[1..] == Replaced(rows[1..], row.id, row);
    }
  }

  lemma {:induction false} ReplacedBySelf(rows: seq<Issue>, row: Issue)
    requires FindRow(rows, row.id) == Some(row) || row.id !in Ids(rows)
    requires exists s :: ColumnOk(rows, s)
    ensures Replaced(rows, row.id, row) == rows
  {
    if rows != [] {
      var s :| ColumnOk(rows, s);
      assert ColumnOk(rows[1..], s);
      ReplacedBySelf(rows[1..], row);
    }
  }

  lemma PatchColumnKeeps(rows: seq<Issue>, row: Issue, patch: Patch, other: string)
    requires ColumnOk(rows, row.status) && FindRow(rows, row.id) == Some(row) && Merge(row, patch).status == row.status
    ensures var r := PatchColumn(rows, row, patch);
            && ColumnOk(r, row.status) && Ids(r) == Ids(rows) && |r| == |rows|
            && FindRow(r, other) == if other == row.id then Some(Merge(row, patch)) else FindRow(rows, other)
  {
    var merged := Merge(row, patch);
    WithoutKeeps(rows, row.id, row.status);
    WithoutFinds(rows, row.id, other);
    InsertKeeps(Without(rows, row.id), merged, row.status);
    InsertFinds(Without(rows, row.id), merged, other);
    ReplacedKeeps(rows, merged, row.status, other);
  }

  /** The row goes in before the first row of a greater position, or at the end. */
  lemma {:induction false} InsertSplits(rows: seq<Issue>, issue: Issue) returns (a: seq<Issue>, b: seq<Issue>)
    ensures rows == a + b && InsertByPosition(rows, issue) == a + [issue] + b
    ensures (forall r <- a :: r.position <= issue.position) && (b != [] ==> b[0].position > issue.position)
  {
    if rows == [] || rows[0].position > issue.position {
      a, b := [], rows;
    } else {
      var a', b' := InsertSplits(rows[1..], issue);
      a, b := [rows[0]] + a', b';
      assert a + [issue] + b == [rows[0]] + (a' + [issue] + b');
    }
  }

  lemma {:induction false} ReplacedAt(rows: seq<Issue>, id: string, row: Issue, i: nat)
    requires i < |rows|
    ensures |Replaced(rows, id, row)| == |rows|
    ensures Replaced(rows, id, row)[i] == if rows[i].id == id then row else rows[i]
  {
    if |rows| > 1 {
      ReplacedAt(rows[1..], id, row, if i > 0 then i - 1 else 0);
    }
  }

  /** An edit that does not move the card keeps every row in its slot. */
  lemma PatchKeepsSlots(rows: seq<Issue>, row: Issue, patch: Patch, i: nat)
    requires i < |rows| && (patch.position.None? || patch.position.value == row.position)
    ensures var next := PatchColumn(rows, row, patch);
            && |next| == |rows|
            && (if rows[i].id == row.id then ShowsWrite(row, next[i], patch) else next[i] == rows[i])
  {
    ReplacedAt(rows, row.id, Merge(row, patch), i);
    MergeShowsWrite(row, Merge(row, patch), patch);
  }

  lemma {:induction false} ReplacedOthers(rows: seq<Issue>, id: string, row: Issue)
    requires row.id == id
    ensures Without(Replaced(rows, id, row), id) == Without(rows, id)
  {
    if rows != [] {
      ReplacedOthers(rows[1..], id, row);
      assert Replaced(rows, id, row)[1..] == Replaced(rows[1..], id, row);
    }
  }

  /** Leaving out an id leaves out its rows and nothing else, in order. */
  lemma {:induction false} WithoutConcat(a: seq<Issue>, b: seq<Issue>, id: string)
    ensures Without(a + b, id) == Without(a, id) + Without(b, id)
  {
    if a == [] {
      assert a + b == b;
    } else {
      assert (a + b)[1..] == a[1..] + b && (a + b)[0] == a[0];
      WithoutConcat(a[1..], b, id);
    }
  }

  lemma WithoutOne(row: Issue, id: string)
    ensures Without([row], id) == if row.id == id then [] else [row]
  {
    assert [row][1..] == [];
  }

  lemma {:induction false} WithoutKeepsSorted(rows: seq<Issue>, id: string)
    requires Sorted(rows)
    ensures Sorted(Without(rows, id)) && forall r <- Without(rows, id) :: r in rows
  {
    if rows != [] {
      WithoutKeepsSorted(rows[1..], id);
      var rest := Without(rows[1..], id);
      assert ([rows[0]] + rest)[1..] == rest;
    }
  }

  lemma {:induction false} InsertKeepsSorted(rows: seq<Issue>, issue: Issue)
    requires Sorted(rows)
    ensures Sorted(InsertByPosition(rows, issue))
    ensures forall r <- InsertByPosition(rows, issue) :: r in rows || r == issue
  {
    if rows != [] {
      InsertKeepsSorted(rows[1..], issue);
      var rest := InsertByPosition(rows[1..], issue);
      assert ([rows[0]] + rest)[1..] == rest && ([issue] + rows)[1..] == rows;
    }
  }

  lemma {:induction false} ReplacedKeepsSorted(rows: seq<Issue>, row: Issue)
    requires Sorted(rows) && forall r <- rows :: r.id == row.id ==> r.position == row.position
    ensures Sorted(Replaced(rows, row.id, row))
    ensures forall r <- Replaced(rows, row.id, row) :: exists q <- rows :: q.position == r.position
  {
    if rows != [] {
      ReplacedKeepsSorted(rows[1..], row);
      var r := Replaced(rows, row.id, row);
      assert r[1..] == Replaced(rows[1..], row.id, row);
      assert r[0].position == rows[0].position;
    }
  }

  lemma {:induction false} FoundIsTheOnlyOne(rows: seq<Issue>, s: Status, r: Issue)
    requires ColumnOk(rows, s) && r in rows
    ensures FindRow(rows, r.id) == Some(r)
  {
    if r != rows[0] {
      assert r in rows[1..];
      FoundIsTheOnlyOne(rows[1..], s, r);
      assert r.id in Ids(rows[1..]);
    }
  }

  /** A position-sorted column stays sorted, whether the card is re-inserted or patched in place. */
  lemma PatchColumnKeepsSorted(rows: seq<Issue>, row: Issue, patch: Patch)
    requires Sorted(rows) && ColumnOk(rows, row.status) && FindRow(rows, row.id) == Some(row)
    ensures Sorted(PatchColumn(rows, row, patch))
  {
    WithoutKeepsSorted(rows, row.id);
    InsertKeepsSorted(Without(rows, row.id), Merge(row, patch));
    forall r | r in rows && r.id == row.id ensures r == row {
      FoundIsTheOnlyOne(rows, row.status, r);
    }
    if !(patch.position.Some? && patch.position.value != row.position) {
      ReplacedKeepsSorted(rows, Merge(row, patch));
    }
  }

  // ----- the invariant of a loaded list -----

  ghost predicate BucketOk(b: Bucket, s: Status) {
    ColumnOk(b.issues, s) && |b.issues| <= b.total
  }

  /** Every bucket holds distinct rows of its own status and no more than it counts, and no id
      sits in two buckets. */
  ghost predicate Valid(c: ListCache) {
    && (forall s: Status :: BucketOk(GetBucket(c, s), s))
    && (forall s: Status, t: Status :: s != t ==> Ids(GetBucket(c, s).issues) !! Ids(GetBucket(c, t).issues))
  }

  function SumOver(c: ListCache, statuses: seq<Status>): nat {
    if statuses == [] then 0 else GetBucket(c, statuses[0]).total + SumOver(c, statuses[1..])
  }

  /** The number of issues the list counts. */
  function SumTotals(c: ListCache): nat {
    SumOver(c, ALL_STATUSES)
  }

  lemma {:induction false} SumOverAfterSet(c: ListCache, s: Status, b: Bucket, statuses: seq<Status>)
    requires forall i, j :: 0 <= i < j < |statuses| ==> statuses[i] != statuses[j]
    ensures SumOver(SetBucket(c, s, b), statuses) ==
            SumOver(c, statuses) + if s in statuses then b.total - GetBucket(c, s).total else 0
  {
    if statuses != [] {
      SumOverAfterSet(c, s, b, statuses[1..]);
    }
  }

  lemma SumAfterSet(c: ListCache, s: Status, b: Bucket)
    ensures SumTotals(SetBucket(c, s, b)) == SumTotals(c) - GetBucket(c, s).total + b.total
  {
    EveryStatusIsListed();
    SumOverAfterSet(c, s, b, ALL_STATUSES);
  }

  lemma {:induction false} RowStatus(rows: seq<Issue>, s: Status, id: string)
    requires ColumnOk(rows, s) && id in Ids(rows)
    ensures FindRow(rows, id).value.status == s
  {
    if rows[0].id != id {
      RowStatus(rows[1..], s, id);
    }
  }

  /** In a valid cache the bucket that holds an id is the one that is found. */
  lemma LocationIs(c: ListCache, id: string, s: Status)
    requires Valid(c) && id in Ids(GetBucket(c, s).issues)
    ensures FindIssueLocation(c, id) == Some(Location(s, FindRow(GetBucket(c, s).issues, id).value))
    ensures FindIssueLocation(c, id).value.issue.status == s
  {
    assert BucketOk(GetBucket(c, s), s);
    RowStatus(GetBucket(c, s).issues, s, id);
    var loc := FindIssueLocation(c, id);
    assert forall t: Status :: t != s ==> Ids(GetBucket(c, t).issues) !! Ids(GetBucket(c, s).issues);
  }

  /** One bucket may lose ids, and gain one id that no other bucket holds. */
  lemma SetBucketKeepsValid(c: ListCache, s: Status, b: Bucket, id: string, next: ListCache)
    requires Valid(c) && BucketOk(b, s) && next == SetBucket(c, s, b)
    requires Ids(b.issues) <= Ids(GetBucket(c, s).issues) + {id}
    requires forall t: Status :: t != s ==> id !in Ids(GetBucket(c, t).issues)
    ensures Valid(next)
  {
    assert forall t: Status :: GetBucket(next, t) == if t == s then b else GetBucket(c, t);
  }

  lemma LeaveBucketKeeps(c: ListCache, s: Status, id: string, next: ListCache)
    requires Valid(c) && id in Ids(GetBucket(c, s).issues) && next == LeaveBucket(c, s, id)
    ensures Valid(next) && SumTotals(next) == SumTotals(c) - 1
    ensures FindIssueLocation(next, id).None?
  {
    var was := GetBucket(c, s);
    var b := Bucket(Without(was.issues, id), Dec(was.total));
    assert BucketOk(was, s);
    WithoutKeeps(was.issues, id, s);
    SetBucketKeepsValid(c, s, b, id, next);
    SumAfterSet(c, s, b);
    forall t: Status ensures id !in Ids(GetBucket(next, t).issues) {
      if t != s {
        assert Ids(GetBucket(c, t).issues) !! Ids(was.issues);
      }
    }
  }

  lemma EnterBucketKeeps(c: ListCache, row: Issue, next: ListCache)
    requires Valid(c) && FindIssueLocation(c, row.id).None? && next == EnterBucket(c, row, row.status)
    ensures Valid(next) && SumTotals(next) == SumTotals(c) + 1
    ensures FindIssueLocation(next, row.id) == Some(Location(row.status, row))
  {
    var was := GetBucket(c, row.status);
    var b := Bucket(InsertByPosition(was.issues, row), was.total + 1);
    assert BucketOk(was, row.status);
    InsertKeeps(was.issues, row, row.status);
    InsertFinds(was.issues, row, row.id);
    SetBucketKeepsValid(c, row.status, b, row.id, next);
    SumAfterSet(c, row.status, b);
    assert GetBucket(next, row.status) == b;
    LocationIs(next, row.id, row.status);
  }

  /** Patching a loaded card keeps the invariant and the sum of the counts, and the card is then
      found, merged, in the bucket of its status; a card not loaded changes nothing. */
  lemma PatchKeeps(c: ListCache, id: string, patch: Patch)
    requires Valid(c)
    ensures var next := PatchIssueInBuckets(c, id, patch);
            && Valid(next) && SumTotals(next) == SumTotals(c)
            && match FindIssueLocation(c, id)
               case None => next == c
               case Some(loc) =>
                 FindIssueLocation(next, id) == Some(Location(Pick(patch.status, loc.status), Merge(loc.issue, patch)))
  {
    var loc := FindIssueLocation(c, id);
    if loc.Some? {
      var s, row := loc.value.status, loc.value.issue;
      var next := PatchIssueInBuckets(c, id, patch);
      LocationIs(c, id, s);
      if Merge(row, patch).status == s {
        var was := GetBucket(c, s);
        var b := was.(issues := PatchColumn(was.issues, row, patch));
        assert BucketOk(was, s);
        PatchColumnKeeps(was.issues, row, patch, id);
        assert forall t: Status :: t != s ==> Ids(GetBucket(c, t).issues) !! Ids(was.issues);
        SetBucketKeepsValid(c, s, b, id, next);
        SumAfterSet(c, s, b);
        assert GetBucket(next, s) == b;
        LocationIs(next, id, s);
      } else {
        var mid := LeaveBucket(c, s, id);
        LeaveBucketKeeps(c, s, id, mid);
        EnterBucketKeeps(mid, Merge(row, patch), next);
      }
    }
  }

  lemma PatchShape(c: ListCache, id: string, patch: Patch, s: Status, row: Issue)
    requires FindIssueLocation(c, id) == Some(Location(s, row)) && row.status == s
    ensures PatchIssueInBuckets(c, id, patch) ==
            if Merge(row, patch).status == s
            then SetBucket(c, s, GetBucket(c, s).(issues := PatchColumn(GetBucket(c, s).issues, row, patch)))
            else EnterBucket(LeaveBucket(c, s, id), Merge(row, patch), Merge(row, patch).status)
  {
  }

  /** What a patch of a loaded card leaves in one bucket. */
  function PatchedBucket(b: Bucket, t: Status, s: Status, row: Issue, patch: Patch): Bucket {
    var merged := Merge(row, patch);
    if t == s && merged.status == s then b.(issues := PatchColumn(b.issues, row, patch))
    else if t == s then Bucket(Without(b.issues, row.id), Dec(b.total))
    else if t == merged.status then Bucket(InsertByPosition(b.issues, merged), b.total + 1)
    else b
  }

  lemma PatchedBucketIs(c: ListCache, id: string, patch: Patch, s: Status, row: Issue, t: Status)
    requires FindIssueLocation(c, id) == Some(Location(s, row)) && row.status == s
    ensures GetBucket(PatchIssueInBuckets(c, id, patch), t) == PatchedBucket(GetBucket(c, t), t, s, row, patch)
  {
    PatchShape(c, id, patch, s, row);
    if Merge(row, patch).status != s {
      ShapedBucket(c, PatchIssueInBuckets(c, id, patch), s, row, patch, t);
    }
  }

  lemma ShapedBucket(c: ListCache, next: ListCache, s: Status, row: Issue, patch: Patch, t: Status)
    requires Merge(row, patch).status != s
    requires next == EnterBucket(LeaveBucket(c, s, row.id), Merge(row, patch), Merge(row, patch).status)
    ensures GetBucket(next, t) == PatchedBucket(GetBucket(c, t), t, s, row, patch)
  {
  }

  /** In every bucket the other rows are the same, in the same order. */
  lemma PatchKeepsOthers(c: ListCache, id: string, patch: Patch, t: Status)
    requires Valid(c) && FindIssueLocation(c, id).Some?
    ensures Without(GetBucket(PatchIssueInBuckets(c, id, patch), t).issues, id) == Without(GetBucket(c, t).issues, id)
  {
    var Location(s, row) := FindIssueLocation(c, id).value;
    var rows, merged := GetBucket(c, t).issues, Merge(row, patch);
    LocationIs(c, id, s);
    PatchedBucketIs(c, id, patch, s, row, t);
    assert BucketOk(GetBucket(c, s), s);
    WithoutKeeps(GetBucket(c, s).issues, id, s);
    if t == s {
      WithoutAbsent(Without(rows, id), id);
      InsertFinds(Without(rows, id), merged, id);
      ReplacedOthers(rows, id, merged);
    } else if t == merged.status {
      assert Ids(GetBucket(c, t).issues) !! Ids(GetBucket(c, s).issues);
      InsertFinds(rows, merged, id);
      WithoutAbsent(rows, id);
    }
  }

  lemma OthersAreFound(c: ListCache, next: ListCache, id: string, other: string)
    requires Valid(c) && Valid(next) && other != id
    requires forall t: Status :: Without(GetBucket(next, t).issues, id) == Without(GetBucket(c, t).issues, id)
    ensures FindIssueLocation(next, other) == FindIssueLocation(c, other)
  {
    forall t: Status ensures FindRow(GetBucket(next, t).issues, other) == FindRow(GetBucket(c, t).issues, other) {
      WithoutFinds(GetBucket(next, t).issues, id, other);
      WithoutFinds(GetBucket(c, t).issues, id, other);
    }
    var loc := FindIssueLocation(c, other);
    if loc.Some? {
      LocationIs(c, other, loc.value.status);
      LocationIs(next, other, loc.value.status);
    }
  }

  /** The patched card is found under its status, showing the write, and every other card is found as it was. */
  lemma PatchShowsWrite(c: ListCache, id: string, patch: Patch, other: string)
    requires Valid(c) && FindIssueLocation(c, id).Some? && other != id
    ensures var next, was := PatchIssueInBuckets(c, id, patch), FindIssueLocation(c, id).value.issue;
            && FindIssueLocation(next, id).Some?
            && ShowsWrite(was, FindIssueLocation(next, id).value.issue, patch)
            && FindIssueLocation(next, id).value.status == FindIssueLocation(next, id).value.issue.status
            && FindIssueLocation(next, other) == FindIssueLocation(c, other)
  {
    var next, was := PatchIssueInBuckets(c, id, patch), FindIssueLocation(c, id).value.issue;
    PatchKeeps(c, id, patch);
    MergeShowsWrite(was, Merge(was, patch), patch);
    LocationIs(next, id, FindIssueLocation(next, id).value.status);
    forall t: Status
      ensures Without(GetBucket(next, t).issues, id) == Without(GetBucket(c, t).issues, id)
    {
      PatchKeepsOthers(c, id, patch, t);
    }
    OthersAreFound(c, next, id, other);
  }

  /** Every position-sorted column stays sorted under a patch. */
  lemma PatchKeepsSorted(c: ListCache, id: string, patch: Patch, t: Status)
    requires Valid(c) && Sorted(GetBucket(c, t).issues)
    ensures Sorted(GetBucket(PatchIssueInBuckets(c, id, patch), t).issues)
  {
    var loc := FindIssueLocation(c, id);
    if loc.Some? {
      var s, row := loc.value.status, loc.value.issue;
      var rows := GetBucket(c, t).issues;
      LocationIs(c, id, s);
      PatchedBucketIs(c, id, patch, s, row, t);
      assert BucketOk(GetBucket(c, s), s);
      if t == s && Merge(row, patch).status == s {
        PatchColumnKeepsSorted(rows, row, patch);
      } else if t == s {
        WithoutKeepsSorted(rows, id);
      } else if t == Merge(row, patch).status {
        InsertKeepsSorted(rows, Merge(row, patch));
      }
    }
  }

  /** A patch the loaded card already carries changes nothing. */
  lemma CarriedPatchIsNoOp(c: ListCache, id: string, patch: Patch)
    requires Valid(c)
    requires var loc := FindIssueLocation(c, id); loc.Some? ==> Carries(loc.value.issue, patch)
    ensures PatchIssueInBuckets(c, id, patch) == c
  {
    var loc := FindIssueLocation(c, id);
    if loc.Some? {
      LocationIs(c, id, loc.value.status);
      assert BucketOk(GetBucket(c, loc.value.status), loc.value.status);
      ReplacedBySelf(GetBucket(c, loc.value.status).issues, loc.value.issue);
    }
  }

  /** Applying one patch twice is applying it once. */
  lemma PatchTwice(c: ListCache, id: string, patch: Patch)
    requires Valid(c)
    ensures var once := PatchIssueInBuckets(c, id, patch);
            PatchIssueInBuckets(once, id, patch) == once
  {
    PatchKeeps(c, id, patch);
    var loc := FindIssueLocation(c, id);
    if loc.Some? {
      MergedCarries(loc.value.issue, patch);
      CarriedPatchIsNoOp(PatchIssueInBuckets(c, id, patch), id, patch);
    }
  }

  /** Removing a card takes it out of the cache, one unit out of the counts, and keeps the order
      of what is left. */
  lemma RemoveKeeps(c: ListCache, id: string)
    requires Valid(c)
    ensures var next, loc := RemoveIssueFromBuckets(c, id), FindIssueLocation(c, id);
            && Valid(next) && FindIssueLocation(next, id).None?
            && SumTotals(next) == SumTotals(c) - (if loc.Some? then 1 else 0)
            && (forall t: Status :: Sorted(GetBucket(c, t).issues) ==> Sorted(GetBucket(next, t).issues))
  {
    var loc := FindIssueLocation(c, id);
    if loc.Some? {
      LeaveBucketKeeps(c, loc.value.status, id, RemoveIssueFromBuckets(c, id));
      if Sorted(GetBucket(c, loc.value.status).issues) {
        WithoutKeepsSorted(GetBucket(c, loc.value.status).issues, id);
      }
    }
  }

  /** Every bucket loses the rows of the id and nothing else, and one unit of count where the card was. */
  lemma RemovedBucketIs(c: ListCache, id: string, t: Status)
    requires Valid(c)
    ensures var b, next := GetBucket(c, t), GetBucket(RemoveIssueFromBuckets(c, id), t);
            && next.issues == Without(b.issues, id)
            && next.total == b.total - (if id in Ids(b.issues) then 1 else 0)
  {
    var b, loc := GetBucket(c, t), FindIssueLocation(c, id);
    assert BucketOk(b, t);
    WithoutKeeps(b.issues, id, t);
    if id in Ids(b.issues) {
      LocationIs(c, id, t);
    } else {
      WithoutAbsent(b.issues, id);
    }
    if loc.Some? {
      LocationIs(c, id, loc.value.status);
    }
  }

  lemma RemoveKeepsOthers(c: ListCache, id: string, other: string)
    requires Valid(c) && other != id
    ensures FindIssueLocation(RemoveIssueFromBuckets(c, id), other) == FindIssueLocation(c, other)
  {
    var next := RemoveIssueFromBuckets(c, id);
    RemoveKeeps(c, id);
    forall t: Status
      ensures Without(GetBucket(next, t).issues, id) == Without(GetBucket(c, t).issues, id)
    {
      RemovedBucketIs(c, id, t);
      WithoutKeepsAbsent(GetBucket(c, t).issues, id);
    }
    OthersAreFound(c, next, id, other);
  }

  lemma {:induction false} WithoutKeepsAbsent(rows: seq<Issue>, id: string)
    ensures id !in Ids(Without(rows, id)) && Without(Without(rows, id), id) == Without(rows, id)
  {
    if rows != [] {
      WithoutKeepsAbsent(rows[1..], id);
      if rows[0].id != id {
        assert Without(rows, id)[1..] == Without(rows[1..], id);
      }
    }
  }

  lemma CountOnlyEdit(c: ListCache, s: Status, total: nat, next: ListCache)
    requires Valid(c) && next == SetTotal(c, s, total)
    ensures Valid(next) <==> |GetBucket(c, s).issues| <= total
    ensures SumTotals(next) == SumTotals(c) - GetBucket(c, s).total + total
  {
    var b := GetBucket(c, s).(total := total);
    assert BucketOk(GetBucket(c, s), s);
    SumAfterSet(c, s, b);
    assert forall t: Status :: GetBucket(next, t) == if t == s then b else GetBucket(c, t);
    if |b.issues| > total {
      assert !BucketOk(GetBucket(next, s), s);
    }
  }

  /** Moving one unit of count is right exactly when the source bucket counts a card beyond its
      loaded window (or nothing moves). */
  lemma MoveTotalIsExact(c: ListCache, from: Status, to: Status, next: ListCache)
    requires Valid(c) && next == MoveBucketTotal(c, from, to)
    ensures Valid(next) && SumTotals(next) == SumTotals(c) <==>
            from == to || |GetBucket(c, from).issues| < GetBucket(c, from).total
  {
    if from != to {
      var b := GetBucket(c, from);
      assert BucketOk(b, from);
      var mid := SetTotal(c, from, Dec(b.total));
      CountOnlyEdit(c, from, Dec(b.total), mid);
      var more := GetBucket(c, to).(total := GetBucket(c, to).total + 1);
      assert GetBucket(mid, to) == GetBucket(c, to) && next == SetBucket(mid, to, more);
      SumAfterSet(mid, to, more);
      if |b.issues| < b.total {
        assert BucketOk(GetBucket(mid, to), to);
        CountOnlyEdit(mid, to, more.total, next);
      } else if b.total > 0 {
        assert GetBucket(next, from) == b.(total := Dec(b.total));
        assert !BucketOk(GetBucket(next, from), from);
      }
    }
  }

  /** Taking one unit of count away is right under the same condition. */
  lemma DecrementTotalIsExact(c: ListCache, status: Status, next: ListCache)
    requires Valid(c) && next == DecrementBucketTotal(c, status)
    ensures Valid(next) && SumTotals(next) == SumTotals(c) - 1 <==>
            |GetBucket(c, status).issues| < GetBucket(c, status).total
  {
    assert BucketOk(GetBucket(c, status), status);
    CountOnlyEdit(c, status, Dec(GetBucket(c, status).total), next);
  }

  lemma {:induction false} AppendKeeps(rows: seq<Issue>, issue: Issue, s: Status, other: string)
    requires ColumnOk(rows, s) && issue.status == s && issue.id !in Ids(rows)
    ensures var r := rows + [issue];
            && ColumnOk(r, s) && Ids(r) == Ids(rows) + {issue.id}
            && FindRow(r, other) == if other == issue.id then Some(issue) else FindRow(rows, other)
  {
    if rows != [] {
      AppendKeeps(rows[1..], issue, s, other);
      assert (rows + [issue])[1..] == rows[1..] + [issue];
    }
  }

  /** A card that its bucket does not show goes to the end of it and is counted there; nothing else changes. */
  lemma AddedBucketIs(c: ListCache, issue: Issue, t: Status)
    ensures var b, next := GetBucket(c, t), GetBucket(AddIssueToBuckets(c, issue), t);
            next == if t == issue.status && issue.id !in Ids(b.issues) then Bucket(b.issues + [issue], b.total + 1)
                    else b
  {
  }

  /** Adding keeps the invariant exactly when no other bucket already holds the id. */
  lemma AddKeepsValidIff(c: ListCache, issue: Issue, next: ListCache)
    requires Valid(c) && next == AddIssueToBuckets(c, issue)
    ensures Valid(next) <==> forall s: Status :: s != issue.status ==> issue.id !in Ids(GetBucket(c, s).issues)
  {
    var b := GetBucket(c, issue.status);
    assert BucketOk(b, issue.status);
    if issue.id in Ids(b.issues) {
      assert forall s: Status :: s != issue.status ==> Ids(GetBucket(c, s).issues) !! Ids(b.issues);
    } else {
      var more := Bucket(b.issues + [issue], b.total + 1);
      AppendKeeps(b.issues, issue, issue.status, issue.id);
      assert GetBucket(next, issue.status) == more;
      if s: Status :| s != issue.status && issue.id in Ids(GetBucket(c, s).issues) {
        assert GetBucket(next, s) == GetBucket(c, s);
        assert !(Ids(GetBucket(next, s).issues) !! Ids(GetBucket(next, issue.status).issues));
      } else {
        SetBucketKeepsValid(c, issue.status, more, issue.id, next);
      }
    }
  }
}

/** The sub-issue lists of parents: what updates, events, batches and deletions leave in them
    (packages/core/issues/mutations.ts, ws-updaters.ts and delete-cache.ts). */
module SubIssues {
  import opened Options
  import opened Sequences
  import opened IssueTypes
  import opened Membership
  import opened Buckets
  import opened Coordinator
  import opened Agreement
  import opened WsUpdaters
  import opened Mutations
  import opened BatchUpdate
  import opened DeleteCache

  // ----- rows -----

  /** Slot by slot, the rows of `ids` show the write and the others are the same. */
  ghost predicate RowsShowWrite(was: seq<Issue>, now: seq<Issue>, ids: set<string>, patch: Patch) {
    && |now| == |was|
    && forall k :: 0 <= k < |was| ==> if was[k].id in ids then ShowsWrite(was[k], now[k], patch) else now[k] == was[k]
  }

  lemma {:induction false} PatchedRowsShowWrite(rows: seq<Issue>, ids: set<string>, patch: Patch)
    ensures RowsShowWrite(rows, PatchRows(rows, ids, patch), ids, patch)
  {
    if rows != [] {
      PatchedRowsShowWrite(rows[1..], ids, patch);
      MergeShowsWrite(rows[0], Merge(rows[0], patch), patch);
      var next := PatchRows(rows, ids, patch);
      assert next[1..] == PatchRows(rows[1..], ids, patch);
      forall k | 0 < k < |rows|
        ensures if rows[k].id in ids then ShowsWrite(rows[k], next[k], patch) else next[k] == rows[k]
      {
        assert next[k] == next[1..][k - 1] && rows[k] == rows[1..][k - 1];
      }
    }
  }

  lemma {:induction false} IdsAre(rows: seq<Issue>)
    ensures forall i :: i in Ids(rows) <==> exists k :: 0 <= k < |rows| && rows[k].id == i
  {
    if rows != [] {
      IdsAre(rows[1..]);
      forall i ensures i in Ids(rows) <==> exists k :: 0 <= k < |rows| && rows[k].id == i {
        if k :| 0 <= k < |rows[1..]| && rows[1..][k].id == i { assert rows[k + 1].id == i; }
        if k :| 0 < k < |rows| && rows[k].id == i { assert rows[1..][k - 1].id == i; }
      }
    }
  }

  lemma SameSlotsSameIds(was: seq<Issue>, now: seq<Issue>)
    requires |now| == |was| && forall k :: 0 <= k < |was| ==> now[k].id == was[k].id
    ensures Ids(now) == Ids(was)
  {
    IdsAre(was);
    IdsAre(now);
  }

  lemma {:induction false} WithoutIsPart(rows: seq<Issue>, id: string)
    ensures forall r :: r in Without(rows, id) <==> r in rows && r.id != id
    ensures Ids(Without(rows, id)) == Ids(rows) - {id}
  {
    if rows != [] {
      WithoutIsPart(rows[1..], id);
      var rest := Without(rows[1..], id);
      assert ([rows[0]] + rest)[1..] == rest;
    }
  }

  // ----- one list against the server -----

  /** The rows are current, and they are the sub-issues of `p`. */
  ghost predicate Shows(rows: seq<Issue>, server: Server, p: string) {
    && (forall r <- rows :: r.id in server && SameRow(r, server[r.id]))
    && (forall i :: i in Ids(rows) <==> i in server && server[i].parentId == Some(p))
  }

  /** The server wrote the same columns to each of the issues, and stamped them. */
  ghost predicate RowsWritten(server: Server, after: Server, ids: set<string>, patch: Patch) {
    && after.Keys == server.Keys
    && forall i <- server :: if i in ids then SameRow(Merge(server[i], patch), after[i]) else after[i] == server[i]
  }

  ghost predicate SameSubIssues(server: Server, after: Server, p: string)
    requires after.Keys == server.Keys
  {
    forall i <- server :: after[i].parentId == Some(p) <==> server[i].parentId == Some(p)
  }

  /** Patched in place, a list is right exactly when the parent has the sub-issues that it had. */
  lemma PatchedIsRightIff(rows: seq<Issue>, server: Server, after: Server, ids: set<string>, patch: Patch, p: string)
    requires Shows(rows, server, p) && RowsWritten(server, after, ids, patch)
    ensures Shows(PatchRows(rows, ids, patch), after, p) <==> SameSubIssues(server, after, p)
  {
    var next := PatchRows(rows, ids, patch);
    PatchedRowsShowWrite(rows, ids, patch);
    SameSlotsSameIds(rows, next);
    forall r | r in next ensures r.id in after && SameRow(r, after[r.id]) {
      var k :| 0 <= k < |next| && next[k] == r;
      assert rows[k] in rows;
      MergeShowsWrite(rows[k], r, patch);
      SameRowsMerge(rows[k], server[r.id], patch);
    }
  }

  /** Left as it is, a list is right exactly when the write changes no row of it and gives the parent no other. */
  lemma UntouchedIsRightIff(rows: seq<Issue>, server: Server, after: Server, id: string, patch: Patch, p: string)
    requires Shows(rows, server, p) && RowsWritten(server, after, {id}, patch) && id in server
    ensures Shows(rows, after, p) <==>
            if server[id].parentId == Some(p) then SameRow(server[id], after[id]) else after[id].parentId != Some(p)
  {
    IdsAre(rows);
    if server[id].parentId == Some(p) {
      var k :| 0 <= k < |rows| && rows[k].id == id;
      assert rows[k] in rows;
    }
  }

  /** Without the issue, a list is right exactly when the parent has not got the issue after the write. */
  lemma WithoutIsRightIff(rows: seq<Issue>, server: Server, after: Server, id: string, patch: Patch, p: string)
    requires Shows(rows, server, p) && RowsWritten(server, after, {id}, patch) && id in server
    ensures Shows(Without(rows, id), after, p) <==> after[id].parentId != Some(p)
  {
    WithoutIsPart(rows, id);
  }

  // ----- the single update -----

  /** The list that the update knows to show the issue. */
  predicate Reached(s: CacheState, id: string, patch: Patch, p: string) {
    p != "" && UpdateContextOf(s, id, patch).parentId == Some(p)
  }

  predicate NamesAnotherParent(patch: Patch, p: string) {
    patch.parentId.Some? && patch.parentId.value != Some(p)
  }

  /** The known parent's list holds the issue afterwards exactly when it did and the write names no other parent; a
      row that stays shows the write in its slot, the other rows are the same in the same order, and every other
      list is the same. */
  lemma UpdateOfSubIssueLists(s: CacheState, id: string, patch: Patch, p: string)
    requires p in s.children
    ensures var next := UpdateIssue(s, id, patch).children;
            && next.Keys == s.children.Keys
            && (!Reached(s, id, patch, p) ==> next[p] == s.children[p])
            && (Reached(s, id, patch, p) ==>
                  && (id in Ids(next[p]) <==> id in Ids(s.children[p]) && !NamesAnotherParent(patch, p))
                  && (!NamesAnotherParent(patch, p) ==> RowsShowWrite(s.children[p], next[p], {id}, patch))
                  && Without(next[p], id) == Without(s.children[p], id))
  {
    var rows := s.children[p];
    WithoutIsPart(rows, id);
    WithoutAbsent(Without(rows, id), id);
    PatchedRowsShowWrite(rows, {id}, patch);
    SameSlotsSameIds(rows, PatchRows(rows, {id}, patch));
    PatchedOthers(rows, id, patch);
  }

  lemma {:induction false} PatchedOthers(rows: seq<Issue>, id: string, patch: Patch)
    ensures Without(PatchRows(rows, {id}, patch), id) == Without(rows, id)
  {
    if rows != [] {
      PatchedOthers(rows[1..], id, patch);
      assert PatchRows(rows, {id}, patch)[1..] == PatchRows(rows[1..], {id}, patch);
    }
  }

  /** A list that was right is right after an update exactly when the update reached it or had nothing to change
      in it, and did not bring it a sub-issue. */
  lemma UpdatedListIsRightIff(s: CacheState, server: Server, after: Server, id: string, patch: Patch, p: string)
    requires p in s.children && Shows(s.children[p], server, p)
    requires RowsWritten(server, after, {id}, patch) && id in server
    ensures Shows(UpdateIssue(s, id, patch).children[p], after, p) <==>
            if server[id].parentId == Some(p) then Reached(s, id, patch, p) || SameRow(server[id], after[id])
            else after[id].parentId != Some(p)
  {
    var rows := s.children[p];
    UntouchedIsRightIff(rows, server, after, id, patch, p);
    WithoutIsRightIff(rows, server, after, id, patch, p);
    PatchedIsRightIff(rows, server, after, {id}, patch, p);
  }

  /** The copies that the update looks at are current. */
  ghost predicate CopiesCurrent(s: CacheState, server: Server, id: string) {
    && id in server
    && (id in s.details ==> SameRow(s.details[id], server[id]))
    && forall key <- s.lists :: s.lists[key].ByStatus? ==> ListCurrent(s.lists[key].cache, server)
  }

  /** Some copy of the issue is cached outside the sub-issue lists. */
  ghost predicate CopyKnown(s: CacheState, id: string) {
    id in s.details || exists key :: key in Entries(s) && FindIssueLocation(s.lists[key].cache, id).Some?
  }

  lemma {:induction false} FirstHolderIs(order: seq<string>, children: map<string, seq<Issue>>, id: string)
    returns (n: nat)
    requires forall p <- order :: p in children
    ensures n <= |order| && forall k :: 0 <= k < n ==> id !in Ids(children[order[k]])
    ensures ParentAmong(order, children, id) == if n == |order| then None else Some(order[n])
    ensures n < |order| ==> id in Ids(children[order[n]])
  {
    if order == [] || id in Ids(children[order[0]]) {
      n := 0;
    } else {
      var rest := FirstHolderIs(order[1..], children, id);
      n := rest + 1;
      forall k | 0 <= k < n ensures id !in Ids(children[order[k]]) {
        assert k > 0 ==> order[k] == order[1..][k - 1];
      }
    }
  }

  /** The parent is the detail's; if that names none, the freshest old copy's; and failing both, that of the first
      sub-issue list that shows the issue. */
  lemma ParentIs(s: CacheState, id: string, prevIssue: Option<Issue>) returns (n: nat)
    requires forall q <- s.childOrder :: q in s.children
    ensures var named := if id in s.details && s.details[id].parentId.Some? then s.details[id].parentId
                         else if prevIssue.Some? then prevIssue.value.parentId else None;
            ParentOf(s, id, prevIssue) ==
            if named.Some? && named.value != "" then named
            else if n < |s.childOrder| then Some(s.childOrder[n]) else None
    ensures n <= |s.childOrder| && forall k :: 0 <= k < n ==> id !in Ids(s.children[s.childOrder[k]])
    ensures n < |s.childOrder| ==> id in Ids(s.children[s.childOrder[n]])
  {
    n := FirstHolderIs(s.childOrder, s.children, id);
  }

  /** With a copy of the issue cached elsewhere the update reaches its parent's list; otherwise the first list
      that shows the issue. */
  lemma ReachedIff(s: CacheState, server: Server, id: string, patch: Patch, p: string) returns (n: nat)
    requires CopiesCurrent(s, server, id) && server[id].parentId == Some(p) && p != ""
    requires forall q <- s.childOrder :: q in s.children
    ensures n <= |s.childOrder| && forall k :: 0 <= k < n ==> id !in Ids(s.children[s.childOrder[k]])
    ensures n < |s.childOrder| ==> id in Ids(s.children[s.childOrder[n]])
    ensures Reached(s, id, patch, p) <==> CopyKnown(s, id) || (n < |s.childOrder| && s.childOrder[n] == p)
  {
    n := FirstHolderIs(s.childOrder, s.children, id);
    var m := FirstLoadedIs(Entries(s), s.lists, id);
    if m < |Entries(s)| {
      var key := Entries(s)[m];
      assert key in Entries(s);
      CurrentLocation(s.lists[key].cache, server, id);
    }
    forall key | key in Entries(s) && FindIssueLocation(s.lists[key].cache, id).Some? ensures m < |Entries(s)| {
    }
  }

  /** If every sub-issue list is right, then after an update every one is, save that of a parent the issue is
      moved to. */
  lemma UpdateKeepsSubIssuesRight(s: CacheState, server: Server, after: Server, id: string, patch: Patch)
    requires CopiesCurrent(s, server, id) && RowsWritten(server, after, {id}, patch)
    requires "" !in s.children && forall p :: p in s.childOrder <==> p in s.children
    requires forall p <- s.children :: Shows(s.children[p], server, p)
    ensures forall p <- s.children ::
              Shows(UpdateIssue(s, id, patch).children[p], after, p) <==>
              after[id].parentId != Some(p) || server[id].parentId == Some(p)
  {
    forall p | p in s.children
      ensures Shows(UpdateIssue(s, id, patch).children[p], after, p) <==>
              after[id].parentId != Some(p) || server[id].parentId == Some(p)
    {
      UpdatedListIsRightIff(s, server, after, id, patch, p);
      if server[id].parentId == Some(p) {
        var n := ReachedIff(s, server, id, patch, p);
        assert id in Ids(s.children[p]);
        if n < |s.childOrder| { assert s.childOrder[n] in s.children; }
      }
    }
  }

  // ----- an event -----

  /** A list that was right is right after an event, or refetched, exactly when the handler has a copy to learn the
      old parent from, or the event says the parent, or leaves this list's row as it was. */
  lemma EventListIsRightIff(s: CacheState, server: Server, after: Server, id: string, patch: Patch, meta: Meta,
                            p: string)
    requires p in s.children && p != "" && Shows(s.children[p], server, p)
    requires RowsWritten(server, after, {id}, patch) && id in server
    requires CachedIssue(s, id).Some? ==> SameRow(CachedIssue(s, id).value, server[id])
    ensures p in UpdatedStaleChildren(s, id, patch) || Shows(Updated(s, id, patch, meta).children[p], after, p) <==>
            || server[id].parentId != Some(p) || CachedIssue(s, id).Some?
            || patch.parentId == Some(Some(p)) || SameRow(server[id], after[id])
  {
    var rows := s.children[p];
    UntouchedIsRightIff(rows, server, after, id, patch, p);
    PatchedIsRightIff(rows, server, after, {id}, patch, p);
  }

  /** The known old parent's list shows the write in place, unless the parent changes; every other list is the same,
      and the lists of both parents are refetched exactly when it does. */
  lemma EventOnSubIssueLists(s: CacheState, id: string, patch: Patch, meta: Meta, p: string)
    requires p in s.children && p != ""
    ensures var next, cached := Updated(s, id, patch, meta).children, CachedIssue(s, id);
            var known := cached.Some? && cached.value.parentId == Some(p);
            && next.Keys == s.children.Keys
            && (if known && !NamesAnotherParent(patch, p) then RowsShowWrite(s.children[p], next[p], {id}, patch)
                else next[p] == s.children[p])
            && (p in UpdatedStaleChildren(s, id, patch) <==>
                if known then NamesAnotherParent(patch, p) else patch.parentId == Some(Some(p)))
  {
    PatchedRowsShowWrite(s.children[p], {id}, patch);
  }

  // ----- a batch -----

  lemma {:induction false} RunKeepsChildren(s: CacheState, ids: seq<string>, patch: Patch)
    ensures RunState(s, ids, patch).children == s.children
    decreases |ids|
  {
    if ids != [] {
      RunKeepsChildren(StepState(s, ids[0], patch), ids[1..], patch);
    }
  }

  /** Every row of the batch shows the write in its slot, and all other rows are the same. */
  lemma BatchOfSubIssueLists(s: CacheState, ids: seq<string>, patch: Patch, p: string)
    requires p in s.children
    ensures var next := BatchState(s, ids, patch).children;
            next.Keys == s.children.Keys && RowsShowWrite(s.children[p], next[p], ToSet(ids), patch)
    ensures var taken := BatchContextOf(s, ids, patch).prevChildren;
            && (p in taken <==> exists i :: i in ids && i in Ids(s.children[p]))
            && (p in taken ==> taken[p] == s.children[p])
  {
    RunKeepsChildren(s, ids, patch);
    PatchedRowsShowWrite(s.children[p], ToSet(ids), patch);
    if Ids(s.children[p]) !! ToSet(ids) { UnlistedRows(s.children[p], ToSet(ids)); }
  }

  lemma UnlistedRows(rows: seq<Issue>, ids: set<string>)
    requires Ids(rows) !! ids
    ensures forall k :: 0 <= k < |rows| ==> rows[k].id !in ids
  {
    IdsAre(rows);
  }

  /** A batch takes no row out of a list: one that was right is right again exactly when the batch moves no issue
      to or from its parent. */
  lemma BatchedListIsRightIff(s: CacheState, server: Server, after: Server, ids: seq<string>, patch: Patch, p: string)
    requires p in s.children && Shows(s.children[p], server, p) && RowsWritten(server, after, ToSet(ids), patch)
    ensures p in BatchState(s, ids, patch).children
    ensures Shows(BatchState(s, ids, patch).children[p], after, p) <==> SameSubIssues(server, after, p)
  {
    var rows := s.children[p];
    RunKeepsChildren(s, ids, patch);
    PatchedIsRightIff(rows, server, after, ToSet(ids), patch, p);
    if Ids(rows) !! ToSet(ids) {
      UnlistedRows(rows, ToSet(ids));
      PatchedRowsShowWrite(rows, ToSet(ids), patch);
      assert PatchRows(rows, ToSet(ids), patch) == rows;
    }
  }

  // ----- a deletion -----

  lemma DeletedIsRight(rows: seq<Issue>, server: Server, after: Server, id: string, p: string)
    requires Shows(rows, server, p) && RowDeleted(server, after, id) && p != id
    ensures Shows(Without(rows, id), after, p)
  {
    WithoutIsPart(rows, id);
    forall r | r in Without(rows, id) ensures r.id in after && SameRow(r, after[r.id]) {
      assert r in rows && server[r.id].parentId != Some(id) by { IdIsThere(rows, r); }
    }
    forall i ensures i in Ids(Without(rows, id)) <==> i in after && after[i].parentId == Some(p) {
      if i in after { assert after[i].parentId == Some(p) <==> server[i].parentId == Some(p); }
    }
  }

  lemma IdIsThere(rows: seq<Issue>, r: Issue)
    requires r in rows
    ensures r.id in Ids(rows)
  {
    IdsAre(rows);
  }

  /** A deletion that completes takes the issue's own list away, and out of every other list the issue's row and no
      other; a list that was right is right. */
  lemma DeletionKeepsSubIssuesRight(s: CacheState, server: Server, after: Server, id: string, p: string)
    requires Completes(s.lists) && p in s.children && p != id && RowDeleted(server, after, id)
    ensures Deleted(s, id).children.Keys == s.children.Keys - {id}
    ensures Deleted(s, id).children[p] == Without(s.children[p], id)
    ensures forall q :: q in Deleted(s, id).childOrder <==> q in s.childOrder && q != id
    ensures Shows(s.children[p], server, p) ==> Shows(Deleted(s, id).children[p], after, p)
  {
    if Shows(s.children[p], server, p) { DeletedIsRight(s.children[p], server, after, id, p); }
  }
}

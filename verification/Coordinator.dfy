/** The one rules table for a single issue change (packages/core/issues/cache-coordinator.ts). */
module Coordinator {
  import opened Options
  import opened Sequences
  import opened IssueTypes
  import opened InboxTypes
  import opened Membership
  import opened Buckets

  /** The last segment of every key: the order of the rows, and the date filter, which the rules ignore. */
  datatype ListSort = ListSort(order: string, window: Option<DateWindow>)

  /** The workspace list carries no other filter; every my-list key embeds its scope and filter. */
  datatype ListKey =
    | WorkspaceList(sort: ListSort)
    | MyList(scope: string, filter: Filter, sort: ListSort)
  {
    function ContractScope(): Option<string> {
      if MyList? then Some(scope) else None
    }

    function ContractFilter(): Filter {
      if MyList? then filter else NO_FILTER
    }
  }

  /** Grouped boards live under the same key prefixes with another shape. */
  datatype ListData = ByStatus(cache: ListCache) | OtherShape

  /** The query cache as a value: `order` and `childOrder` are the insertion orders of the keys. */
  datatype CacheState = CacheState(
    lists: map<ListKey, ListData>,
    order: seq<ListKey>,
    details: map<string, Issue>,
    inbox: Option<seq<InboxItem>>,
    children: map<string, seq<Issue>>,
    childOrder: seq<string>)

  datatype ListOutcome = ListOutcome(next: ListCache, written: bool, stale: bool)

  /** `prevOrder` and `staleOrder` give the order in which snapshots and stale keys are pushed. */
  datatype ChangeResult = ChangeResult(
    prevLists: map<ListKey, ListCache>,
    prevOrder: seq<ListKey>,
    prevDetail: Option<Issue>,
    prevInbox: Option<seq<InboxItem>>,
    staleKeys: set<ListKey>,
    staleOrder: seq<ListKey>,
    prevIssue: Option<Issue>)

  predicate FilterTouched(key: ListKey, changed: Dims) {
    ListFilterDependsOn(key.ContractScope(), key.ContractFilter(), changed)
  }

  function Matches(key: ListKey, issue: Patch): Verdict {
    IssueMatchesListFilter(issue, key.ContractScope(), key.ContractFilter())
  }

  /** What the key says: the workspace list takes every issue, "all" is never judged and hangs on the assignee, and
      every other my-list goes by its own filter. */
  lemma KeyDecides(scope: string, filter: Filter, sort: ListSort, issue: Patch, changed: Dims)
    ensures var workspace, mine := WorkspaceList(sort), MyList(scope, filter, sort);
            && Matches(workspace, issue).Yes? && !FilterTouched(workspace, changed)
            && (if scope == "all" then Matches(mine, issue).Unknown? && FilterTouched(mine, changed) == changed.assignee
                else Matches(mine, issue) == IssueMatchesListFilter(issue, None, filter)
                     && FilterTouched(mine, changed) == ListFilterDependsOn(None, filter, changed))
  {
  }

  /** `{ ...baseIssue, ...patch }` */
  function Spread(base: Option<Issue>, patch: Patch): Patch {
    if base.Some? then AsPatch(Merge(base.value, patch)) else patch
  }

  /** The rules for one loaded list. */
  function ReconcileList(key: ListKey, c: ListCache, id: string, patch: Patch, changed: Dims,
                         base: Option<Issue>): ListOutcome
  {
    var filterTouched := FilterTouched(key, changed);
    match FindIssueLocation(c, id)
    case Some(loc) =>
      if !filterTouched then ListOutcome(PatchIssueInBuckets(c, id, patch), true, false)
      else (match Matches(key, Spread(Some(loc.issue), patch))
            case No => ListOutcome(RemoveIssueFromBuckets(c, id), true, false)
            case Yes => ListOutcome(PatchIssueInBuckets(c, id, patch), true, false)
            case Unknown => ListOutcome(PatchIssueInBuckets(c, id, patch), true, true))
    case None =>
      if !filterTouched && !changed.status then ListOutcome(c, false, false)
      else
        var wasMember := if base.Some? then Matches(key, AsPatch(base.value)) else Unknown;
        var isMember := Matches(key, Spread(base, patch));
        if wasMember.No? && isMember.No? then ListOutcome(c, false, false)
        else if wasMember.Yes? && isMember.Yes? then
          if !changed.status || patch.status.None? || patch.status.value == base.value.status
          then ListOutcome(c, false, false)
          else ListOutcome(MoveBucketTotal(c, base.value.status, patch.status.value), true, true)
        else if wasMember.Yes? && isMember.No? then
          ListOutcome(DecrementBucketTotal(c, base.value.status), true, false)
        else ListOutcome(c, false, true)
  }

  /** Every inbox row of the issue shows the new status. */
  function PatchInboxIssueStatus(rows: seq<InboxItem>, id: string, status: Status): seq<InboxItem> {
    if rows == [] then []
    else [if rows[0].issueId == Some(id) then rows[0].(issueStatus := Some(status)) else rows[0]]
         + PatchInboxIssueStatus(rows[1..], id, status)
  }

  type ListRule = (ListKey, ListCache) -> ListOutcome

  function RuleFor(id: string, patch: Patch, changed: Dims, base: Option<Issue>): ListRule {
    (key: ListKey, c: ListCache) => ReconcileList(key, c, id, patch, changed, base)
  }

  function DataAfter(key: ListKey, data: ListData, rule: ListRule): ListData {
    match data
    case OtherShape => OtherShape
    case ByStatus(c) => ByStatus(rule(key, c).next)
  }

  function ListsAfter(lists: map<ListKey, ListData>, rule: ListRule): map<ListKey, ListData> {
    map key | key in lists :: DataAfter(key, lists[key], rule)
  }

  function ListsBefore(lists: map<ListKey, ListData>, rule: ListRule): map<ListKey, ListCache> {
    map key | key in lists && lists[key].ByStatus? && rule(key, lists[key].cache).written :: lists[key].cache
  }

  function StaleIn(lists: map<ListKey, ListData>, rule: ListRule): set<ListKey> {
    set key | key in lists && lists[key].ByStatus? && rule(key, lists[key].cache).stale
  }

  /** The cache after one change: each list by its own rules, the detail merged, the inbox projected. */
  function ApplyChange(s: CacheState, id: string, patch: Patch, changed: Dims, base: Option<Issue>): CacheState {
    s.(lists := ListsAfter(s.lists, RuleFor(id, patch, changed, base)),
       details := if id in s.details then s.details[id := Merge(s.details[id], patch)] else s.details,
       inbox := if patch.status.Some? && s.inbox.Some?
                then Some(PatchInboxIssueStatus(s.inbox.value, id, patch.status.value)) else s.inbox)
  }

  /** The workspace lists in insertion order, then the my-lists: `bucketedListEntries`. */
  function Entries(s: CacheState): seq<ListKey> {
    KeysWhere(s.order, s.lists, true) + KeysWhere(s.order, s.lists, false)
  }

  function KeysWhere(order: seq<ListKey>, lists: map<ListKey, ListData>, workspace: bool): (r: seq<ListKey>)
    ensures forall k :: k in r <==> k in order && k in lists && lists[k].ByStatus? && k.WorkspaceList? == workspace
  {
    if order == [] then []
    else
      var rest := KeysWhere(order[1..], lists, workspace);
      var k := order[0];
      if k in lists && lists[k].ByStatus? && k.WorkspaceList? == workspace then [k] + rest else rest
  }

  lemma {:induction false} KeysWhereDistinct(order: seq<ListKey>, lists: map<ListKey, ListData>, workspace: bool)
    requires Distinct(order)
    ensures Distinct(KeysWhere(order, lists, workspace))
  {
    if order != [] {
      KeysWhereDistinct(order[1..], lists, workspace);
      var rest := KeysWhere(order[1..], lists, workspace);
      assert ([order[0]] + rest)[1..] == rest;
    }
  }

  lemma EntriesDistinct(s: CacheState)
    requires Distinct(s.order)
    ensures Distinct(Entries(s))
  {
    KeysWhereDistinct(s.order, s.lists, true);
    KeysWhereDistinct(s.order, s.lists, false);
    DistinctConcat(KeysWhere(s.order, s.lists, true), KeysWhere(s.order, s.lists, false));
  }

  function LoadedCopy(c: ListCache, id: string): Option<Issue> {
    var loc := FindIssueLocation(c, id);
    if loc.Some? then Some(loc.value.issue) else None
  }

  /** The first loaded copy of the issue along `keys`. */
  function FirstLoaded(keys: seq<ListKey>, lists: map<ListKey, ListData>, id: string): Option<Issue> {
    if keys == [] then None
    else
      var rest := FirstLoaded(keys[1..], lists, id);
      if keys[0] in lists && lists[keys[0]].ByStatus? then OrElse(LoadedCopy(lists[keys[0]].cache, id), rest) else rest
  }

  function Lookup<V>(m: map<string, V>, k: string): Option<V> {
    if k in m then Some(m[k]) else None
  }

  /** The keys along `keys` whose list is written. */
  function WrittenAlong(keys: seq<ListKey>, lists: map<ListKey, ListData>, rule: ListRule): seq<ListKey> {
    if keys == [] then []
    else
      var rest := WrittenAlong(keys[1..], lists, rule);
      if keys[0] in lists && lists[keys[0]].ByStatus? && rule(keys[0], lists[keys[0]].cache).written
      then [keys[0]] + rest else rest
  }

  /** The keys along `keys` that are reported. */
  function StaleAlong(keys: seq<ListKey>, lists: map<ListKey, ListData>, rule: ListRule): seq<ListKey> {
    if keys == [] then []
    else
      var rest := StaleAlong(keys[1..], lists, rule);
      if keys[0] in lists && lists[keys[0]].ByStatus? && rule(keys[0], lists[keys[0]].cache).stale
      then [keys[0]] + rest else rest
  }

  /** What the change reports: pre-change snapshots, drifted keys, the freshest old copy. */
  function ResultOf(s: CacheState, id: string, patch: Patch, changed: Dims, base: Option<Issue>): ChangeResult {
    var rule := RuleFor(id, patch, changed, base);
    ChangeResult(ListsBefore(s.lists, rule), WrittenAlong(Entries(s), s.lists, rule),
                 Lookup(s.details, id), if patch.status.Some? then s.inbox else None,
                 StaleIn(s.lists, rule), StaleAlong(Entries(s), s.lists, rule),
                 OrElse(base, OrElse(FirstLoaded(Entries(s), s.lists, id), Lookup(s.details, id))))
  }

  function RestoreLists(lists: map<ListKey, ListData>, prev: map<ListKey, ListCache>): map<ListKey, ListData> {
    lists + map key | key in prev :: ByStatus(prev[key])
  }

  function Rollback(s: CacheState, id: string, r: ChangeResult): CacheState {
    s.(lists := RestoreLists(s.lists, r.prevLists),
       details := if r.prevDetail.Some? then s.details[id := r.prevDetail.value] else s.details,
       inbox := OrElse(r.prevInbox, s.inbox))
  }

  // ----- the same rules as the source runs them -----

  /** TanStack's query client, restricted to the caches of one workspace. */
  class QueryCache {
    var lists: map<ListKey, ListData>
    var order: seq<ListKey>
    var details: map<string, Issue>
    var inbox: Option<seq<InboxItem>>
    var children: map<string, seq<Issue>>
    var childOrder: seq<string>

    function State(): CacheState
      reads this
    {
      CacheState(lists, order, details, inbox, children, childOrder)
    }

    /** Each key is listed once, in insertion order. */
    ghost predicate Valid()
      reads this
    {
      && Distinct(order) && (forall k :: k in order <==> k in lists)
      && Distinct(childOrder) && (forall k :: k in childOrder <==> k in children)
    }
  }

  /** What is pushed so far and what the rest will push is what all entries push. */
  ghost predicate PushedSoFar(entries: seq<ListKey>, rest: seq<ListKey>, lists: map<ListKey, ListData>, rule: ListRule,
                              prevOrder: seq<ListKey>, staleOrder: seq<ListKey>)
  {
    && prevOrder + WrittenAlong(rest, lists, rule) == WrittenAlong(entries, lists, rule)
    && staleOrder + StaleAlong(rest, lists, rule) == StaleAlong(entries, lists, rule)
  }

  lemma PushStep(entries: seq<ListKey>, rest: seq<ListKey>, lists: map<ListKey, ListData>, rule: ListRule,
                 prevOrder: seq<ListKey>, staleOrder: seq<ListKey>)
    requires PushedSoFar(entries, rest, lists, rule, prevOrder, staleOrder)
    requires rest != [] && rest[0] in lists && lists[rest[0]].ByStatus?
    ensures var key := rest[0];
            var o := rule(key, lists[key].cache);
            PushedSoFar(entries, rest[1..], lists, rule,
                        if o.written then prevOrder + [key] else prevOrder,
                        if o.stale then staleOrder + [key] else staleOrder)
  {
    var key, prevRest, staleRest := rest[0], WrittenAlong(rest[1..], lists, rule), StaleAlong(rest[1..], lists, rule);
    assert (prevOrder + [key]) + prevRest == prevOrder + ([key] + prevRest);
    assert (staleOrder + [key]) + staleRest == staleOrder + ([key] + staleRest);
  }

  /** Every loaded list is done or ahead, each once. */
  ghost predicate Ahead(lists: map<ListKey, ListData>, done: set<ListKey>, rest: seq<ListKey>) {
    && Distinct(rest) && (forall k <- rest :: k in lists && lists[k].ByStatus? && k !in done)
    && (forall k <- lists :: lists[k].ByStatus? ==> k in done || k in rest)
  }

  lemma AheadStep(lists: map<ListKey, ListData>, done: set<ListKey>, rest: seq<ListKey>)
    requires Ahead(lists, done, rest) && rest != []
    ensures rest[0] in lists && lists[rest[0]].ByStatus? && rest[0] !in done
    ensures Ahead(lists, done + {rest[0]}, rest[1..])
  {
    assert forall k :: k in rest <==> k == rest[0] || k in rest[1..];
  }

  /** The loop over the loaded lists. */
  method ReconcileLists(qc: QueryCache, id: string, base: Option<Issue>, rule: ListRule)
    returns (prevLists: map<ListKey, ListCache>, prevOrder: seq<ListKey>, staleKeys: set<ListKey>,
             staleOrder: seq<ListKey>, prevIssue: Option<Issue>)
    requires qc.Valid()
    requires forall k, c :: !rule(k, c).written ==> rule(k, c).next == c
    modifies qc
    ensures var s := old(qc.State());
            && qc.State() == s.(lists := ListsAfter(s.lists, rule))
            && prevLists == ListsBefore(s.lists, rule) && staleKeys == StaleIn(s.lists, rule)
            && prevOrder == WrittenAlong(Entries(s), s.lists, rule)
            && staleOrder == StaleAlong(Entries(s), s.lists, rule)
            && prevIssue == OrElse(base, FirstLoaded(Entries(s), s.lists, id))
  {
    ghost var s := qc.State();
    var rest := Entries(qc.State());
    EntriesDistinct(s);
    prevLists, staleKeys, prevIssue := map[], {}, base;
    prevOrder, staleOrder := [], [];
    ghost var entries := rest;
    ghost var freshest := OrElse(base, FirstLoaded(rest, s.lists, id));
    ghost var done: set<ListKey> := {};
    while rest != []
      invariant qc.State() == s.(lists := qc.lists)
      invariant Ahead(s.lists, done, rest)
      invariant Progress(s.lists, done, rule, qc.lists, prevLists, staleKeys)
      invariant freshest == OrElse(prevIssue, FirstLoaded(rest, s.lists, id))
      invariant PushedSoFar(entries, rest, s.lists, rule, prevOrder, staleOrder)
      decreases |rest|
    {
      var key := rest[0];
      AheadStep(s.lists, done, rest);
      PushStep(entries, rest, s.lists, rule, prevOrder, staleOrder);
      ProgressStep(s.lists, done, key, rule, qc.lists, prevLists, staleKeys);
      var data := qc.lists[key].cache;
      prevIssue := OrElse(prevIssue, LoadedCopy(data, id));
      var outcome := rule(key, data);
      if outcome.stale {
        staleKeys, staleOrder := staleKeys + {key}, staleOrder + [key];
      }
      if outcome.written {
        prevLists, prevOrder := prevLists[key := data], prevOrder + [key];
        qc.lists := qc.lists[key := ByStatus(outcome.next)];
      }
      done := done + {key};
      rest := rest[1..];
    }
    AllDone(s.lists, done, rule, qc.lists, prevLists, staleKeys);
  }

  /** The keys done so far have been reconciled and reported, the others not yet. */
  ghost predicate Progress(before: map<ListKey, ListData>, done: set<ListKey>, rule: ListRule,
                           lists: map<ListKey, ListData>, prevLists: map<ListKey, ListCache>, staleKeys: set<ListKey>)
  {
    && lists.Keys == before.Keys
    && (forall k <- before :: lists[k] == if k in done then DataAfter(k, before[k], rule) else before[k])
    && (forall k :: k in prevLists <==>
          (k in done && k in before && before[k].ByStatus? && rule(k, before[k].cache).written))
    && (forall k <- prevLists :: k in before && before[k].ByStatus? && prevLists[k] == before[k].cache)
    && (forall k :: k in staleKeys <==>
          (k in done && k in before && before[k].ByStatus? && rule(k, before[k].cache).stale))
  }

  lemma ProgressStep(before: map<ListKey, ListData>, done: set<ListKey>, key: ListKey, rule: ListRule,
                     lists: map<ListKey, ListData>, prevLists: map<ListKey, ListCache>, staleKeys: set<ListKey>)
    requires Progress(before, done, rule, lists, prevLists, staleKeys)
    requires key !in done && key in before && before[key].ByStatus?
    ensures lists[key] == before[key]
    ensures var outcome := rule(key, before[key].cache);
            && (!outcome.written ==> outcome.next == before[key].cache) ==>
            Progress(before, done + {key}, rule,
                     if outcome.written then lists[key := ByStatus(outcome.next)] else lists,
                     if outcome.written then prevLists[key := before[key].cache] else prevLists,
                     if outcome.stale then staleKeys + {key} else staleKeys)
  {
  }

  lemma AllDone(before: map<ListKey, ListData>, done: set<ListKey>, rule: ListRule,
                lists: map<ListKey, ListData>, prevLists: map<ListKey, ListCache>, staleKeys: set<ListKey>)
    requires forall k <- before :: before[k].ByStatus? ==> k in done
    requires Progress(before, done, rule, lists, prevLists, staleKeys)
    ensures lists == ListsAfter(before, rule)
    ensures prevLists == ListsBefore(before, rule) && staleKeys == StaleIn(before, rule)
  {
  }

  method ApplyIssueChange(qc: QueryCache, id: string, patch: Patch, changed: Dims, base: Option<Issue>)
    returns (r: ChangeResult)
    requires qc.Valid()
    modifies qc
    ensures qc.Valid()
    ensures qc.State() == ApplyChange(old(qc.State()), id, patch, changed, base)
    ensures r == ResultOf(old(qc.State()), id, patch, changed, base)
  {
    ghost var s := qc.State();
    var rule := RuleFor(id, patch, changed, base);
    var prevLists, prevOrder, staleKeys, staleOrder, prevIssue := ReconcileLists(qc, id, base, rule);
    var prevDetail := Lookup(qc.details, id);
    if prevDetail.Some? {
      qc.details := qc.details[id := Merge(prevDetail.value, patch)];
      if prevIssue.None? {
        prevIssue := prevDetail;
      }
    }
    var prevInbox := None;
    if patch.status.Some? {
      prevInbox := qc.inbox;
      if prevInbox.Some? {
        qc.inbox := Some(PatchInboxIssueStatus(prevInbox.value, id, patch.status.value));
      }
    }
    r := ChangeResult(prevLists, prevOrder, prevDetail, prevInbox, staleKeys, staleOrder, prevIssue);
  }

  /** The snapshots are written back; one of a list that has left the cache brings it back, behind the others. */
  method WriteBackLists(qc: QueryCache, prev: map<ListKey, ListCache>)
    requires qc.Valid()
    modifies qc
    ensures qc.Valid() && old(qc.order) <= qc.order
    ensures qc.State() == old(qc.State()).(lists := RestoreLists(old(qc.lists), prev), order := qc.order)
    ensures prev.Keys <= old(qc.lists.Keys) ==> qc.order == old(qc.order)
  {
    qc.order := AppendKeys(qc.order, prev.Keys - qc.lists.Keys);
    qc.lists := RestoreLists(qc.lists, prev);
  }

  method RollbackIssueChange(qc: QueryCache, id: string, r: ChangeResult)
    requires qc.Valid()
    modifies qc
    ensures qc.Valid() && old(qc.order) <= qc.order
    ensures qc.State() == Rollback(old(qc.State()), id, r).(order := qc.order)
    ensures r.prevLists.Keys <= old(qc.lists.Keys) ==> qc.order == old(qc.order)
  {
    WriteBackLists(qc, r.prevLists);
    if r.prevDetail.Some? {
      qc.details := qc.details[id := r.prevDetail.value];
    }
    if r.prevInbox.Some? {
      qc.inbox := r.prevInbox;
    }
  }

  // ----- what one change does, apart from the rules -----

  /** The rows of the issue show the written status, all else is kept. */
  ghost predicate InboxShows(was: seq<InboxItem>, now: seq<InboxItem>, id: string, status: Option<Status>) {
    && |now| == |was|
    && forall k :: 0 <= k < |was| ==>
         now[k] == if status.Some? && was[k].issueId == Some(id) then was[k].(issueStatus := status) else was[k]
  }

  lemma {:induction false} PatchedInboxShows(rows: seq<InboxItem>, id: string, status: Status)
    ensures InboxShows(rows, PatchInboxIssueStatus(rows, id, status), id, Some(status))
  {
    if rows != [] {
      PatchedInboxShows(rows[1..], id, status);
      var next := PatchInboxIssueStatus(rows, id, status);
      assert next[1..] == PatchInboxIssueStatus(rows[1..], id, status);
      forall k | 0 < k < |rows|
        ensures next[k] == if rows[k].issueId == Some(id) then rows[k].(issueStatus := Some(status)) else rows[k]
      {
        assert next[k] == next[1..][k - 1] && rows[k] == rows[1..][k - 1];
      }
    }
  }

  /** The detail of the issue shows the write, and the inbox a written status; every other detail, every list of
      another shape and every sub-issue list stays. */
  lemma ChangeShowsWrite(s: CacheState, id: string, patch: Patch, changed: Dims, base: Option<Issue>)
    ensures var next := ApplyChange(s, id, patch, changed, base);
            && next == s.(lists := next.lists, details := next.details, inbox := next.inbox)
            && next.lists.Keys == s.lists.Keys
            && (forall key <- s.lists :: s.lists[key].OtherShape? ==> next.lists[key] == s.lists[key])
            && next.details.Keys == s.details.Keys
            && (forall i <- s.details ::
                  if i == id then ShowsWrite(s.details[i], next.details[i], patch)
                  else next.details[i] == s.details[i])
            && next.inbox.Some? == s.inbox.Some?
            && (s.inbox.Some? ==> InboxShows(s.inbox.value, next.inbox.value, id, patch.status))
  {
    if id in s.details {
      MergeShowsWrite(s.details[id], Merge(s.details[id], patch), patch);
    }
    if patch.status.Some? && s.inbox.Some? {
      PatchedInboxShows(s.inbox.value, id, patch.status.value);
    }
  }

  // ----- the order of what it reports -----

  lemma {:induction false} KeysWhereConcat(a: seq<ListKey>, b: seq<ListKey>, lists: map<ListKey, ListData>,
                                           workspace: bool)
    ensures KeysWhere(a + b, lists, workspace) == KeysWhere(a, lists, workspace) + KeysWhere(b, lists, workspace)
  {
    if a == [] {
      assert a + b == b;
    } else {
      assert (a + b)[1..] == a[1..] + b && (a + b)[0] == a[0];
      KeysWhereConcat(a[1..], b, lists, workspace);
    }
  }

  /** Every loaded workspace list comes before every loaded my-list, and lists of one kind come as they were
      cached. */
  lemma EntriesOrder(s: CacheState, before: seq<ListKey>, after: seq<ListKey>)
    returns (a: seq<ListKey>, b: seq<ListKey>, a': seq<ListKey>, b': seq<ListKey>)
    requires s.order == before + after
    ensures Entries(s.(order := before)) == a + b && Entries(s.(order := after)) == a' + b'
    ensures Entries(s) == a + a' + b + b'
    ensures (forall k <- a + a' :: k.WorkspaceList?) && (forall k <- b + b' :: k.MyList?)
  {
    KeysWhereConcat(before, after, s.lists, true);
    KeysWhereConcat(before, after, s.lists, false);
    a, b := KeysWhere(before, s.lists, true), KeysWhere(before, s.lists, false);
    a', b' := KeysWhere(after, s.lists, true), KeysWhere(after, s.lists, false);
    assert Entries(s) == a + a' + b + b';
  }

  /** The reported keys are the stale and the written ones of the entries, in the order of the entries. */
  lemma {:induction false} AlongConcat(a: seq<ListKey>, b: seq<ListKey>, lists: map<ListKey, ListData>, rule: ListRule)
    ensures WrittenAlong(a + b, lists, rule) == WrittenAlong(a, lists, rule) + WrittenAlong(b, lists, rule)
    ensures StaleAlong(a + b, lists, rule) == StaleAlong(a, lists, rule) + StaleAlong(b, lists, rule)
    ensures forall k :: k in WrittenAlong(a, lists, rule) <==> k in a && k in ListsBefore(lists, rule)
    ensures forall k :: k in StaleAlong(a, lists, rule) <==> k in a && k in StaleIn(lists, rule)
  {
    if a == [] {
      assert a + b == b;
    } else {
      assert (a + b)[1..] == a[1..] + b && (a + b)[0] == a[0];
      AlongConcat(a[1..], b, lists, rule);
    }
  }

  /** The copy found is that of the first list that shows the issue; there is none exactly when no list does. */
  lemma {:induction false} FirstLoadedIs(keys: seq<ListKey>, lists: map<ListKey, ListData>, id: string) returns (n: nat)
    requires forall key <- keys :: key in lists && lists[key].ByStatus?
    ensures n <= |keys| && forall k :: 0 <= k < n ==> FindIssueLocation(lists[keys[k]].cache, id).None?
    ensures if n == |keys| then FirstLoaded(keys, lists, id).None?
            else FindIssueLocation(lists[keys[n]].cache, id).Some? &&
                 FirstLoaded(keys, lists, id) == Some(FindIssueLocation(lists[keys[n]].cache, id).value.issue)
  {
    if keys == [] || FindIssueLocation(lists[keys[0]].cache, id).Some? {
      n := 0;
    } else {
      var rest := FirstLoadedIs(keys[1..], lists, id);
      n := rest + 1;
      forall k | 0 <= k < n ensures FindIssueLocation(lists[keys[k]].cache, id).None? {
        assert k > 0 ==> keys[k] == keys[1..][k - 1];
      }
    }
  }

  /** What a change returns: snapshots and stale keys in the order of the entries, each key once as the sets have it,
      and for the freshest old copy the base, or the first loaded one, or the detail. */
  lemma ResultIs(s: CacheState, id: string, patch: Patch, changed: Dims, base: Option<Issue>, first: seq<ListKey>,
                 rest: seq<ListKey>)
    returns (n: nat)
    requires (forall k :: k in s.order <==> k in s.lists) && Entries(s) == first + rest
    ensures var r, rule := ResultOf(s, id, patch, changed, base), RuleFor(id, patch, changed, base);
            && (forall k :: k in r.prevOrder <==> k in r.prevLists)
            && (forall k :: k in r.staleOrder <==> k in r.staleKeys)
            && r.prevOrder == WrittenAlong(first, s.lists, rule) + WrittenAlong(rest, s.lists, rule)
            && r.staleOrder == StaleAlong(first, s.lists, rule) + StaleAlong(rest, s.lists, rule)
    ensures n <= |Entries(s)| && forall k :: 0 <= k < n ==> LoadedCopy(s.lists[Entries(s)[k]].cache, id).None?
    ensures n < |Entries(s)| ==> LoadedCopy(s.lists[Entries(s)[n]].cache, id).Some?
    ensures ResultOf(s, id, patch, changed, base).prevIssue ==
            if base.Some? then base
            else if n < |Entries(s)| then LoadedCopy(s.lists[Entries(s)[n]].cache, id)
            else if id in s.details then Some(s.details[id]) else None
  {
    var rule := RuleFor(id, patch, changed, base);
    AlongConcat(first, rest, s.lists, rule);
    AlongConcat(Entries(s), [], s.lists, rule);
    assert forall k :: k in s.lists && s.lists[k].ByStatus? <==> k in Entries(s);
    n := FirstLoadedIs(Entries(s), s.lists, id);
  }
}

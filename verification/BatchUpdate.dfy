/** The batch edit's optimistic lifecycle (useBatchUpdateIssues in packages/core/issues/mutations.ts). */
module BatchUpdate {
  import opened Options
  import opened Sequences
  import opened IssueTypes
  import opened InboxTypes
  import opened Membership
  import opened Buckets
  import opened Coordinator
  import opened WsUpdaters
  import opened Mutations

  datatype BatchContext = BatchContext(
    prevLists: map<ListKey, ListCache>,
    prevDetails: map<string, Issue>,
    prevInbox: Option<seq<InboxItem>>,
    staleKeys: set<ListKey>,
    prevChildren: map<string, seq<Issue>>)

  const NOTHING_TAKEN := BatchContext(map[], map[], None, {}, map[])

  /** One issue of the batch through the coordinator. */
  function StepState(s: CacheState, id: string, patch: Patch): CacheState {
    var base := Lookup(s.details, id);
    ApplyChange(s, id, patch, IssueChangedDims(patch, base), base)
  }

  function StepResult(s: CacheState, id: string, patch: Patch): ChangeResult {
    var base := Lookup(s.details, id);
    ResultOf(s, id, patch, IssueChangedDims(patch, base), base)
  }

  /** List and inbox snapshots are first-wins; a detail snapshot is overwritten by a later one. */
  function Take(ctx: BatchContext, id: string, r: ChangeResult): BatchContext {
    BatchContext(r.prevLists + ctx.prevLists,
                 if r.prevDetail.Some? then ctx.prevDetails[id := r.prevDetail.value] else ctx.prevDetails,
                 OrElse(ctx.prevInbox, r.prevInbox),
                 ctx.staleKeys + r.staleKeys,
                 ctx.prevChildren)
  }

  function RunState(s: CacheState, ids: seq<string>, patch: Patch): CacheState
    decreases |ids|
  {
    if ids == [] then s else RunState(StepState(s, ids[0], patch), ids[1..], patch)
  }

  function RunContext(s: CacheState, ctx: BatchContext, ids: seq<string>, patch: Patch): BatchContext
    decreases |ids|
  {
    if ids == [] then ctx
    else RunContext(StepState(s, ids[0], patch), Take(ctx, ids[0], StepResult(s, ids[0], patch)), ids[1..], patch)
  }

  function ToSet(ids: seq<string>): set<string> {
    set i | i in ids
  }

  function ChildrenAfter(children: map<string, seq<Issue>>, ids: set<string>, patch: Patch): map<string, seq<Issue>> {
    map p | p in children :: if Ids(children[p]) !! ids then children[p] else PatchRows(children[p], ids, patch)
  }

  function ChildrenBefore(children: map<string, seq<Issue>>, ids: set<string>): map<string, seq<Issue>> {
    map p | p in children && !(Ids(children[p]) !! ids) :: children[p]
  }

  /** The cache and the context after onMutate. */
  function BatchState(s: CacheState, ids: seq<string>, patch: Patch): CacheState {
    var next := RunState(s, ids, patch);
    next.(children := ChildrenAfter(next.children, ToSet(ids), patch))
  }

  function BatchContextOf(s: CacheState, ids: seq<string>, patch: Patch): BatchContext {
    var ctx := RunContext(s, NOTHING_TAKEN, ids, patch);
    ctx.(prevChildren := ChildrenBefore(RunState(s, ids, patch).children, ToSet(ids)))
  }

  /** onError: every snapshot is written back. */
  function BatchFailed(s: CacheState, ctx: BatchContext): CacheState {
    s.(lists := RestoreLists(s.lists, ctx.prevLists),
       details := s.details + ctx.prevDetails,
       inbox := OrElse(ctx.prevInbox, s.inbox),
       children := s.children + ctx.prevChildren)
  }

  /** The batch reports exactly what some issue's pass reported, each over the cache that the passes before it left. */
  lemma {:induction false} BatchReports(s: CacheState, ctx: BatchContext, ids: seq<string>, patch: Patch, key: ListKey)
    ensures key in RunContext(s, ctx, ids, patch).staleKeys <==>
            || key in ctx.staleKeys
            || exists k :: 0 <= k < |ids| && ReportedAt(s, ids, patch, k, key)
    decreases |ids|
  {
    if ids != [] {
      var next, r := StepState(s, ids[0], patch), StepResult(s, ids[0], patch);
      BatchReports(next, Take(ctx, ids[0], r), ids[1..], patch, key);
      assert ids[..0] == [];
      assert ReportedAt(s, ids, patch, 0, key) <==> key in r.staleKeys;
      forall k | 0 < k < |ids|
        ensures ReportedAt(s, ids, patch, k, key) <==> ReportedAt(next, ids[1..], patch, k - 1, key)
      {
        assert ids[..k][0] == ids[0] && ids[..k][1..] == ids[1..][..k - 1];
      }
      if k :| 0 <= k < |ids[1..]| && ReportedAt(next, ids[1..], patch, k, key) {
        assert ReportedAt(s, ids, patch, k + 1, key);
      }
    }
  }

  predicate ReportedAt(s: CacheState, ids: seq<string>, patch: Patch, k: nat, key: ListKey)
    requires k < |ids|
  {
    key in StepResult(RunState(s, ids[..k], patch), ids[k], patch).staleKeys
  }

  method BatchOnMutate(qc: QueryCache, ids: seq<string>, patch: Patch) returns (ctx: BatchContext)
    requires qc.Valid()
    modifies qc
    ensures qc.Valid()
    ensures qc.State() == BatchState(old(qc.State()), ids, patch)
    ensures ctx == BatchContextOf(old(qc.State()), ids, patch)
  {
    ghost var s := qc.State();
    ctx := NOTHING_TAKEN;
    var rest := ids;
    while rest != []
      invariant qc.Valid()
      invariant RunState(qc.State(), rest, patch) == RunState(s, ids, patch)
      invariant RunContext(qc.State(), ctx, rest, patch) == RunContext(s, NOTHING_TAKEN, ids, patch)
      decreases |rest|
    {
      var id := rest[0];
      var base := Lookup(qc.details, id);
      var change := ApplyIssueChange(qc, id, patch, IssueChangedDims(patch, base), base);
      ctx := Take(ctx, id, change);
      rest := rest[1..];
    }
    var prevChildren := PatchLoadedChildren(qc, ToSet(ids), patch);
    ctx := ctx.(prevChildren := prevChildren);
  }

  /** The loop over the loaded sub-issue lists. */
  method PatchLoadedChildren(qc: QueryCache, ids: set<string>, patch: Patch)
    returns (prevChildren: map<string, seq<Issue>>)
    requires qc.Valid()
    modifies qc
    ensures qc.Valid()
    ensures qc.State() == old(qc.State()).(children := ChildrenAfter(old(qc.children), ids, patch))
    ensures prevChildren == ChildrenBefore(old(qc.children), ids)
  {
    ghost var s := qc.State();
    prevChildren := map[];
    var rest := qc.childOrder;
    ghost var done: set<string> := {};
    while rest != []
      invariant qc.State() == s.(children := qc.children)
      invariant Distinct(rest) && forall p <- rest :: p in s.children && p !in done
      invariant forall p <- s.children :: p in done || p in rest
      invariant ChildProgress(s.children, done, ids, patch, qc.children, prevChildren)
      decreases |rest|
    {
      var p := rest[0];
      ChildStep(s.children, done, p, ids, patch, qc.children, prevChildren);
      if !(Ids(qc.children[p]) !! ids) {
        prevChildren := prevChildren[p := qc.children[p]];
        qc.children := qc.children[p := PatchRows(qc.children[p], ids, patch)];
      }
      done := done + {p};
      rest := rest[1..];
    }
    ChildDone(s.children, done, ids, patch, qc.children, prevChildren);
  }

  ghost predicate ChildProgress(before: map<string, seq<Issue>>, done: set<string>, ids: set<string>, patch: Patch,
                                children: map<string, seq<Issue>>, prev: map<string, seq<Issue>>)
  {
    && children.Keys == before.Keys
    && (forall p <- before :: children[p] ==
          if p in done && !(Ids(before[p]) !! ids) then PatchRows(before[p], ids, patch) else before[p])
    && (forall p :: p in prev <==> p in done && p in before && !(Ids(before[p]) !! ids))
    && (forall p <- prev :: p in before && prev[p] == before[p])
  }

  lemma ChildStep(before: map<string, seq<Issue>>, done: set<string>, p: string, ids: set<string>, patch: Patch,
                  children: map<string, seq<Issue>>, prev: map<string, seq<Issue>>)
    requires ChildProgress(before, done, ids, patch, children, prev) && p in before && p !in done
    ensures children[p] == before[p]
    ensures var touched := !(Ids(before[p]) !! ids);
            ChildProgress(before, done + {p}, ids, patch,
                          if touched then children[p := PatchRows(before[p], ids, patch)] else children,
                          if touched then prev[p := before[p]] else prev)
  {
  }

  lemma ChildDone(before: map<string, seq<Issue>>, done: set<string>, ids: set<string>, patch: Patch,
                  children: map<string, seq<Issue>>, prev: map<string, seq<Issue>>)
    requires ChildProgress(before, done, ids, patch, children, prev) && before.Keys <= done
    ensures children == ChildrenAfter(before, ids, patch) && prev == ChildrenBefore(before, ids)
  {
  }

  /** The sub-issue lists are written back like the others. */
  method WriteBackChildren(qc: QueryCache, prev: map<string, seq<Issue>>)
    requires qc.Valid()
    modifies qc
    ensures qc.Valid() && old(qc.childOrder) <= qc.childOrder
    ensures qc.State() == old(qc.State()).(children := old(qc.children) + prev, childOrder := qc.childOrder)
    ensures prev.Keys <= old(qc.children.Keys) ==> qc.childOrder == old(qc.childOrder)
  {
    qc.childOrder := AppendKeys(qc.childOrder, prev.Keys - qc.children.Keys);
    qc.children := qc.children + prev;
  }

  method BatchOnError(qc: QueryCache, ctx: BatchContext)
    requires qc.Valid()
    modifies qc
    ensures qc.Valid() && old(qc.order) <= qc.order && old(qc.childOrder) <= qc.childOrder
    ensures qc.State() == BatchFailed(old(qc.State()), ctx).(order := qc.order, childOrder := qc.childOrder)
    ensures ctx.prevLists.Keys <= old(qc.lists.Keys) ==> qc.order == old(qc.order)
    ensures ctx.prevChildren.Keys <= old(qc.children.Keys) ==> qc.childOrder == old(qc.childOrder)
  {
    WriteBackLists(qc, ctx.prevLists);
    qc.details := qc.details + ctx.prevDetails;
    if ctx.prevInbox.Some? {
      qc.inbox := ctx.prevInbox;
    }
    WriteBackChildren(qc, ctx.prevChildren);
  }

  // ----- a failed batch -----

  /** Ids that occur again after they, or an id in `seen`, occurred. */
  function Repeats(ids: seq<string>, seen: set<string>): set<string> {
    if ids == [] then {}
    else (if ids[0] in seen then {ids[0]} else {}) + Repeats(ids[1..], seen + {ids[0]})
  }

  /** What the snapshots know about the pristine cache `s0` once the ids in `seen` are done. */
  ghost predicate Tracks(s0: CacheState, s: CacheState, ctx: BatchContext, patch: Patch, seen: set<string>,
                         repeated: set<string>)
  {
    && s == s0.(lists := s.lists, details := s.details, inbox := s.inbox)
    && TracksLists(s0.lists, s.lists, ctx.prevLists)
    && (if ctx.prevInbox.Some? then s0.inbox == ctx.prevInbox else s.inbox == s0.inbox)
    && TracksDetails(s0.details, s.details, ctx.prevDetails, patch, seen, repeated)
  }

  ghost predicate TracksLists(lists0: map<ListKey, ListData>, lists: map<ListKey, ListData>,
                              prev: map<ListKey, ListCache>)
  {
    && lists.Keys == lists0.Keys && prev.Keys <= lists0.Keys
    && forall key <- lists0 :: lists0[key] == if key in prev then ByStatus(prev[key]) else lists[key]
  }

  ghost predicate TracksDetails(details0: map<string, Issue>, details: map<string, Issue>, prev: map<string, Issue>,
                                patch: Patch, seen: set<string>, repeated: set<string>)
  {
    && details.Keys == details0.Keys && repeated <= seen
    && (forall i <- details0 :: details[i] == if i in seen then Merge(details0[i], patch) else details0[i])
    && (forall i :: i in prev <==> i in seen && i in details0)
    && (forall i <- prev :: prev[i] == if i in repeated then Merge(details0[i], patch) else details0[i])
  }

  lemma StepTracksLists(lists0: map<ListKey, ListData>, lists: map<ListKey, ListData>, prev: map<ListKey, ListCache>,
                        rule: ListRule)
    requires TracksLists(lists0, lists, prev)
    requires forall key, c :: !rule(key, c).written ==> rule(key, c).next == c
    ensures TracksLists(lists0, ListsAfter(lists, rule), ListsBefore(lists, rule) + prev)
  {
  }

  lemma StepTracksDetails(details0: map<string, Issue>, details: map<string, Issue>, prev: map<string, Issue>,
                          patch: Patch, seen: set<string>, repeated: set<string>, id: string)
    requires TracksDetails(details0, details, prev, patch, seen, repeated)
    ensures TracksDetails(details0,
                          if id in details then details[id := Merge(details[id], patch)] else details,
                          if id in details then prev[id := details[id]] else prev,
                          patch, seen + {id}, repeated + if id in seen then {id} else {})
  {
    if id in details0 { MergedCarries(details0[id], patch); }
  }

  lemma StepTracks(s0: CacheState, s: CacheState, ctx: BatchContext, patch: Patch, seen: set<string>,
                   repeated: set<string>, id: string)
    requires Tracks(s0, s, ctx, patch, seen, repeated)
    ensures Tracks(s0, StepState(s, id, patch), Take(ctx, id, StepResult(s, id, patch)), patch,
                   seen + {id}, repeated + if id in seen then {id} else {})
  {
    var base := Lookup(s.details, id);
    var changed := IssueChangedDims(patch, base);
    UnwrittenIsUnchanged(id, patch, changed, base);
    StepTracksLists(s0.lists, s.lists, ctx.prevLists, RuleFor(id, patch, changed, base));
    StepTracksDetails(s0.details, s.details, ctx.prevDetails, patch, seen, repeated, id);
  }

  lemma {:induction false} RunTracks(s0: CacheState, s: CacheState, ctx: BatchContext, ids: seq<string>,
                                     patch: Patch, seen: set<string>, repeated: set<string>)
    requires Tracks(s0, s, ctx, patch, seen, repeated)
    ensures Tracks(s0, RunState(s, ids, patch), RunContext(s, ctx, ids, patch), patch, seen + ToSet(ids),
            repeated + Repeats(ids, seen))
    decreases |ids|
  {
    if ids == [] {
      assert seen + ToSet(ids) == seen && repeated + Repeats(ids, seen) == repeated;
    } else {
      var id := ids[0];
      var again := if id in seen then {id} else {};
      StepTracks(s0, s, ctx, patch, seen, repeated, id);
      RunTracks(s0, StepState(s, id, patch), Take(ctx, id, StepResult(s, id, patch)), ids[1..], patch,
                seen + {id}, repeated + again);
      assert seen + {id} + ToSet(ids[1..]) == seen + ToSet(ids);
      assert repeated + again + Repeats(ids[1..], seen + {id}) == repeated + Repeats(ids, seen);
    }
  }

  lemma RestoredLists(lists0: map<ListKey, ListData>, lists: map<ListKey, ListData>, prev: map<ListKey, ListCache>)
    requires TracksLists(lists0, lists, prev)
    ensures RestoreLists(lists, prev) == lists0
  {
  }

  lemma RestoredChildren(children: map<string, seq<Issue>>, ids: set<string>, patch: Patch)
    ensures ChildrenAfter(children, ids, patch) + ChildrenBefore(children, ids) == children
  {
  }

  lemma RestoredDetailsIff(details0: map<string, Issue>, details: map<string, Issue>, prev: map<string, Issue>,
                           patch: Patch, seen: set<string>, repeated: set<string>)
    requires TracksDetails(details0, details, prev, patch, seen, repeated)
    ensures details + prev == details0 <==> forall i <- repeated :: i in details0 ==> Carries(details0[i], patch)
  {
    var back := details + prev;
    assert back.Keys == details0.Keys;
    assert forall i <- details0 :: back[i] == if i in repeated then Merge(details0[i], patch) else details0[i];
  }

  /** A failed batch restores every list, the inbox and every sub-issue list; it restores the
      details exactly when no id was given twice, or the repeated ones already carried the write. */
  lemma FailedBatchLeavesNoTraceIff(s: CacheState, ids: seq<string>, patch: Patch)
    ensures var back := BatchFailed(BatchState(s, ids, patch), BatchContextOf(s, ids, patch));
            && back == s.(details := back.details)
            && (back == s <==> forall i <- Repeats(ids, {}) :: i in s.details ==> Carries(s.details[i], patch))
  {
    var repeated := Repeats(ids, {});
    RunTracks(s, s, NOTHING_TAKEN, ids, patch, {}, {});
    assert {} + repeated == repeated;
    var next, ctx := RunState(s, ids, patch), RunContext(s, NOTHING_TAKEN, ids, patch);
    RestoredLists(s.lists, next.lists, ctx.prevLists);
    RestoredChildren(s.children, ToSet(ids), patch);
    RestoredDetailsIff(s.details, next.details, ctx.prevDetails, patch, {} + ToSet(ids), repeated);
  }

  /** A batch that names an issue twice, and fails, leaves the write in the issue's detail. */
  lemma RepeatedIdKeepsItsWrite() returns (s: CacheState, patch: Patch)
    ensures BatchFailed(BatchState(s, ["i", "i"], patch), BatchContextOf(s, ["i", "i"], patch)) != s
  {
    var issue := Issue("i", Todo, None, None, "u", None, None, 0.0, 1, 1, map[]);
    s, patch := CacheState(map[], [], map["i" := issue], None, map[], []), EMPTY_PATCH.(status := Some(Done));
    var ids := ["i", "i"];
    assert ids[1..] == ["i"] && "i" in Repeats(ids[1..], {"i"});
    assert "i" in Repeats(ids, {});
    FailedBatchLeavesNoTraceIff(s, ids, patch);
  }

  lemma {:induction false} RepeatsAreGiven(ids: seq<string>, seen: set<string>)
    ensures Repeats(ids, seen) <= ToSet(ids)
    ensures Distinct(ids) && ToSet(ids) !! seen ==> Repeats(ids, seen) == {}
  {
    if ids != [] {
      RepeatsAreGiven(ids[1..], seen + {ids[0]});
      assert ToSet(ids) == {ids[0]} + ToSet(ids[1..]);
    }
  }

  /** In particular a failed batch over distinct ids leaves no trace. */
  lemma FailedBatchOfDistinctIds(s: CacheState, ids: seq<string>, patch: Patch)
    requires Distinct(ids)
    ensures BatchFailed(BatchState(s, ids, patch), BatchContextOf(s, ids, patch)) == s
  {
    RepeatsAreGiven(ids, {});
    FailedBatchLeavesNoTraceIff(s, ids, patch);
  }
}

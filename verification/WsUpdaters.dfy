/** WebSocket issue events against the query cache (packages/core/issues/ws-updaters.ts). */
module WsUpdaters {
  import opened Options
  import Sequences
  import opened IssueTypes
  import opened Membership
  import opened Buckets
  import opened Coordinator
  import opened Agreement
  import opened Drift
  import opened CacheRuns

  /** The server's "did this write move it" flags; an older backend sends none. */
  datatype Meta = Meta(assignee: Option<bool>, project: Option<bool>, status: Option<bool>)

  const NO_FLAGS := Meta(None, None, None)

  /** `listQueries[0]?.[1]`: the data of the first workspace list. */
  function FirstListCopy(order: seq<ListKey>, lists: map<ListKey, ListData>, id: string): Option<Issue> {
    if order == [] then None
    else if !order[0].WorkspaceList? then FirstListCopy(order[1..], lists, id)
    else if order[0] in lists && lists[order[0]].ByStatus? then LoadedCopy(lists[order[0]].cache, id)
    else None
  }

  function CachedIssue(s: CacheState, id: string): Option<Issue> {
    OrElse(Lookup(s.details, id), FirstListCopy(s.order, s.lists, id))
  }

  /** The handler's copy is the detail if there is one, and otherwise the card in the first workspace list of the
      cache, wherever other workspace lists show it. */
  lemma {:induction false} FirstListCopyIs(order: seq<ListKey>, lists: map<ListKey, ListData>, id: string)
    returns (n: nat)
    requires forall key <- order :: key in lists
    ensures n <= |order| && forall k :: 0 <= k < n ==> order[k].MyList?
    ensures n < |order| ==> order[n].WorkspaceList?
    ensures FirstListCopy(order, lists, id) ==
            if n < |order| && lists[order[n]].ByStatus? then LoadedCopy(lists[order[n]].cache, id) else None
  {
    if order == [] || order[0].WorkspaceList? {
      n := 0;
    } else {
      var rest := FirstListCopyIs(order[1..], lists, id);
      n := rest + 1;
      assert forall k :: 0 < k < n ==> order[k] == order[1..][k - 1];
    }
  }

  lemma CachedIssueIs(s: CacheState, id: string) returns (n: nat)
    requires forall key <- s.order :: key in s.lists
    ensures n <= |s.order| && (forall k :: 0 <= k < n ==> s.order[k].MyList?)
    ensures n < |s.order| ==> s.order[n].WorkspaceList?
    ensures CachedIssue(s, id) ==
            if id in s.details then Some(s.details[id])
            else if n < |s.order| && s.lists[s.order[n]].ByStatus? && Loaded(s.lists[s.order[n]].cache, id)
            then Some(FindIssueLocation(s.lists[s.order[n]].cache, id).value.issue)
            else None
  {
    n := FirstListCopyIs(s.order, s.lists, id);
  }

  function Flag(flag: Option<bool>, fallback: bool): bool {
    if flag.Some? then flag.value else fallback
  }

  /** The server's flags, each replaced by a diff against the cached copy when it is absent. */
  function WsDims(patch: Patch, meta: Meta, cached: Option<Issue>): Dims {
    var oldProject := if cached.Some? then cached.value.projectId else None;
    var assigneeMoved := cached.Some? &&
      (|| (patch.assigneeId.Some? && patch.assigneeId.value != cached.value.assigneeId)
       || (patch.assigneeType.Some? && patch.assigneeType.value != cached.value.assigneeType));
    Dims(Flag(meta.assignee, assigneeMoved),
         Flag(meta.project, patch.projectId.Some? && patch.projectId.value != oldProject),
         Flag(meta.status, cached.Some? && patch.status.Some? && patch.status.value != cached.value.status))
  }

  /** `rows.map((c) => (ids.has(c.id) ? { ...c, ...patch } : c))` */
  function PatchRows(rows: seq<Issue>, ids: set<string>, patch: Patch): seq<Issue> {
    if rows == [] then []
    else [if rows[0].id in ids then Merge(rows[0], patch) else rows[0]] + PatchRows(rows[1..], ids, patch)
  }

  /** The cache after an `issue:updated` event. */
  function Updated(s: CacheState, id: string, patch: Patch, meta: Meta): CacheState {
    var cached := CachedIssue(s, id);
    var next := ApplyChange(s, id, patch, WsDims(patch, meta, cached), cached);
    var oldParent := if cached.Some? then cached.value.parentId else None;
    var parentChanged := patch.parentId.Some? && patch.parentId.value != oldParent;
    if Truthy(oldParent) && !parentChanged && oldParent.value in s.children
    then next.(children := s.children[oldParent.value := PatchRows(s.children[oldParent.value], {id}, patch)])
    else next
  }

  /** The keys an `issue:updated` event refetches. */
  function UpdatedStale(s: CacheState, id: string, patch: Patch, meta: Meta): set<ListKey> {
    var cached := CachedIssue(s, id);
    ResultOf(s, id, patch, WsDims(patch, meta, cached), cached).staleKeys
  }

  /** The sub-issue lists an `issue:updated` event refetches: those of both parents, if it changes the parent. */
  function UpdatedStaleChildren(s: CacheState, id: string, patch: Patch): set<string> {
    var cached := CachedIssue(s, id);
    var oldParent := if cached.Some? then cached.value.parentId else None;
    if patch.parentId.None? || patch.parentId.value == oldParent then {}
    else (if Truthy(oldParent) then {oldParent.value} else {})
         + (if Truthy(patch.parentId.value) then {patch.parentId.value.value} else {})
  }

  /** The cache after an `issue:created` event; every my-list is refetched. */
  function Created(s: CacheState, issue: Issue): CacheState {
    s.(lists := map key | key in s.lists ::
         if key.WorkspaceList? && s.lists[key].ByStatus?
         then ByStatus(AddIssueToBuckets(s.lists[key].cache, issue)) else s.lists[key])
  }

  function CreatedStale(s: CacheState): set<ListKey> {
    set key | key in s.lists && key.MyList?
  }

  method OnIssueUpdated(qc: QueryCache, id: string, patch: Patch, meta: Meta)
    returns (staleKeys: set<ListKey>, staleChildren: set<string>)
    requires qc.Valid()
    modifies qc
    ensures qc.Valid()
    ensures qc.State() == Updated(old(qc.State()), id, patch, meta)
    ensures staleKeys == UpdatedStale(old(qc.State()), id, patch, meta)
    ensures staleChildren == UpdatedStaleChildren(old(qc.State()), id, patch)
  {
    var cached := CachedIssue(qc.State(), id);
    var oldParent := if cached.Some? then cached.value.parentId else None;
    var parentChanged := patch.parentId.Some? && patch.parentId.value != oldParent;
    var change := ApplyIssueChange(qc, id, patch, WsDims(patch, meta, cached), cached);
    staleKeys, staleChildren := change.staleKeys, {};
    if Truthy(oldParent) {
      if parentChanged {
        staleChildren := {oldParent.value};
      } else if oldParent.value in qc.children {
        qc.children := qc.children[oldParent.value := PatchRows(qc.children[oldParent.value], {id}, patch)];
      }
    }
    if parentChanged && Truthy(patch.parentId.value) {
      staleChildren := staleChildren + {patch.parentId.value.value};
    }
  }

  method OnIssueCreated(qc: QueryCache, issue: Issue) returns (staleKeys: set<ListKey>)
    requires qc.Valid()
    modifies qc
    ensures qc.Valid()
    ensures qc.State() == Created(old(qc.State()), issue)
    ensures staleKeys == CreatedStale(old(qc.State()))
  {
    ghost var s := qc.State();
    staleKeys := {};
    var rest := qc.order;
    ghost var done: set<ListKey> := {};
    while rest != []
      invariant qc.State() == s.(lists := qc.lists) && qc.lists.Keys == s.lists.Keys
      invariant Sequences.Distinct(rest) && forall k <- rest :: k in s.lists && k !in done
      invariant (forall k <- s.lists :: k in done || k in rest) && done <= s.lists.Keys
      invariant forall k <- s.lists :: qc.lists[k] == if k in done then Created(s, issue).lists[k] else s.lists[k]
      invariant forall k :: k in staleKeys <==> k in done && k.MyList?
      decreases |rest|
    {
      var key := rest[0];
      if key.MyList? {
        staleKeys := staleKeys + {key};
      } else if qc.lists[key].ByStatus? {
        qc.lists := qc.lists[key := ByStatus(AddIssueToBuckets(qc.lists[key].cache, issue))];
      }
      done := done + {key};
      rest := rest[1..];
    }
  }

  // ----- the flags of an event -----

  /** With truthful flags, or with a cached copy to diff against, the dims cover the write. */
  lemma WsDimsCover(before: Issue, patch: Patch, meta: Meta, cached: Option<Issue>)
    requires cached.Some? ==> SameRow(cached.value, before)
    requires var after := Merge(before, patch);
      && (if meta.assignee.None? then cached.Some?
          else before.assigneeId != after.assigneeId || before.assigneeType != after.assigneeType
               ==> meta.assignee.value)
      && (if meta.project.None? then cached.Some? else before.projectId != after.projectId ==> meta.project.value)
      && (if meta.status.None? then cached.Some? else before.status != after.status ==> meta.status.value)
    ensures Covers(WsDims(patch, meta, cached), before, Merge(before, patch))
  {
  }

  /** An event for this row lets no list drift unreported. */
  ghost predicate SafeFor(before: Issue, patch: Patch, meta: Meta, cached: Option<Issue>) {
    Writes(before, Merge(before, patch), patch, cached) ==>
      AlwaysKept(before, Merge(before, patch), patch, WsDims(patch, meta, cached), cached)
  }

  /** An event without flags is safe for every row the server may have had, and every list that agreed,
      exactly when a copy is cached or the payload writes no assignee, no status and no cleared project. */
  lemma FallbackDiffIsSafeIff(patch: Patch, cached: Option<Issue>)
    ensures (forall before: Issue :: SafeFor(before, patch, NO_FLAGS, cached))
            <==>
            (cached.Some? ||
             (patch.assigneeId.None? && patch.assigneeType.None? && patch.status.None?
              && patch.projectId != Some(None)))
  {
    var dims := WsDims(patch, NO_FLAGS, cached);
    forall before: Issue | Writes(before, Merge(before, patch), patch, cached)
      ensures SafeFor(before, patch, NO_FLAGS, cached) <==> Enough(dims, before, Merge(before, patch))
    {
      FlagsDecide(before, Merge(before, patch), patch, dims, cached);
    }
    if cached.None? {
      var otherStatus := if patch.status == Some(Todo) then Done else Todo;
      var otherType := if patch.assigneeType == Some(Some(Member)) then Some(Agent) else Some(Member);
      var otherId := if patch.assigneeId == Some(Some("a")) then Some("b") else Some("a");
      var creator := Pick(patch.creatorId, "");
      var before := Issue("", otherStatus, otherType, otherId, creator, None, Some("p"), 0.0, 0, 0, map[]);
      assert Writes(before, Merge(before, patch), patch, cached);
      assert SafeFor(before, patch, NO_FLAGS, cached) <==> Enough(dims, before, Merge(before, patch));
    }
  }

  // ----- runs of events -----

  /** What reaches the cache: a local write, which the server stamps with the time `at`, the answer to a
      local write that asked for `intent`, the two WebSocket events, and a list fetched, or fetched again. */
  datatype Event =
    | Mutated(id: string, patch: Patch, at: int)
    | Answered(id: string, intent: Patch)
    | WsUpdated(id: string, patch: Patch, meta: Meta)
    | WsCreated(issue: Issue)
    | Fetched(key: ListKey, cache: ListCache)

  /** The server's table after an event; an answer or an echo changes nothing there. */
  function ServerAfter(server: Server, e: Event): Server {
    match e
    case Mutated(id, patch, at) =>
      if id in server then server[id := Merge(server[id], patch).(updatedAt := at)] else server
    case Answered(_, _) => server
    case WsUpdated(id, patch, _) => if id in server then server[id := Merge(server[id], patch)] else server
    case WsCreated(issue) => server[issue.id := issue]
    case Fetched(_, _) => server
  }

  predicate IsWrite(e: Event) {
    e.Mutated? || e.Answered? || e.WsUpdated?
  }

  /** What is fetched is what the server has. */
  ghost predicate Fresh(server: Server, w: World, e: Event) {
    e.Fetched? ==> Agrees(e.cache, server, w, e.key)
  }

  /** Events are about the server's issues, and no write changes who created one. Flags may say anything. */
  predicate Possible(server: Server, e: Event) {
    match e
    case Mutated(id, patch, _) => id in server && Merge(server[id], patch).creatorId == server[id].creatorId
    case Answered(id, _) => id in server
    case WsUpdated(id, patch, _) => id in server && Merge(server[id], patch).creatorId == server[id].creatorId
    case WsCreated(issue) => issue.id in server ==> server[issue.id] == issue
    case Fetched(_, _) => true
  }

  datatype Change = Change(patch: Patch, changed: Dims, base: Option<Issue>)

  /** What the handler of an event passes to the coordinator. */
  function ChangeOf(s: CacheState, server: Server, e: Event): Change
    requires Possible(server, e) && IsWrite(e)
  {
    match e
    case Mutated(id, patch, _) =>
      var base := Lookup(s.details, id);
      Change(patch, IssueChangedDims(patch, base), base)
    case Answered(id, intent) =>
      var row := server[id];
      Change(AsPatch(row), IssueChangedDims(intent, Some(row)), Some(row))
    case WsUpdated(id, patch, meta) =>
      var cached := CachedIssue(s, id);
      Change(patch, WsDims(patch, meta, cached), cached)
  }

  /** A list comes in, in its place or behind the others. */
  function Refetch(s: CacheState, key: ListKey, cache: ListCache): CacheState {
    s.(lists := s.lists[key := ByStatus(cache)],
       order := if key in s.lists then s.order else s.order + [key])
  }

  /** The client's handlers. */
  function Handle(s: CacheState, server: Server, e: Event): CacheState
    requires Possible(server, e)
  {
    match e
    case WsCreated(issue) => Created(s, issue)
    case WsUpdated(id, patch, meta) => Updated(s, id, patch, meta)
    case Fetched(key, cache) => Refetch(s, key, cache)
    case _ =>
      var ch := ChangeOf(s, server, e);
      ApplyChange(s, e.id, ch.patch, ch.changed, ch.base)
  }

  function Reported(s: CacheState, server: Server, e: Event): set<ListKey>
    requires Possible(server, e)
  {
    if e.WsCreated? then CreatedStale(s)
    else if e.Fetched? then {}
    else
      var ch := ChangeOf(s, server, e);
      ResultOf(s, e.id, ch.patch, ch.changed, ch.base).staleKeys
  }

  /** Workspace lists that count an announced issue twice, or count one that their date filter leaves out. */
  function CreatedSlips(s: CacheState, server: Server, issue: Issue): set<ListKey> {
    set key | key in s.lists && key.WorkspaceList? && s.lists[key].ByStatus? &&
      if issue.id in server then !Loaded(s.lists[key].cache, issue.id) else !InWindow(key.sort.window, issue)
  }

  /** What the run theorems call reported is what the two handlers refetch. */
  lemma HandlersReport(s: CacheState, server: Server, id: string, patch: Patch, meta: Meta, issue: Issue)
    requires Possible(server, WsUpdated(id, patch, meta)) && Possible(server, WsCreated(issue))
    ensures Reported(s, server, WsUpdated(id, patch, meta)) == UpdatedStale(s, id, patch, meta)
    ensures forall key :: key in Reported(s, server, WsCreated(issue)) <==> key in s.lists && key.MyList?
  {
  }

  /** Every list is in the insertion order once. */
  ghost predicate InOrder(s: CacheState) {
    Sequences.Distinct(s.order) && forall key :: key in s.order <==> key in s.lists
  }

  /** No event loses a list; a list that comes in goes behind the others, or stays where it is. */
  lemma HandleKeepsOrder(s: CacheState, server: Server, e: Event)
    requires InOrder(s) && Possible(server, e)
    ensures InOrder(Handle(s, server, e)) && s.order <= Handle(s, server, e).order
    ensures e.Fetched? ==> Handle(s, server, e).lists == s.lists[e.key := ByStatus(e.cache)]
  {
    if e.Fetched? {
      if e.key !in s.lists { Sequences.DistinctConcat(s.order, [e.key]); }
    }
  }

  /** The lists that an event leaves wrong without reporting them. */
  ghost function Slips(s: CacheState, server: Server, w: World, e: Event): set<ListKey>
    requires Possible(server, e)
  {
    if e.WsCreated? then CreatedSlips(s, server, e.issue)
    else if e.Fetched? then {}
    else
      var ch := ChangeOf(s, server, e);
      Slipped(s, w, server[e.id], ServerAfter(server, e)[e.id], ch.patch, ch.changed, ch.base)
  }

  lemma {:induction false} FirstListCopyCurrent(order: seq<ListKey>, lists: map<ListKey, ListData>, id: string,
                                                server: Server)
    requires forall key <- lists :: lists[key].ByStatus? ==> ListCurrent(lists[key].cache, server)
    ensures FirstListCopy(order, lists, id).Some? ==>
            id in server && SameRow(FirstListCopy(order, lists, id).value, server[id])
  {
    if order != [] {
      FirstListCopyCurrent(order[1..], lists, id, server);
      if order[0] in lists && lists[order[0]].ByStatus? && Loaded(lists[order[0]].cache, id) {
        CurrentLocation(lists[order[0]].cache, server, id);
      }
    }
  }

  /** An event other than a creation is one server write to the coordinator. */
  lemma EventIsWrite(s: CacheState, server: Server, w: World, excepted: set<ListKey>, e: Event)
    requires Keyed(server) && Right(s, server, w, excepted) && Possible(server, e) && IsWrite(e)
    ensures var ch := ChangeOf(s, server, e);
            ServerWrite(server, ServerAfter(server, e), e.id, ch.patch, ch.base)
  {
    if e.Answered? {
      assert server[e.id].fields + server[e.id].fields == server[e.id].fields;
    }
    if e.WsUpdated? {
      FirstListCopyCurrent(s.order, s.lists, e.id, server);
    }
  }

  /** The lists nothing is claimed of: one is struck off when it is fetched, and added when it is reported or slips. */
  ghost function NowExcepted(s: CacheState, server: Server, w: World, excepted: set<ListKey>, e: Event): set<ListKey>
    requires Possible(server, e)
  {
    if e.Fetched? then excepted - {e.key} else excepted + Reported(s, server, e) + Slips(s, server, w, e)
  }

  /** The cache is right up to those lists; and one that agreed before agrees after exactly when it is neither
      reported nor slips. */
  ghost predicate KeptRight(s: CacheState, server: Server, w: World, excepted: set<ListKey>, e: Event)
    requires Possible(server, e)
  {
    var next, after := Handle(s, server, e), ServerAfter(server, e);
    var reported, slips := Reported(s, server, e), Slips(s, server, w, e);
    && Right(next, after, w, NowExcepted(s, server, w, excepted, e))
    && (forall key <- s.lists :: s.lists[key].ByStatus? && key !in excepted + reported ==>
          key in next.lists && next.lists[key].ByStatus? &&
          (Agrees(next.lists[key].cache, after, w, key) <==> key !in slips))
  }

  lemma FetchKeepsRight(s: CacheState, server: Server, w: World, excepted: set<ListKey>, e: Event)
    requires Right(s, server, w, excepted) && e.Fetched? && Fresh(server, w, e)
    ensures KeptRight(s, server, w, excepted, e)
  {
    var next := Handle(s, server, e);
    AgreeingLocation(e.cache, server, w, e.key, "");
    assert next.details == s.details && next.inbox == s.inbox;
    forall key | key in next.lists && key != e.key ensures key in s.lists && next.lists[key] == s.lists[key] {
    }
    assert next.lists[e.key] == ByStatus(e.cache);
  }

  lemma WriteEventKeepsRight(s: CacheState, server: Server, w: World, excepted: set<ListKey>, e: Event)
    requires Keyed(server) && Right(s, server, w, excepted) && Possible(server, e) && IsWrite(e)
    ensures KeptRight(s, server, w, excepted, e)
  {
    var ch := ChangeOf(s, server, e);
    EventIsWrite(s, server, w, excepted, e);
    WriteKeepsRight(s, server, ServerAfter(server, e), w, excepted, e.id, ch.patch, ch.changed, ch.base);
  }

  /** One event keeps the cache right up to the keys it reports and the lists that slip, exactly. */
  lemma EventKeepsRight(s: CacheState, server: Server, w: World, excepted: set<ListKey>, e: Event)
    requires Keyed(server) && Right(s, server, w, excepted) && Possible(server, e) && Fresh(server, w, e)
    ensures Keyed(ServerAfter(server, e))
    ensures KeptRight(s, server, w, excepted, e)
  {
    match e
    case WsCreated(issue) => CreatedKeepsRight(s, server, ServerAfter(server, e), w, excepted, issue);
    case Fetched(_, _) => FetchKeepsRight(s, server, w, excepted, e);
    case _ => WriteEventKeepsRight(s, server, w, excepted, e);
  }

  lemma CreatedListAgreesIff(s: CacheState, server: Server, after: Server, w: World, key: ListKey, issue: Issue)
    requires RowAdded(server, after, issue) && key in s.lists && key.WorkspaceList? && s.lists[key].ByStatus?
    requires Agrees(s.lists[key].cache, server, w, key)
    ensures Agrees(AddIssueToBuckets(s.lists[key].cache, issue), after, w, key) <==>
            key !in CreatedSlips(s, server, issue)
  {
    if issue.id in server {
      assert after == server;
      ReannouncedIsRightIffLoaded(s.lists[key].cache, server, w, key, issue);
    } else {
      AddedListAgreesIff(key, s.lists[key].cache, server, after, w, issue);
    }
  }

  lemma CreatedKeepsRight(s: CacheState, server: Server, after: Server, w: World, excepted: set<ListKey>, issue: Issue)
    requires Right(s, server, w, excepted) && RowAdded(server, after, issue)
    ensures var next, slips := Created(s, issue), CreatedSlips(s, server, issue);
            && Right(next, after, w, excepted + CreatedStale(s) + slips)
            && (forall key <- s.lists :: s.lists[key].ByStatus? && key !in excepted + CreatedStale(s) ==>
                  (Agrees(next.lists[key].cache, after, w, key) <==> key !in slips))
  {
    var next := Created(s, issue);
    forall key | key in next.lists && next.lists[key].ByStatus?
      ensures ListCurrent(next.lists[key].cache, after)
      ensures key !in excepted + CreatedStale(s) ==>
              (Agrees(next.lists[key].cache, after, w, key) <==> key !in CreatedSlips(s, server, issue))
    {
      var c := s.lists[key].cache;
      if key.WorkspaceList? {
        AddStaysCurrent(c, server, after, issue);
        if key !in excepted {
          CreatedListAgreesIff(s, server, after, w, key, issue);
        }
      } else {
        forall t: Status ensures Current(GetBucket(c, t).issues, t, after) {
          assert Current(GetBucket(c, t).issues, t, server);
        }
      }
    }
    if s.inbox.Some? { InboxAfterAdd(s.inbox.value, server, after, issue); }
  }

  function RunServer(server: Server, events: seq<Event>): Server
    decreases |events|
  {
    if events == [] then server else RunServer(ServerAfter(server, events[0]), events[1..])
  }

  predicate AllPossible(server: Server, events: seq<Event>)
    decreases |events|
  {
    events != [] ==> Possible(server, events[0]) && AllPossible(ServerAfter(server, events[0]), events[1..])
  }

  function Run(s: CacheState, server: Server, events: seq<Event>): CacheState
    requires AllPossible(server, events)
    decreases |events|
  {
    if events == [] then s
    else Run(Handle(s, server, events[0]), ServerAfter(server, events[0]), events[1..])
  }

  ghost predicate AllFresh(server: Server, w: World, events: seq<Event>)
    decreases |events|
  {
    events != [] ==> Fresh(server, w, events[0]) && AllFresh(ServerAfter(server, events[0]), w, events[1..])
  }

  ghost function RunExcepted(s: CacheState, server: Server, w: World, excepted: set<ListKey>,
                             events: seq<Event>): set<ListKey>
    requires AllPossible(server, events)
    decreases |events|
  {
    if events == [] then excepted
    else
      RunExcepted(Handle(s, server, events[0]), ServerAfter(server, events[0]), w,
                  NowExcepted(s, server, w, excepted, events[0]), events[1..])
  }

  /** Over every run of local writes, answers, echoes, remote writes and fetches, with any flags: a list that was
      neither reported nor slipped since it was last fetched agrees with the server, and rows, details and inbox
      are current everywhere. */
  lemma {:induction false} RunKeepsRight(s: CacheState, server: Server, w: World, excepted: set<ListKey>,
                                         events: seq<Event>)
    requires Keyed(server) && Right(s, server, w, excepted)
    requires AllPossible(server, events) && AllFresh(server, w, events)
    ensures Right(Run(s, server, events), RunServer(server, events), w, RunExcepted(s, server, w, excepted, events))
    decreases |events|
  {
    if events != [] {
      var e := events[0];
      EventKeepsRight(s, server, w, excepted, e);
      RunKeepsRight(Handle(s, server, e), ServerAfter(server, e), w,
                    NowExcepted(s, server, w, excepted, e), events[1..]);
    }
  }

  // ----- runs in which nothing slips -----

  /** The dims of an update cover the write, and a created issue is new. */
  predicate Covered(s: CacheState, server: Server, e: Event)
    requires Possible(server, e)
  {
    match e
    case WsUpdated(id, patch, meta) =>
      Covers(WsDims(patch, meta, CachedIssue(s, id)), server[id], Merge(server[id], patch))
    case WsCreated(issue) => issue.id !in server
    case _ => true
  }

  predicate AllCovered(s: CacheState, server: Server, events: seq<Event>)
    requires AllPossible(server, events)
    decreases |events|
  {
    events != [] ==>
      && Covered(s, server, events[0])
      && AllCovered(Handle(s, server, events[0]), ServerAfter(server, events[0]), events[1..])
  }

  lemma LocalDimsCover(s: CacheState, server: Server, w: World, excepted: set<ListKey>, e: Event)
    requires Keyed(server) && Right(s, server, w, excepted)
    requires Possible(server, e) && Covered(s, server, e) && IsWrite(e)
    ensures Covers(ChangeOf(s, server, e).changed, server[e.id], ServerAfter(server, e)[e.id])
  {
    if e.Mutated? {
      ChangedDimsAreExact(e.patch, server[e.id]);
    }
  }

  /** The lists that wait for a refetch, and the ones with a date filter, of which nothing is claimed. */
  function NowPending(s: CacheState, server: Server, pending: set<ListKey>, e: Event): set<ListKey>
    requires Possible(server, e)
  {
    if !e.Fetched? then pending + Reported(s, server, e)
    else if e.key.sort.window.None? then pending - {e.key}
    else pending + {e.key}
  }

  /** A list without a date filter never slips under such events. */
  lemma CoveredEventKeepsRight(s: CacheState, server: Server, w: World, pending: set<ListKey>, e: Event)
    requires Keyed(server) && Right(s, server, w, pending)
    requires Possible(server, e) && Covered(s, server, e) && Fresh(server, w, e)
    requires forall key <- s.lists :: key.sort.window.Some? ==> key in pending
    ensures Keyed(ServerAfter(server, e))
    ensures Right(Handle(s, server, e), ServerAfter(server, e), w, NowPending(s, server, pending, e))
    ensures forall key <- Handle(s, server, e).lists ::
              key.sort.window.Some? ==> key in NowPending(s, server, pending, e)
  {
    EventKeepsRight(s, server, w, pending, e);
    if !e.Fetched? {
      forall key | key in Slips(s, server, w, e) && key !in pending
        ensures false
      {
        if IsWrite(e) {
          var ch := ChangeOf(s, server, e);
          EventIsWrite(s, server, w, pending, e);
          LocalDimsCover(s, server, w, pending, e);
          CoveredDoesNotSlip(s, server, ServerAfter(server, e), w, key, e.id, ch.patch, ch.changed, ch.base);
        }
      }
      assert pending + Reported(s, server, e) + Slips(s, server, w, e) == pending + Reported(s, server, e);
      HandleKeepsKeys(s, server, e);
    }
  }

  lemma HandleKeepsKeys(s: CacheState, server: Server, e: Event)
    requires Possible(server, e) && !e.Fetched?
    ensures Handle(s, server, e).lists.Keys == s.lists.Keys
  {
  }

  function RunPending(s: CacheState, server: Server, pending: set<ListKey>, events: seq<Event>): set<ListKey>
    requires AllPossible(server, events)
    decreases |events|
  {
    if events == [] then pending
    else
      RunPending(Handle(s, server, events[0]), ServerAfter(server, events[0]),
                 NowPending(s, server, pending, events[0]), events[1..])
  }

  /** Over every run of such events a list without a date filter agrees with the server whenever it is not
      waiting for a refetch. */
  lemma {:induction false} CoveredRunKeepsRight(s: CacheState, server: Server, w: World, pending: set<ListKey>,
                                                events: seq<Event>)
    requires Keyed(server) && Right(s, server, w, pending)
    requires AllPossible(server, events) && AllCovered(s, server, events) && AllFresh(server, w, events)
    requires forall key <- s.lists :: key.sort.window.Some? ==> key in pending
    ensures Right(Run(s, server, events), RunServer(server, events), w, RunPending(s, server, pending, events))
    decreases |events|
  {
    if events != [] {
      var e := events[0];
      CoveredEventKeepsRight(s, server, w, pending, e);
      CoveredRunKeepsRight(Handle(s, server, e), ServerAfter(server, e), w,
                           NowPending(s, server, pending, e), events[1..]);
    }
  }
}

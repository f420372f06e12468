/** Which list an issue belongs to, as far as the client can tell from the entity alone. */
module Membership {
  import opened Options
  import opened IssueTypes

  datatype Filter = Filter(
    assigneeId: Option<string>,
    assigneeIds: Option<seq<string>>,
    assigneeTypes: Option<seq<ActorType>>,
    creatorId: Option<string>,
    projectId: Option<string>,
    involvesUserId: Option<string>)

  const NO_FILTER := Filter(None, None, None, None, None, None)

  datatype Verdict = Yes | No | Unknown

  /** The field groups a write can move. */
  datatype Dims = Dims(assignee: bool, project: bool, status: bool)

  function And(a: Verdict, b: Verdict): Verdict {
    if a.No? || b.No? then No else if a.Unknown? || b.Unknown? then Unknown else Yes
  }

  function Decide(answer: bool): Verdict {
    if answer then Yes else No
  }

  /** One filter field against a possibly missing entity field. */
  function Judge<F, V>(filter: Option<F>, field: Option<V>, holds: (F, V) -> bool): Verdict {
    if filter.None? then Yes else if field.None? then Unknown else Decide(holds(filter.value, field.value))
  }

  function IssueMatchesListFilter(issue: Patch, scope: Option<string>, filter: Filter): Verdict {
    if scope == Some("all") then Unknown else
      And(Judge(filter.assigneeId, issue.assigneeId, (want: string, has: Option<string>) => has == Some(want)),
      And(Judge(filter.assigneeIds, issue.assigneeId,
                (want: seq<string>, has: Option<string>) => has.Some? && has.value in want),
      And(Judge(filter.assigneeTypes, issue.assigneeType,
                (want: seq<ActorType>, has: Option<ActorType>) => has.Some? && has.value in want),
      And(Judge(filter.creatorId, issue.creatorId, (want: string, has: string) => has == want),
      And(Judge(filter.projectId, issue.projectId, (want: string, has: Option<string>) => has == Some(want)),
          if filter.involvesUserId.Some? then Unknown else Yes)))))
  }

  predicate ListFilterDependsOn(scope: Option<string>, filter: Filter, changed: Dims) {
    if scope == Some("all") then changed.assignee
    else
      || (changed.assignee &&
          (filter.assigneeId.Some? || filter.assigneeIds.Some? || filter.assigneeTypes.Some?
           || filter.involvesUserId.Some?))
      || (changed.project && filter.projectId.Some?)
  }

  predicate Wrote<T(==)>(written: Option<T>, base: Option<T>) {
    written.Some? && (base.None? || base != written)
  }

  function IssueChangedDims(patch: Patch, base: Option<Issue>): Dims {
    match base
    case None => Dims(patch.assigneeId.Some? || patch.assigneeType.Some?, patch.projectId.Some?, patch.status.Some?)
    case Some(b) =>
      Dims(Wrote(patch.assigneeId, Some(b.assigneeId)) || Wrote(patch.assigneeType, Some(b.assigneeType)),
           Wrote(patch.projectId, Some(b.projectId)),
           Wrote(patch.status, Some(b.status)))
  }

  // ----- what the server decides -----

  /** What only the server knows: who is asking, and which agents and squads belong to which user. */
  datatype World = World(me: string, owns: (string, ActorType, string) -> bool)

  /** An issue involves a user through the agent or squad it is assigned to. */
  predicate Involves(w: World, user: string, assigneeType: Option<ActorType>, assigneeId: Option<string>) {
    && (assigneeType == Some(Agent) || assigneeType == Some(Squad)) && assigneeId.Some?
    && w.owns(user, assigneeType.value, assigneeId.value)
  }

  /** The my:all union: assigned to me, created by me, or involving me. */
  predicate Mine(w: World, issue: Issue) {
    || issue.assigneeId == Some(w.me) || issue.creatorId == w.me
    || Involves(w, w.me, issue.assigneeType, issue.assigneeId)
  }

  ghost predicate Belongs(w: World, scope: Option<string>, filter: Filter, issue: Issue) {
    if scope == Some("all") then Mine(w, issue)
    else
      && (filter.assigneeId.Some? ==> issue.assigneeId == filter.assigneeId)
      && (filter.assigneeIds.Some? ==> issue.assigneeId.Some? && issue.assigneeId.value in filter.assigneeIds.value)
      && (filter.assigneeTypes.Some? ==>
            issue.assigneeType.Some? && issue.assigneeType.value in filter.assigneeTypes.value)
      && (filter.creatorId.Some? ==> issue.creatorId == filter.creatorId.value)
      && (filter.projectId.Some? ==> issue.projectId == filter.projectId)
      && (filter.involvesUserId.Some? ==>
            Involves(w, filter.involvesUserId.value, issue.assigneeType, issue.assigneeId))
  }

  /** The date filter of a list: an instant of the issue from `start` on and before `end`. */
  datatype DateWindow = DateWindow(field: DateField, start: int, end: int)

  datatype DateField = CreatedAt | UpdatedAt

  predicate InWindow(window: Option<DateWindow>, issue: Issue) {
    window.Some? ==>
      var at := if window.value.field.CreatedAt? then issue.createdAt else issue.updatedAt;
      window.value.start <= at < window.value.end
  }

  /** The window takes its first instant and leaves out its last. */
  lemma WindowIsHalfOpen(window: DateWindow, issue: Issue)
    requires window.start < window.end
    ensures window.field.CreatedAt? ==>
              InWindow(Some(window), issue.(createdAt := window.start)) &&
              !InWindow(Some(window), issue.(createdAt := window.end))
    ensures window.field.UpdatedAt? ==>
              InWindow(Some(window), issue.(updatedAt := window.start)) &&
              !InWindow(Some(window), issue.(updatedAt := window.end))
  {
  }

  /** `partial` says nothing that `issue` contradicts. */
  predicate PartOf(partial: Patch, issue: Issue) {
    Carries(issue, partial)
  }

  /** The flags name every group that really moved (they may name more). */
  predicate Covers(changed: Dims, before: Issue, after: Issue) {
    && (before.assigneeId != after.assigneeId || before.assigneeType != after.assigneeType ==> changed.assignee)
    && (before.projectId != after.projectId ==> changed.project)
    && (before.status != after.status ==> changed.status)
  }

  /** A definite verdict is the server's answer for every entity the partial one is part of. */
  lemma VerdictIsSound(w: World, partial: Patch, issue: Issue, scope: Option<string>, filter: Filter)
    requires PartOf(partial, issue)
    ensures IssueMatchesListFilter(partial, scope, filter).Yes? ==> Belongs(w, scope, filter, issue)
    ensures IssueMatchesListFilter(partial, scope, filter).No? ==> !Belongs(w, scope, filter, issue)
  {
  }

  /** The verdict is "yes" as often as it can be: otherwise some entity that `partial` is part of
      is left out in some server world. */
  lemma ShortOfYesIsUncertain(partial: Patch, scope: Option<string>, filter: Filter)
    returns (w: World, issue: Issue)
    requires !IssueMatchesListFilter(partial, scope, filter).Yes?
    ensures PartOf(partial, issue) && !Belongs(w, scope, filter, issue)
  {
    var creator := if filter.creatorId.Some? then filter.creatorId.value + "'" else "";
    var blank := Issue("", Backlog, None, None, creator, None, None, 0.0, 0, 0, map[]);
    issue := Merge(blank, partial);
    MergedCarries(blank, partial);
    var stranger := issue.creatorId + (if issue.assigneeId.Some? then issue.assigneeId.value else "") + "'";
    w := World(stranger, (u, t, a) => false);
    assert |stranger| > |issue.creatorId|;
    assert issue.assigneeId.Some? ==> |stranger| > |issue.assigneeId.value|;
  }

  predicate Contradicts(partial: Patch, filter: Filter) {
    || (partial.assigneeId.Some? &&
        (|| (filter.assigneeId.Some? && partial.assigneeId.value != filter.assigneeId)
         || (filter.assigneeIds.Some? && forall i <- filter.assigneeIds.value :: partial.assigneeId.value != Some(i))))
    || (partial.assigneeType.Some? && filter.assigneeTypes.Some? &&
        forall t <- filter.assigneeTypes.value :: partial.assigneeType.value != Some(t))
    || (partial.creatorId.Some? && filter.creatorId.Some? && partial.creatorId != filter.creatorId)
    || (partial.projectId.Some? && filter.projectId.Some? && partial.projectId.value != filter.projectId)
  }

  /** The verdict is "no" exactly when a field that is there contradicts the filter, and "yes" exactly when every
      field that the filter asks for is there, none contradicts it, and nobody's involvement is asked for. */
  lemma VerdictIs(partial: Patch, scope: Option<string>, filter: Filter)
    ensures IssueMatchesListFilter(partial, scope, filter).No? <==>
            scope != Some("all") && Contradicts(partial, filter)
    ensures IssueMatchesListFilter(partial, scope, filter).Yes? <==>
            && scope != Some("all") && !Contradicts(partial, filter) && filter.involvesUserId.None?
            && (filter.assigneeId.Some? || filter.assigneeIds.Some? ==> partial.assigneeId.Some?)
            && (filter.assigneeTypes.Some? ==> partial.assigneeType.Some?)
            && (filter.creatorId.Some? ==> partial.creatorId.Some?)
            && (filter.projectId.Some? ==> partial.projectId.Some?)
  {
  }

  /** A list whose filter does not depend on the flagged groups keeps its members across the write. */
  lemma UntouchedFilterKeepsMembership(w: World, scope: Option<string>, filter: Filter, changed: Dims, before: Issue,
                                       after: Issue)
    requires Covers(changed, before, after) && before.creatorId == after.creatorId
    requires !ListFilterDependsOn(scope, filter, changed)
    ensures Belongs(w, scope, filter, before) == Belongs(w, scope, filter, after)
    ensures IssueMatchesListFilter(AsPatch(before), scope, filter) ==
            IssueMatchesListFilter(AsPatch(after), scope, filter)
  {
  }

  /** Copies that differ in the last write only are judged alike. */
  lemma SameRowsJudgedAlike(w: World, scope: Option<string>, filter: Filter, a: Issue, b: Issue)
    requires SameRow(a, b)
    ensures IssueMatchesListFilter(AsPatch(a), scope, filter) == IssueMatchesListFilter(AsPatch(b), scope, filter)
    ensures Belongs(w, scope, filter, a) == Belongs(w, scope, filter, b)
  {
  }

  /** Without a base, a group is flagged exactly when the write moves it in some entity. */
  lemma UnknownBaseFlags(patch: Patch)
    ensures var dims := IssueChangedDims(patch, None);
            && (dims.assignee <==> exists before: Issue ::
                  Merge(before, patch).assigneeId != before.assigneeId
                  || Merge(before, patch).assigneeType != before.assigneeType)
            && (dims.project <==> exists before: Issue :: Merge(before, patch).projectId != before.projectId)
            && (dims.status <==> exists before: Issue :: Merge(before, patch).status != before.status)
  {
    var status := if patch.status == Some(Todo) then Done else Todo;
    var kind := if patch.assigneeType == Some(Some(Member)) then Some(Agent) else Some(Member);
    var assignee := if patch.assigneeId == Some(None) then Some("") else None;
    var project := if patch.projectId == Some(None) then Some("") else None;
    var before := Issue("", status, kind, assignee, "", None, project, 0.0, 0, 0, map[]);
    assert Merge(before, patch) == Merge(before, patch);
  }

  /** With a base, the flags are exactly the groups the write moves; without one they still cover it. */
  lemma ChangedDimsAreExact(patch: Patch, before: Issue)
    ensures var after := Merge(before, patch);
            IssueChangedDims(patch, Some(before)) ==
            Dims(before.assigneeId != after.assigneeId || before.assigneeType != after.assigneeType,
                 before.projectId != after.projectId, before.status != after.status)
    ensures Covers(IssueChangedDims(patch, None), before, Merge(before, patch))
  {
  }
}

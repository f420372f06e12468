/** Optional values: JavaScript's `null`, or a key that a partial object lacks. */
module Options {
  datatype Option<+T> = None | Some(value: T)

  /** The `a ?? b` operator. */
  function OrElse<T>(a: Option<T>, b: Option<T>): Option<T> {
    if a.Some? then a else b
  }

  /** JavaScript truthiness of a nullable string: the empty string counts as absent. */
  predicate Truthy(s: Option<string>) {
    s.Some? && s.value != ""
  }
}

/** The issue entity, a partial write to it, and the cached shape of an issue list. */
module IssueTypes {
  import opened Options

  datatype Status = Backlog | Todo | InProgress | InReview | Done | Blocked | Cancelled

  datatype ActorType = Member | Agent | Squad

  /** The columns the cache rules look at; `fields` stands for every other column. */
  datatype Issue = Issue(
    id: string,
    status: Status,
    assigneeType: Option<ActorType>,
    assigneeId: Option<string>,
    creatorId: string,
    parentId: Option<string>,
    projectId: Option<string>,
    position: real,
    createdAt: int,
    updatedAt: int,
    fields: map<string, string>)

  /** `Partial<Issue>` without its id: the outer Option says whether the key is present. */
  datatype Patch = Patch(
    status: Option<Status>,
    assigneeType: Option<Option<ActorType>>,
    assigneeId: Option<Option<string>>,
    creatorId: Option<string>,
    parentId: Option<Option<string>>,
    projectId: Option<Option<string>>,
    position: Option<real>,
    createdAt: Option<int>,
    updatedAt: Option<int>,
    fields: map<string, string>)

  const EMPTY_PATCH := Patch(None, None, None, None, None, None, None, None, None, map[])

  function Pick<T>(written: Option<T>, current: T): T {
    if written.Some? then written.value else current
  }

  /** `{ ...issue, ...patch }` */
  function Merge(issue: Issue, patch: Patch): Issue {
    Issue(issue.id,
          Pick(patch.status, issue.status),
          Pick(patch.assigneeType, issue.assigneeType),
          Pick(patch.assigneeId, issue.assigneeId),
          Pick(patch.creatorId, issue.creatorId),
          Pick(patch.parentId, issue.parentId),
          Pick(patch.projectId, issue.projectId),
          Pick(patch.position, issue.position),
          Pick(patch.createdAt, issue.createdAt),
          Pick(patch.updatedAt, issue.updatedAt),
          issue.fields + patch.fields)
  }

  /** A column holds what was written to it, or else what it held. */
  predicate Column<T(==)>(was: T, now: T, written: Option<T>) {
    written == Some(now) || (written.None? && now == was)
  }

  predicate FieldsShow(was: map<string, string>, now: map<string, string>, written: map<string, string>) {
    && now.Keys == was.Keys + written.Keys
    && forall k <- now :: now[k] == if k in written then written[k] else was[k]
  }

  /** What a partial write makes of an entity, column by column: every written column and field shows the write,
      everything else is kept, and so is the id. */
  predicate ShowsWrite(was: Issue, now: Issue, patch: Patch) {
    && now.id == was.id
    && Column(was.status, now.status, patch.status)
    && Column(was.assigneeType, now.assigneeType, patch.assigneeType)
    && Column(was.assigneeId, now.assigneeId, patch.assigneeId)
    && Column(was.creatorId, now.creatorId, patch.creatorId)
    && Column(was.parentId, now.parentId, patch.parentId)
    && Column(was.projectId, now.projectId, patch.projectId)
    && Column(was.position, now.position, patch.position)
    && Column(was.createdAt, now.createdAt, patch.createdAt)
    && Column(was.updatedAt, now.updatedAt, patch.updatedAt)
    && FieldsShow(was.fields, now.fields, patch.fields)
  }

  lemma MergeShowsWrite(issue: Issue, now: Issue, patch: Patch)
    ensures ShowsWrite(issue, now, patch) <==> now == Merge(issue, patch)
  {
    var merged := issue.fields + patch.fields;
    if FieldsShow(issue.fields, now.fields, patch.fields) {
      assert now.fields == merged;
    }
  }

  /** A full entity used where the source spreads it into a partial one. */
  function AsPatch(issue: Issue): Patch {
    Patch(Some(issue.status), Some(issue.assigneeType), Some(issue.assigneeId), Some(issue.creatorId),
          Some(issue.parentId), Some(issue.projectId), Some(issue.position), Some(issue.createdAt),
          Some(issue.updatedAt), issue.fields)
  }

  /** True of an entity that a write would not change any more. */
  predicate Carries(issue: Issue, patch: Patch) {
    Merge(issue, patch) == issue
  }

  /** Equal but for the time of the last write, which only the server sets. */
  predicate SameRow(a: Issue, b: Issue) {
    a.(updatedAt := b.updatedAt) == b
  }

  /** The server's table: each row is stored under its own id. */
  predicate Keyed(server: map<string, Issue>) {
    forall i :: i in server ==> server[i].id == i
  }

  datatype Bucket = Bucket(issues: seq<Issue>, total: nat)

  /** `ListIssuesCache`: one partial window per status; a status may be missing. */
  datatype ListCache = ListCache(byStatus: map<Status, Bucket>)

  lemma SameRowsMerge(a: Issue, b: Issue, patch: Patch)
    requires SameRow(a, b)
    ensures SameRow(Merge(a, patch), Merge(b, patch))
  {
  }

  /** A full entity written over another leaves nothing of the other but its id and fields it does not have. */
  lemma RowOverwrites(other: Issue, row: Issue)
    ensures ShowsWrite(other, row.(id := other.id, fields := other.fields + row.fields), AsPatch(row))
  {
  }

  lemma MergedCarries(issue: Issue, patch: Patch)
    ensures Carries(Merge(issue, patch), patch)
  {
    assert (issue.fields + patch.fields) + patch.fields == issue.fields + patch.fields;
  }
}

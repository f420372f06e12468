/** Reply threads as a graph: what cascades, what is one thread, and how the comment caches walk it
    (packages/core/issues/mutations.ts). */
module CommentForest {
  import opened Options

  datatype TimelineEntry = TimelineEntry(
    isComment: bool,
    id: string,
    parentId: Option<string>,
    resolvedAt: Option<string>,
    resolvedByType: Option<string>,
    resolvedById: Option<string>,
    body: string)

  // ----- deleting a comment -----

  /** A set that takes every reply to one of its members. */
  ghost predicate TakesReplies(es: seq<TimelineEntry>, ids: set<string>) {
    forall e <- es :: Truthy(e.parentId) && e.parentId.value in ids ==> e.id in ids
  }

  function EntryIds(es: seq<TimelineEntry>): set<string> {
    if es == [] then {} else {es[0].id} + EntryIds(es[1..])
  }

  /** The comment and everything below it: the least set with the comment that takes replies. */
  ghost function Cascade(es: seq<TimelineEntry>, id: string): set<string> {
    set x | x in EntryIds(es) + {id} && forall ids: set<string> :: id in ids && TakesReplies(es, ids) ==> x in ids
  }

  lemma {:induction false} IdsContain(es: seq<TimelineEntry>, e: TimelineEntry)
    requires e in es
    ensures e.id in EntryIds(es)
  {
    if e != es[0] {
      IdsContain(es[1..], e);
    }
  }

  lemma CascadeIs(es: seq<TimelineEntry>, id: string, ids: set<string>)
    requires id in ids && ids <= EntryIds(es) + {id} && TakesReplies(es, ids)
    requires forall other: set<string> :: id in other && TakesReplies(es, other) ==> ids <= other
    ensures ids == Cascade(es, id)
  {
  }

  /** One pass of the fixpoint loop. */
  method CascadePass(es: seq<TimelineEntry>, toRemove: set<string>) returns (next: set<string>)
    ensures toRemove <= next && next <= toRemove + EntryIds(es)
    ensures next == toRemove ==> TakesReplies(es, toRemove)
    ensures forall ids: set<string> :: toRemove <= ids && TakesReplies(es, ids) ==> next <= ids
  {
    next := toRemove;
    var i := 0;
    while i < |es|
      invariant 0 <= i <= |es|
      invariant toRemove <= next && next <= toRemove + EntryIds(es)
      invariant next == toRemove ==>
                forall e <- es[..i] :: Truthy(e.parentId) && e.parentId.value in toRemove ==> e.id in toRemove
      invariant forall ids: set<string> :: toRemove <= ids && TakesReplies(es, ids) ==> next <= ids
    {
      var e := es[i];
      IdsContain(es, e);
      if Truthy(e.parentId) && e.parentId.value in next && e.id !in next {
        next := next + {e.id};
      }
      i := i + 1;
    }
  }

  /** Collect all descendants of the deleted comment, to a fixpoint. */
  method CascadeDelete(es: seq<TimelineEntry>, commentId: string) returns (toRemove: set<string>)
    ensures toRemove == Cascade(es, commentId)
  {
    toRemove := {commentId};
    var changed := true;
    while changed
      invariant commentId in toRemove && toRemove <= EntryIds(es) + {commentId}
      invariant !changed ==> TakesReplies(es, toRemove)
      invariant forall ids: set<string> :: commentId in ids && TakesReplies(es, ids) ==> toRemove <= ids
      decreases EntryIds(es) + {commentId} - toRemove, changed
    {
      var next := CascadePass(es, toRemove);
      changed := next != toRemove;
      toRemove := next;
    }
    CascadeIs(es, commentId, toRemove);
  }

  // ----- the thread of a comment -----

  /** Comment id to its raw parent id. */
  type Forest = map<string, Option<string>>

  /** The comments by id; a later entry with the same id wins. */
  function ForestOf(es: seq<TimelineEntry>): Forest {
    if es == [] then map[]
    else (if es[0].isComment then map[es[0].id := es[0].parentId] else map[]) + ForestOf(es[1..])
  }

  /** Fill the id map entry by entry. */
  method IndexComments(es: seq<TimelineEntry>) returns (byId: Forest)
    ensures byId == ForestOf(es)
  {
    byId := map[];
    var rest := es;
    while rest != []
      invariant byId + ForestOf(rest) == ForestOf(es)
      decreases |rest|
    {
      if rest[0].isComment {
        assert byId + ForestOf(rest) == byId[rest[0].id := rest[0].parentId] + ForestOf(rest[1..]);
        byId := byId[rest[0].id := rest[0].parentId];
      }
      rest := rest[1..];
    }
  }

  function Parent(g: Forest, c: string): Option<string> {
    if c in g && Truthy(g[c]) then g[c] else None
  }

  predicate IsReply(g: Forest, c: string) {
    Parent(g, c).Some? && Parent(g, c).value in g
  }

  ghost predicate ClosedDown(g: Forest, ids: set<string>) {
    forall c <- g :: Parent(g, c).Some? && Parent(g, c).value in ids ==> c in ids
  }

  ghost predicate ClosedUp(g: Forest, ids: set<string>) {
    forall c <- g :: c in ids && IsReply(g, c) ==> Parent(g, c).value in ids
  }

  ghost function Descendants(g: Forest, id: string): set<string> {
    set x | x in g.Keys + {id} && forall ids: set<string> :: id in ids && ClosedDown(g, ids) ==> x in ids
  }

  /** The connected component of a comment: the least set with it that follows replies both ways. */
  ghost function Thread(g: Forest, id: string): set<string> {
    set x | x in g.Keys + {id} &&
            forall ids: set<string> :: id in ids && ClosedDown(g, ids) && ClosedUp(g, ids) ==> x in ids
  }

  lemma DescendantsAreLeast(g: Forest, id: string)
    ensures id in Descendants(g, id) && ClosedDown(g, Descendants(g, id))
    ensures forall ids: set<string> :: id in ids && ClosedDown(g, ids) ==> Descendants(g, id) <= ids
  {
  }

  lemma ThreadIsLeast(g: Forest, id: string)
    ensures var t := Thread(g, id); id in t && ClosedDown(g, t) && ClosedUp(g, t)
    ensures forall ids: set<string> :: id in ids && ClosedDown(g, ids) && ClosedUp(g, ids) ==> Thread(g, id) <= ids
  {
  }

  /** A descendant's parent is a descendant too, except above the root. */
  lemma ParentsOfDescendants(g: Forest, root: string)
    ensures forall c <- Descendants(g, root) :: c != root ==> IsReplyTo(g, c, Descendants(g, root))
  {
    DescendantsAreLeast(g, root);
    var d := Descendants(g, root);
    var kept := set c | c in d && (c == root || IsReplyTo(g, c, d));
    assert ClosedDown(g, kept);
  }

  ghost predicate IsReplyTo(g: Forest, c: string, ids: set<string>) {
    Parent(g, c).Some? && Parent(g, c).value in ids
  }

  /** The climb ended at `root`: below it hangs everything that was passed, and if `root` still has
      a loaded parent it was passed before. */
  ghost predicate Climbed(g: Forest, start: string, root: string, passed: set<string>) {
    && passed <= g.Keys && start in passed + {root}
    && (forall ids: set<string> :: root in ids && ClosedDown(g, ids) ==> passed <= ids)
    && (forall ids: set<string> :: start in ids && ClosedUp(g, ids) ==> root in ids)
    && (forall c <- passed :: IsReply(g, c) && Parent(g, c).value in passed + {root})
  }

  /** From the end of the climb, going down again yields the whole thread. */
  lemma ThreadFromRoot(g: Forest, start: string, root: string, passed: set<string>)
    requires Climbed(g, start, root, passed)
    requires root in g || root == start
    requires !IsReply(g, root) || root in passed
    ensures Descendants(g, root) == Thread(g, start)
  {
    var d, t := Descendants(g, root), Thread(g, start);
    DescendantsAreLeast(g, root);
    ThreadIsLeast(g, start);
    ParentsOfDescendants(g, root);
    assert ClosedUp(g, d);
    assert start in d;
    assert t <= d;
    assert root in t;
  }

  /** Walk up to the thread root, guarded against cyclic parent chains. */
  method ClimbToRoot(g: Forest, commentId: string) returns (rootId: string, ghost passed: set<string>)
    ensures Climbed(g, commentId, rootId, passed)
    ensures rootId in g || rootId == commentId
    ensures !IsReply(g, rootId) || rootId in passed
  {
    rootId := commentId;
    var guard: set<string> := {};
    while IsReply(g, rootId) && rootId !in guard
      invariant Climbed(g, commentId, rootId, guard)
      invariant rootId in g || rootId == commentId
      decreases g.Keys - guard
    {
      guard := guard + {rootId};
      rootId := Parent(g, rootId).value;
    }
    passed := guard;
  }

  /** Comment ids by the parent they name. */
  function ChildrenByParent(g: Forest, parent: string): set<string> {
    set c | c in g && Parent(g, c) == Some(parent)
  }

  /** Expand down over the whole subtree with a stack. */
  method CollectDescendants(g: Forest, rootId: string) returns (ids: set<string>)
    ensures ids == Descendants(g, rootId)
  {
    ids := {rootId};
    var stack := [rootId];
    while stack != []
      invariant rootId in ids && ids <= g.Keys + {rootId}
      invariant forall x <- stack :: x in ids
      invariant forall c <- g :: Parent(g, c).Some? && Parent(g, c).value in ids ==>
                c in ids || Parent(g, c).value in stack
      invariant forall other: set<string> :: rootId in other && ClosedDown(g, other) ==> ids <= other
      decreases g.Keys + {rootId} - ids, |stack|
    {
      var id := stack[|stack| - 1];
      stack := stack[..|stack| - 1];
      var children := ChildrenByParent(g, id) - ids;
      ghost var before, rest := ids, stack;
      while children != {}
        invariant before <= ids && ids + children == before + (ChildrenByParent(g, id) - before)
        invariant forall x <- stack :: x in ids
        invariant forall x <- rest :: x in stack
        invariant forall x <- ids - before :: x in stack
        invariant ids == before ==> stack == rest
        decreases children
      {
        var child :| child in children;
        children := children - {child};
        ids := ids + {child};
        stack := stack + [child];
      }
    }
    DescendantsAreLeast(g, rootId);
  }

  /** Every comment id in the same thread: the thread root plus every descendant. */
  method CollectThreadCommentIds(es: seq<TimelineEntry>, commentId: string) returns (ids: set<string>)
    ensures ids == Thread(ForestOf(es), commentId)
  {
    var g := IndexComments(es);
    var rootId, passed := ClimbToRoot(g, commentId);
    ids := CollectDescendants(g, rootId);
    ThreadFromRoot(g, commentId, rootId, passed);
  }

  /** Two loaded comments of one thread have the same thread. */
  lemma SameThread(g: Forest, x: string, y: string)
    requires x in g && y in Thread(g, x)
    ensures Thread(g, y) == Thread(g, x)
  {
    ThreadIsLeast(g, x);
    ThreadIsLeast(g, y);
    var s, t := Thread(g, x), Thread(g, y);
    assert t <= s;
    assert x in t by {
      assert ClosedDown(g, s - t) && ClosedUp(g, s - t);
    }
  }
}

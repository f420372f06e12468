/** Resolving comments: at most one resolution per thread (useResolveComment in
    packages/core/issues/mutations.ts). */
module Resolution {
  import opened Options
  import opened CommentForest

  function ResolveEntry(e: TimelineEntry, commentId: string, resolved: bool, now: string,
                        threadIds: set<string>): TimelineEntry
  {
    if e.id == commentId then
      if resolved then e.(resolvedAt := Some(now))
      else e.(resolvedAt := None, resolvedByType := None, resolvedById := None)
    else if resolved && Truthy(e.resolvedAt) && e.id in threadIds then
      e.(resolvedAt := None, resolvedByType := None, resolvedById := None)
    else e
  }

  function ResolveEntries(es: seq<TimelineEntry>, commentId: string, resolved: bool, now: string,
                          threadIds: set<string>): seq<TimelineEntry>
  {
    if es == [] then []
    else [ResolveEntry(es[0], commentId, resolved, now, threadIds)]
         + ResolveEntries(es[1..], commentId, resolved, now, threadIds)
  }

  datatype Op = Op(commentId: string, resolved: bool, now: string)

  /** The timeline after one resolve or unresolve. */
  ghost function Apply(es: seq<TimelineEntry>, op: Op): seq<TimelineEntry> {
    ResolveEntries(es, op.commentId, op.resolved, op.now,
                   if op.resolved then Thread(ForestOf(es), op.commentId) else {})
  }

  method ResolveComment(es: seq<TimelineEntry>, op: Op) returns (next: seq<TimelineEntry>)
    ensures next == Apply(es, op)
  {
    var threadIds := {};
    if op.resolved {
      threadIds := CollectThreadCommentIds(es, op.commentId);
    }
    next := ResolveEntries(es, op.commentId, op.resolved, op.now, threadIds);
  }

  lemma {:induction false} ResolveKeepsShape(es: seq<TimelineEntry>, commentId: string, resolved: bool, now: string,
                                             threadIds: set<string>)
    ensures ForestOf(ResolveEntries(es, commentId, resolved, now, threadIds)) == ForestOf(es)
    ensures forall e <- es :: ResolveEntry(e, commentId, resolved, now, threadIds)
                              in ResolveEntries(es, commentId, resolved, now, threadIds)
  {
    if es != [] {
      ResolveKeepsShape(es[1..], commentId, resolved, now, threadIds);
      var rest := ResolveEntries(es[1..], commentId, resolved, now, threadIds);
      assert ResolveEntries(es, commentId, resolved, now, threadIds)[1..] == rest;
      forall e | e in es
        ensures ResolveEntry(e, commentId, resolved, now, threadIds)
                in ResolveEntries(es, commentId, resolved, now, threadIds)
      {
        if e != es[0] { assert e in es[1..]; }
      }
    }
  }

  lemma {:induction false} Origin(es: seq<TimelineEntry>, commentId: string, resolved: bool, now: string,
                                  threadIds: set<string>, e': TimelineEntry)
    returns (e: TimelineEntry)
    requires e' in ResolveEntries(es, commentId, resolved, now, threadIds)
    ensures e in es && e' == ResolveEntry(e, commentId, resolved, now, threadIds)
  {
    if e' == ResolveEntry(es[0], commentId, resolved, now, threadIds) {
      e := es[0];
    } else {
      assert e' in ResolveEntries(es[1..], commentId, resolved, now, threadIds);
      e := Origin(es[1..], commentId, resolved, now, threadIds, e');
    }
  }

  /** The entry without what resolving writes. */
  function Unmarked(e: TimelineEntry): TimelineEntry {
    e.(resolvedAt := None, resolvedByType := None, resolvedById := None)
  }

  /** Slot by slot: the comment takes the time and keeps the rest, an entry that loses its resolution loses who
      resolved it too, and nothing else changes. */
  lemma {:induction false} EntriesAfter(es: seq<TimelineEntry>, commentId: string, resolved: bool, now: string,
                                        threadIds: set<string>, k: nat)
    requires k < |es|
    ensures |ResolveEntries(es, commentId, resolved, now, threadIds)| == |es|
    ensures var was, e := es[k], ResolveEntries(es, commentId, resolved, now, threadIds)[k];
            if was.id == commentId then e == if resolved then was.(resolvedAt := Some(now)) else Unmarked(was)
            else e == was || (e == Unmarked(was) && resolved && was.id in threadIds && Truthy(was.resolvedAt))
  {
    if |es| > 1 {
      EntriesAfter(es[1..], commentId, resolved, now, threadIds, if k > 0 then k - 1 else 0);
    }
  }

  ghost predicate Resolved(e: TimelineEntry) {
    e.isComment && Truthy(e.resolvedAt)
  }

  /** No thread shows two resolutions. */
  ghost predicate AtMostOnePerThread(es: seq<TimelineEntry>) {
    forall e <- es, f <- es :: Resolved(e) && Resolved(f) && f.id in Thread(ForestOf(es), e.id) ==> e.id == f.id
  }

  /** Resolving an existing comment leaves exactly it resolved in its thread and touches no other thread. */
  lemma ResolveLeavesExactlyOne(es: seq<TimelineEntry>, op: Op)
    requires op.resolved && op.now != "" && op.commentId in ForestOf(es)
    ensures var next, thread := Apply(es, op), Thread(ForestOf(es), op.commentId);
            && (forall e <- next :: e.isComment && e.id in thread ==> (Resolved(e) <==> e.id == op.commentId))
            && (forall e <- next :: e.id !in thread ==> e in es)
            && (forall e <- es :: e.id !in thread ==> e in next)
  {
    var thread := Thread(ForestOf(es), op.commentId);
    ThreadIsLeast(ForestOf(es), op.commentId);
    forall e | e in Apply(es, op)
      ensures e.isComment && e.id in thread ==> (Resolved(e) <==> e.id == op.commentId)
      ensures e.id !in thread ==> e in es
    {
      var was := Origin(es, op.commentId, op.resolved, op.now, thread, e);
    }
    ResolveKeepsShape(es, op.commentId, op.resolved, op.now, thread);
    forall e | e in es && e.id !in thread ensures e in Apply(es, op) {
      assert ResolveEntry(e, op.commentId, op.resolved, op.now, thread) == e;
    }
  }

  lemma OpKeepsAtMostOne(es: seq<TimelineEntry>, op: Op)
    requires AtMostOnePerThread(es) && op.now != "" && op.commentId in ForestOf(es)
    ensures AtMostOnePerThread(Apply(es, op)) && ForestOf(Apply(es, op)) == ForestOf(es)
  {
    var g := ForestOf(es);
    var threadIds := if op.resolved then Thread(g, op.commentId) else {};
    ResolveKeepsShape(es, op.commentId, op.resolved, op.now, threadIds);
    var next := Apply(es, op);
    forall e, f | e in next && f in next && Resolved(e) && Resolved(f) && f.id in Thread(g, e.id)
      ensures e.id == f.id
    {
      PairStaysApart(es, op, threadIds, e, f);
    }
  }

  lemma PairStaysApart(es: seq<TimelineEntry>, op: Op, threadIds: set<string>, e': TimelineEntry, f': TimelineEntry)
    requires AtMostOnePerThread(es) && op.now != "" && op.commentId in ForestOf(es)
    requires threadIds == if op.resolved then Thread(ForestOf(es), op.commentId) else {}
    requires var next := ResolveEntries(es, op.commentId, op.resolved, op.now, threadIds); e' in next && f' in next
    requires Resolved(e') && Resolved(f') && f'.id in Thread(ForestOf(es), e'.id)
    ensures e'.id == f'.id
  {
    var e := Origin(es, op.commentId, op.resolved, op.now, threadIds, e');
    var f := Origin(es, op.commentId, op.resolved, op.now, threadIds, f');
    if op.resolved && (e.id == op.commentId || f.id == op.commentId) {
      ThreadMates(es, e, f);
      assert e.id in threadIds && f.id in threadIds;
    }
  }

  /** Two comments of one thread are in each other's thread. */
  lemma ThreadMates(es: seq<TimelineEntry>, e: TimelineEntry, f: TimelineEntry)
    requires e in es && f in es && e.isComment && f.isComment && f.id in Thread(ForestOf(es), e.id)
    ensures Thread(ForestOf(es), e.id) == Thread(ForestOf(es), f.id)
    ensures e.id in Thread(ForestOf(es), e.id)
  {
    CommentIsIndexed(es, e);
    SameThread(ForestOf(es), e.id, f.id);
    ThreadIsLeast(ForestOf(es), e.id);
  }

  lemma {:induction false} CommentIsIndexed(es: seq<TimelineEntry>, e: TimelineEntry)
    requires e in es && e.isComment
    ensures e.id in ForestOf(es)
  {
    if e != es[0] {
      CommentIsIndexed(es[1..], e);
    }
  }

  ghost function Run(es: seq<TimelineEntry>, ops: seq<Op>): seq<TimelineEntry>
    decreases |ops|
  {
    if ops == [] then es else Run(Apply(es, ops[0]), ops[1..])
  }

  /** Over every run of resolves and unresolves of existing comments no thread ever shows two
      resolutions. */
  lemma {:induction false} RunKeepsAtMostOne(es: seq<TimelineEntry>, ops: seq<Op>)
    requires AtMostOnePerThread(es)
    requires forall op <- ops :: op.now != "" && op.commentId in ForestOf(es)
    ensures AtMostOnePerThread(Run(es, ops)) && ForestOf(Run(es, ops)) == ForestOf(es)
    decreases |ops|
  {
    if ops != [] {
      OpKeepsAtMostOne(es, ops[0]);
      RunKeepsAtMostOne(Apply(es, ops[0]), ops[1..]);
    }
  }

  /** Unresolving changes only rows with that id. */
  lemma UnresolveIsLocal(es: seq<TimelineEntry>, op: Op, e: TimelineEntry)
    requires !op.resolved && e in Apply(es, op)
    ensures if e.id == op.commentId then e.resolvedAt.None? else e in es
  {
    var was := Origin(es, op.commentId, op.resolved, op.now, {}, e);
  }
}

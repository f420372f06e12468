/** The mobile timeline: every top-level entry with its whole reply bundle
    (apps/mobile/lib/timeline-thread.ts), and its agreement with the other two walks. */
module TimelineRows {
  import opened Options
  import opened Sequences
  import opened CommentForest

  datatype TimelineRow = TimelineRow(entry: TimelineEntry, replies: seq<TimelineEntry>)

  predicate UniqueIds(es: seq<TimelineEntry>) {
    es == [] || (es[0].id !in EntryIds(es[1..]) && UniqueIds(es[1..]))
  }

  function IdsOf(es: seq<TimelineEntry>): seq<string> {
    if es == [] then [] else [es[0].id] + IdsOf(es[1..])
  }

  /** A comment whose parent comment is loaded too. */
  predicate Bundled(g: Forest, e: TimelineEntry) {
    e.isComment && Truthy(e.parentId) && e.parentId.value in g
  }

  /** Activities, top-level comments, and orphan replies, in order. */
  function TopLevel(es: seq<TimelineEntry>, g: Forest): seq<TimelineEntry> {
    if es == [] then []
    else if Bundled(g, es[0]) then TopLevel(es[1..], g)
    else [es[0]] + TopLevel(es[1..], g)
  }

  /** The direct replies to one comment, in order. */
  function Kids(es: seq<TimelineEntry>, g: Forest, id: string): seq<TimelineEntry> {
    if es == [] then []
    else if Bundled(g, es[0]) && es[0].parentId == Some(id) then [es[0]] + Kids(es[1..], g, id)
    else Kids(es[1..], g, id)
  }

  lemma Regroup<T>(a: seq<T>, b: seq<T>, c: seq<T>)
    ensures (a + b) + c == a + (b + c)
  {
  }

  /** Both keep the order of the entries. */
  lemma {:induction false} TopLevelConcat(a: seq<TimelineEntry>, b: seq<TimelineEntry>, g: Forest)
    ensures TopLevel(a + b, g) == TopLevel(a, g) + TopLevel(b, g)
  {
    if a == [] {
      assert a + b == b;
    } else {
      assert (a + b)[1..] == a[1..] + b && (a + b)[0] == a[0];
      TopLevelConcat(a[1..], b, g);
      Regroup([a[0]], TopLevel(a[1..], g), TopLevel(b, g));
    }
  }

  lemma {:induction false} KidsConcat(a: seq<TimelineEntry>, b: seq<TimelineEntry>, g: Forest, id: string)
    ensures Kids(a + b, g, id) == Kids(a, g, id) + Kids(b, g, id)
  {
    if a == [] {
      assert a + b == b;
    } else {
      assert (a + b)[1..] == a[1..] + b && (a + b)[0] == a[0];
      KidsConcat(a[1..], b, g, id);
      Regroup([a[0]], Kids(a[1..], g, id), Kids(b, g, id));
    }
  }

  lemma TopLevelPlace(before: seq<TimelineEntry>, e: TimelineEntry, after: seq<TimelineEntry>, g: Forest)
    ensures TopLevel(before + [e] + after, g) ==
            TopLevel(before, g) + (if Bundled(g, e) then [] else [e]) + TopLevel(after, g)
  {
    TopLevelConcat(before + [e], after, g);
    TopLevelConcat(before, [e], g);
    assert [e][1..] == [];
  }

  lemma KidsPlace(before: seq<TimelineEntry>, e: TimelineEntry, after: seq<TimelineEntry>, g: Forest, id: string)
    ensures Kids(before + [e] + after, g, id) ==
            Kids(before, g, id) + (if Bundled(g, e) && e.parentId == Some(id) then [e] else []) + Kids(after, g, id)
  {
    KidsConcat(before + [e], after, g, id);
    KidsConcat(before, [e], g, id);
    assert [e][1..] == [];
  }

  /** An entry stands in the top level, or among the replies of its parent, where it stands in the timeline. */
  lemma EntryKeepsPlace(before: seq<TimelineEntry>, e: TimelineEntry, after: seq<TimelineEntry>, g: Forest, id: string)
    ensures var es, reply := before + [e] + after, e.isComment && Truthy(e.parentId) && e.parentId.value in g;
            && TopLevel(es, g) == TopLevel(before, g) + (if reply then [] else [e]) + TopLevel(after, g)
            && Kids(es, g, id) ==
               Kids(before, g, id) + (if reply && e.parentId.value == id then [e] else []) + Kids(after, g, id)
  {
    TopLevelPlace(before, e, after, g);
    KidsPlace(before, e, after, g, id);
  }

  function KidsOfAll(es: seq<TimelineEntry>, g: Forest, ids: seq<string>): seq<TimelineEntry> {
    if ids == [] then [] else Kids(es, g, ids[0]) + KidsOfAll(es, g, ids[1..])
  }

  /** The replies `depth` levels further down from `ids`, level by level. */
  function Levels(es: seq<TimelineEntry>, g: Forest, ids: seq<string>, depth: nat): seq<TimelineEntry>
    decreases depth
  {
    if depth == 0 then []
    else
      var kids := KidsOfAll(es, g, ids);
      kids + Levels(es, g, IdsOf(kids), depth - 1)
  }

  // ----- what the id map says about the entries -----

  ghost predicate Consistent(es: seq<TimelineEntry>, g: Forest) {
    forall e <- es :: e.isComment ==> e.id in g && g[e.id] == e.parentId
  }

  lemma {:induction false} ForestIsConsistent(es: seq<TimelineEntry>)
    requires UniqueIds(es)
    ensures Consistent(es, ForestOf(es)) && ForestOf(es).Keys <= EntryIds(es)
  {
    if es != [] {
      ForestIsConsistent(es[1..]);
      forall e | e in es && e.isComment ensures e.id in ForestOf(es) && ForestOf(es)[e.id] == e.parentId {
        if e != es[0] { assert e in es[1..]; }
      }
    }
  }

  lemma {:induction false} EntryOf(es: seq<TimelineEntry>, c: string) returns (e: TimelineEntry)
    requires c in ForestOf(es)
    ensures e in es && e.isComment && e.id == c
  {
    if c in ForestOf(es[1..]) {
      e := EntryOf(es[1..], c);
    } else {
      e := es[0];
    }
  }

  lemma {:induction false} IdsOfSet(es: seq<TimelineEntry>)
    ensures forall x :: x in IdsOf(es) <==> x in EntryIds(es)
    ensures UniqueIds(es) ==> Distinct(IdsOf(es))
  {
    if es != [] {
      IdsOfSet(es[1..]);
      assert IdsOf(es)[1..] == IdsOf(es[1..]);
    }
  }

  lemma {:induction false} ConcatIds(a: seq<TimelineEntry>, b: seq<TimelineEntry>)
    ensures EntryIds(a + b) == EntryIds(a) + EntryIds(b) && IdsOf(a + b) == IdsOf(a) + IdsOf(b)
    ensures UniqueIds(a) && UniqueIds(b) && EntryIds(a) !! EntryIds(b) ==> UniqueIds(a + b)
  {
    if a == [] {
      assert a + b == b;
    } else {
      assert (a + b)[1..] == a[1..] + b && (a + b)[0] == a[0];
      ConcatIds(a[1..], b);
    }
  }

  lemma {:induction false} KidsAre(es: seq<TimelineEntry>, g: Forest, id: string)
    requires UniqueIds(es) && Consistent(es, g)
    ensures var kids := Kids(es, g, id);
            && UniqueIds(kids) && EntryIds(kids) <= EntryIds(es)
            && (forall k <- kids :: k in es && k.isComment && Parent(g, k.id) == Some(id) && id in g)
            && (forall e <- es :: Bundled(g, e) && e.parentId == Some(id) ==> e in kids)
  {
    if es != [] {
      KidsAre(es[1..], g, id);
      var rest := Kids(es[1..], g, id);
      assert ([es[0]] + rest)[1..] == rest;
    }
  }

  /** The ids of the direct replies are exactly the comments naming the parent. */
  lemma KidIds(es: seq<TimelineEntry>, g: Forest, id: string)
    requires UniqueIds(es) && g == ForestOf(es) && Consistent(es, g)
    ensures forall c :: c in EntryIds(Kids(es, g, id)) <==> Parent(g, c) == Some(id) && id in g
  {
    KidsAre(es, g, id);
    forall c ensures c in EntryIds(Kids(es, g, id)) <==> Parent(g, c) == Some(id) && id in g {
      if c in EntryIds(Kids(es, g, id)) {
        var k := EntryWith(Kids(es, g, id), c);
      } else if Parent(g, c) == Some(id) && id in g {
        var e := EntryOf(es, c);
        IdsContain(Kids(es, g, id), e);
      }
    }
  }

  lemma {:induction false} EntryWith(es: seq<TimelineEntry>, c: string) returns (e: TimelineEntry)
    requires c in EntryIds(es)
    ensures e in es && e.id == c
  {
    if es[0].id == c {
      e := es[0];
    } else {
      e := EntryWith(es[1..], c);
    }
  }

  // ----- the breadth-first walk -----

  lemma {:induction false} KidsOfConcat(es: seq<TimelineEntry>, g: Forest, a: seq<string>, b: seq<string>)
    ensures KidsOfAll(es, g, a + b) == KidsOfAll(es, g, a) + KidsOfAll(es, g, b)
  {
    if a == [] {
      assert a + b == b;
    } else {
      assert (a + b)[1..] == a[1..] + b && (a + b)[0] == a[0];
      KidsOfConcat(es, g, a[1..], b);
    }
  }

  /** Where the walk stands: the queue is distinct, unprocessed, and together with the processed ids
      it is the root plus everything emitted, each once; nothing outside the tree was touched. */
  ghost predicate Walked(es: seq<TimelineEntry>, g: Forest, root: string, processed: set<string>, queue: seq<string>,
                         out: seq<TimelineEntry>)
  {
    && Distinct(queue) && UniqueIds(out) && root !in EntryIds(out)
    && (forall q <- queue :: q !in processed)
    && (forall x :: x in processed || x in queue <==> x in EntryIds(out) || x == root)
    && EntryIds(out) <= g.Keys
    && (forall e <- out :: e in es)
    && (forall c <- g :: IsReply(g, c) ==> (Parent(g, c).value in processed <==> c in EntryIds(out)))
    && (forall c <- EntryIds(out) :: IsReply(g, c))
    && (forall ids: set<string> :: root in ids && ClosedDown(g, ids) ==> EntryIds(out) <= ids)
  }

  lemma WalkStep(es: seq<TimelineEntry>, g: Forest, root: string, processed: set<string>, queue: seq<string>,
                 out: seq<TimelineEntry>)
    requires UniqueIds(es) && g == ForestOf(es) && !IsReply(g, root)
    requires Walked(es, g, root, processed, queue, out) && queue != []
    ensures var kids := Kids(es, g, queue[0]);
            Walked(es, g, root, processed + {queue[0]}, queue[1..] + IdsOf(kids), out + kids)
  {
    var pid, kids := queue[0], Kids(es, g, queue[0]);
    ForestIsConsistent(es);
    KidsAre(es, g, pid);
    KidIds(es, g, pid);
    IdsOfSet(kids);
    WalkEmits(g, root, processed, pid, EntryIds(out), EntryIds(kids));
    ConcatIds(out, kids);
    assert queue == [pid] + queue[1..];
    WalkQueue(g, root, processed, queue, EntryIds(out), IdsOf(kids), EntryIds(kids));
  }

  /** What a step emits: the replies to the id it takes, none of them emitted before. */
  lemma WalkEmits(g: Forest, root: string, processed: set<string>, pid: string, emitted: set<string>, kids: set<string>)
    requires !IsReply(g, root) && pid !in processed && (pid in emitted || pid == root)
    requires emitted <= g.Keys && root !in emitted
    requires forall c :: c in kids <==> Parent(g, c) == Some(pid) && pid in g
    requires forall c <- g :: IsReply(g, c) ==> (Parent(g, c).value in processed <==> c in emitted)
    requires forall c <- emitted :: IsReply(g, c)
    requires forall ids: set<string> :: root in ids && ClosedDown(g, ids) ==> emitted <= ids
    ensures root !in kids && emitted !! kids && emitted + kids <= g.Keys
    ensures forall c <- g :: IsReply(g, c) ==> (Parent(g, c).value in processed + {pid} <==> c in emitted + kids)
    ensures forall c <- emitted + kids :: IsReply(g, c)
    ensures forall ids: set<string> :: root in ids && ClosedDown(g, ids) ==> emitted + kids <= ids
  {
    forall ids: set<string> | root in ids && ClosedDown(g, ids) ensures emitted + kids <= ids {
      assert pid in ids;
    }
  }

  /** The bookkeeping half of a step, over ids only. */
  lemma WalkQueue(g: Forest, root: string, processed: set<string>, queue: seq<string>, emitted: set<string>,
                  kidSeq: seq<string>, kidSet: set<string>)
    requires Distinct(queue) && queue != [] && Distinct(kidSeq)
    requires forall q <- queue :: q !in processed
    requires forall x :: x in processed || x in queue <==> x in emitted || x == root
    requires forall x :: x in kidSeq <==> x in kidSet
    requires emitted !! kidSet && root !in kidSet
    ensures var queue' := queue[1..] + kidSeq;
            && Distinct(queue')
            && (forall q <- queue' :: q !in processed + {queue[0]})
            && (forall x :: x in processed + {queue[0]} || x in queue' <==> x in emitted + kidSet || x == root)
  {
    assert queue == [queue[0]] + queue[1..];
    assert forall q <- queue[1..] :: q in queue && q !in kidSeq;
    DistinctConcat(queue[1..], kidSeq);
  }

  /** Everything from the `depth`-th level on is empty. */
  ghost predicate LevelOrder(es: seq<TimelineEntry>, g: Forest, root: string, out: seq<TimelineEntry>, depth: nat) {
    forall m: nat :: m >= depth ==> Levels(es, g, [root], m) == out
  }

  lemma {:induction false} NoMoreLevels(es: seq<TimelineEntry>, g: Forest, ids: seq<string>, m: nat)
    requires KidsOfAll(es, g, ids) == []
    ensures Levels(es, g, ids, m) == []
    decreases m
  {
    if m > 0 {
      NoMoreLevels(es, g, [], m - 1);
    }
  }

  /** `k` levels are complete in `pre`; of the next frontier, `done` was expanded and `todo` waits. */
  ghost predicate AtLevel(es: seq<TimelineEntry>, g: Forest, root: string, k: nat, pre: seq<TimelineEntry>,
                          done: seq<string>, todo: seq<string>, queue: seq<string>, out: seq<TimelineEntry>)
  {
    && (forall m: nat :: Levels(es, g, [root], k + m) == pre + Levels(es, g, done + todo, m))
    && queue == todo + IdsOf(KidsOfAll(es, g, done))
    && out == pre + KidsOfAll(es, g, done)
  }

  /** The level is used up: start the next one. */
  lemma NextLevel(es: seq<TimelineEntry>, g: Forest, root: string, k: nat, pre: seq<TimelineEntry>, done: seq<string>,
                  queue: seq<string>, out: seq<TimelineEntry>)
    requires AtLevel(es, g, root, k, pre, done, [], queue, out)
    ensures AtLevel(es, g, root, k + 1, out, [], queue, queue, out)
  {
    var kids := KidsOfAll(es, g, done);
    assert done + [] == done && queue == IdsOf(kids) && [] + queue == queue;
    forall m: nat ensures Levels(es, g, [root], k + 1 + m) == out + Levels(es, g, [] + queue, m) {
      assert Levels(es, g, [root], k + (m + 1)) == pre + Levels(es, g, done + [], m + 1);
      assert Levels(es, g, done, m + 1) == kids + Levels(es, g, queue, m);
      Regroup(pre, kids, Levels(es, g, queue, m));
    }
    assert KidsOfAll(es, g, []) == [];
    assert queue + IdsOf([]) == queue && out + [] == out;
  }

  lemma ExpandOne(es: seq<TimelineEntry>, g: Forest, root: string, k: nat, pre: seq<TimelineEntry>,
                  done: seq<string>, todo: seq<string>, queue: seq<string>, out: seq<TimelineEntry>)
    requires AtLevel(es, g, root, k, pre, done, todo, queue, out) && todo != []
    ensures queue[0] == todo[0]
    ensures var kids := Kids(es, g, todo[0]);
            AtLevel(es, g, root, k, pre, done + [todo[0]], todo[1..], queue[1..] + IdsOf(kids), out + kids)
  {
    var kids := Kids(es, g, todo[0]);
    KidsOfConcat(es, g, done, [todo[0]]);
    assert KidsOfAll(es, g, [todo[0]]) == kids + KidsOfAll(es, g, []);
    assert KidsOfAll(es, g, done + [todo[0]]) == KidsOfAll(es, g, done) + kids;
    ConcatIds(KidsOfAll(es, g, done), kids);
    assert todo == [todo[0]] + todo[1..];
    Regroup(done, [todo[0]], todo[1..]);
    assert queue[1..] + IdsOf(kids) == todo[1..] + (IdsOf(KidsOfAll(es, g, done)) + IdsOf(kids));
    Regroup(pre, KidsOfAll(es, g, done), kids);
  }

  function Get(m: map<string, seq<TimelineEntry>>, p: string): seq<TimelineEntry> {
    if p in m then m[p] else []
  }

  /** The bundle of one top-level comment: its descendants, each once, level by level. */
  method CollectBundle(es: seq<TimelineEntry>, g: Forest, childrenByParent: map<string, seq<TimelineEntry>>,
                       parentId: string)
    returns (out: seq<TimelineEntry>, ghost depth: nat)
    requires UniqueIds(es) && g == ForestOf(es) && parentId in g && !IsReply(g, parentId)
    requires forall p :: Get(childrenByParent, p) == Kids(es, g, p)
    ensures UniqueIds(out) && parentId !in EntryIds(out) && forall e <- out :: e in es
    ensures EntryIds(out) + {parentId} == Descendants(g, parentId)
    ensures LevelOrder(es, g, parentId, out, depth)
  {
    out := [];
    var queue := [parentId];
    ghost var processed: set<string> := {};
    ghost var pre, done, todo := [], [], [parentId];
    depth := 0;
    assert AtLevel(es, g, parentId, depth, pre, done, todo, queue, out) by {
      assert done + todo == [parentId] && [parentId] + IdsOf(KidsOfAll(es, g, [])) == [parentId];
      forall m: nat ensures Levels(es, g, [parentId], 0 + m) == [] + Levels(es, g, [parentId], m) {
      }
    }
    ForestIsConsistent(es);
    while queue != []
      invariant Walked(es, g, parentId, processed, queue, out)
      invariant AtLevel(es, g, parentId, depth, pre, done, todo, queue, out)
      decreases g.Keys - processed
    {
      if todo == [] {
        NextLevel(es, g, parentId, depth, pre, done, queue, out);
        depth, pre, done, todo := depth + 1, out, [], queue;
      }
      ExpandOne(es, g, parentId, depth, pre, done, todo, queue, out);
      WalkStep(es, g, parentId, processed, queue, out);
      var pid := queue[0];
      var kids := Get(childrenByParent, pid);
      out := out + kids;
      queue := queue[1..] + IdsOf(kids);
      processed := processed + {pid};
      done, todo := done + [pid], todo[1..];
    }
    WalkDone(es, g, parentId, processed, out);
    LevelsDone(es, g, parentId, depth, pre, done, todo, out);
  }

  lemma WalkDone(es: seq<TimelineEntry>, g: Forest, root: string, processed: set<string>, out: seq<TimelineEntry>)
    requires Walked(es, g, root, processed, [], out) && root in g && !IsReply(g, root)
    ensures EntryIds(out) + {root} == Descendants(g, root)
  {
    DescendantsAreLeast(g, root);
    assert ClosedDown(g, EntryIds(out) + {root});
  }

  lemma LevelsDone(es: seq<TimelineEntry>, g: Forest, root: string, k: nat, pre: seq<TimelineEntry>,
                   done: seq<string>, todo: seq<string>, out: seq<TimelineEntry>)
    requires AtLevel(es, g, root, k, pre, done, todo, [], out)
    ensures LevelOrder(es, g, root, out, k)
  {
    assert todo == [] && done + todo == done;
    assert IdsOf(KidsOfAll(es, g, done)) == [];
    forall m: nat | m >= k ensures Levels(es, g, [root], m) == out {
      NoMoreLevels(es, g, done, m - k);
      assert Levels(es, g, [root], k + (m - k)) == pre + Levels(es, g, done + todo, m - k);
    }
  }

  // ----- the rows -----

  /** A comment row bundles its descendants, each once, level by level; an activity row nothing. */
  ghost predicate RowOk(es: seq<TimelineEntry>, g: Forest, row: TimelineRow) {
    if !row.entry.isComment then row.replies == []
    else
      && UniqueIds(row.replies) && row.entry.id !in EntryIds(row.replies) && (forall e <- row.replies :: e in es)
      && EntryIds(row.replies) + {row.entry.id} == Descendants(g, row.entry.id)
      && exists depth :: LevelOrder(es, g, row.entry.id, row.replies, depth)
  }

  ghost predicate RowsFor(es: seq<TimelineEntry>, g: Forest, tops: seq<TimelineEntry>, rows: seq<TimelineRow>) {
    if tops == [] then rows == []
    else rows != [] && rows[0].entry == tops[0] && RowOk(es, g, rows[0]) && RowsFor(es, g, tops[1..], rows[1..])
  }

  /** One pass over the entries: the top level, and the replies filed under their parents. */
  method Partition(es: seq<TimelineEntry>, g: Forest)
    returns (topLevel: seq<TimelineEntry>, childrenByParent: map<string, seq<TimelineEntry>>)
    ensures topLevel == TopLevel(es, g)
    ensures forall p :: Get(childrenByParent, p) == Kids(es, g, p)
  {
    topLevel, childrenByParent := [], map[];
    var rest := es;
    while rest != []
      invariant topLevel + TopLevel(rest, g) == TopLevel(es, g)
      invariant forall p :: Get(childrenByParent, p) + Kids(rest, g, p) == Kids(es, g, p)
      decreases |rest|
    {
      var e := rest[0];
      if Bundled(g, e) {
        var parent := e.parentId.value;
        var list := Get(childrenByParent, parent);
        forall p ensures Get(childrenByParent[parent := list + [e]], p) + Kids(rest[1..], g, p) == Kids(es, g, p) {
          assert Get(childrenByParent, p) + Kids(rest, g, p) == Kids(es, g, p);
          if p == parent { Regroup(list, [e], Kids(rest[1..], g, p)); }
        }
        childrenByParent := childrenByParent[parent := list + [e]];
      } else {
        Regroup(topLevel, [e], TopLevel(rest[1..], g));
        topLevel := topLevel + [e];
      }
      rest := rest[1..];
    }
  }

  lemma {:induction false} TopLevelIs(es: seq<TimelineEntry>, g: Forest)
    requires UniqueIds(es)
    ensures UniqueIds(TopLevel(es, g)) && EntryIds(TopLevel(es, g)) <= EntryIds(es)
    ensures forall e :: e in TopLevel(es, g) <==> e in es && !Bundled(g, e)
  {
    if es != [] {
      TopLevelIs(es[1..], g);
      var rest := TopLevel(es[1..], g);
      assert ([es[0]] + rest)[1..] == rest;
    }
  }

  lemma {:induction false} RowsAppend(es: seq<TimelineEntry>, g: Forest, tops: seq<TimelineEntry>,
                                      rows: seq<TimelineRow>, row: TimelineRow)
    requires RowsFor(es, g, tops, rows) && RowOk(es, g, row)
    ensures RowsFor(es, g, tops + [row.entry], rows + [row])
  {
    if tops == [] {
      assert tops + [row.entry] == [row.entry] && rows + [row] == [row];
    } else {
      RowsAppend(es, g, tops[1..], rows[1..], row);
      assert (tops + [row.entry])[1..] == tops[1..] + [row.entry] && (rows + [row])[1..] == rows[1..] + [row];
    }
  }

  method BuildRow(es: seq<TimelineEntry>, g: Forest, childrenByParent: map<string, seq<TimelineEntry>>,
                  entry: TimelineEntry)
    returns (row: TimelineRow)
    requires UniqueIds(es) && g == ForestOf(es) && entry in es && !Bundled(g, entry)
    requires forall p :: Get(childrenByParent, p) == Kids(es, g, p)
    ensures row.entry == entry && RowOk(es, g, row)
  {
    row := TimelineRow(entry, []);
    if entry.isComment {
      ForestIsConsistent(es);
      var replies, depth := CollectBundle(es, g, childrenByParent, entry.id);
      row := TimelineRow(entry, replies);
      assert LevelOrder(es, g, entry.id, replies, depth);
    }
  }

  method BuildTimelineRows(es: seq<TimelineEntry>) returns (rows: seq<TimelineRow>)
    requires UniqueIds(es)
    ensures RowsFor(es, ForestOf(es), TopLevel(es, ForestOf(es)), rows)
  {
    var g := IndexComments(es);
    var topLevel, childrenByParent := Partition(es, g);
    TopLevelIs(es, g);
    rows := [];
    var rest := topLevel;
    ghost var done: seq<TimelineEntry> := [];
    while rest != []
      invariant done + rest == topLevel
      invariant forall e <- rest :: e in es && !Bundled(g, e)
      invariant RowsFor(es, g, done, rows)
      decreases |rest|
    {
      var entry := rest[0];
      assert rest == [entry] + rest[1..];
      Regroup(done, [entry], rest[1..]);
      var row := BuildRow(es, g, childrenByParent, entry);
      RowsAppend(es, g, done, rows, row);
      rows := rows + [row];
      done := done + [entry];
      rest := rest[1..];
    }
    assert done == topLevel;
  }

  function Flatten(rows: seq<TimelineRow>): seq<TimelineEntry> {
    if rows == [] then [] else [rows[0].entry] + rows[0].replies + Flatten(rows[1..])
  }

  // ----- no entry twice, and no entry lost unless parents form a cycle -----

  ghost function TreeIds(g: Forest, e: TimelineEntry): set<string> {
    if e.isComment then Descendants(g, e.id) else {e.id}
  }

  ghost function AllTrees(g: Forest, tops: seq<TimelineEntry>): set<string> {
    if tops == [] then {} else TreeIds(g, tops[0]) + AllTrees(g, tops[1..])
  }

  /** The trees of two top-level comments share nothing. */
  lemma TreesDisjoint(g: Forest, r: string, q: string)
    requires r != q && !IsReply(g, r) && !IsReply(g, q) && r in g && q in g
    ensures Descendants(g, r) !! Descendants(g, q)
  {
    DescendantsAreLeast(g, r);
    DescendantsAreLeast(g, q);
    ParentsOfDescendants(g, r);
    ParentsOfDescendants(g, q);
    var left := Descendants(g, q) - Descendants(g, r);
    assert q !in Descendants(g, r);
    assert ClosedDown(g, left);
    assert Descendants(g, q) <= left;
  }

  ghost predicate Tops(es: seq<TimelineEntry>, g: Forest, tops: seq<TimelineEntry>) {
    UniqueIds(tops) && forall t <- tops :: t in es && !Bundled(g, t)
  }

  lemma ActivityIsNoComment(es: seq<TimelineEntry>, e: TimelineEntry)
    requires UniqueIds(es) && e in es && !e.isComment
    ensures e.id !in ForestOf(es)
  {
    if e.id in ForestOf(es) {
      var f := EntryOf(es, e.id);
      SameIdSameEntry(es, e, f);
    }
  }

  lemma {:induction false} SameIdSameEntry(es: seq<TimelineEntry>, e: TimelineEntry, f: TimelineEntry)
    requires UniqueIds(es) && e in es && f in es && e.id == f.id
    ensures e == f
  {
    if e in es[1..] && f in es[1..] {
      SameIdSameEntry(es[1..], e, f);
    } else if e in es[1..] {
      IdsContain(es[1..], e);
    } else if f in es[1..] {
      IdsContain(es[1..], f);
    }
  }

  lemma {:induction false} HeadTreeApart(es: seq<TimelineEntry>, g: Forest, head: TimelineEntry,
                                         tops: seq<TimelineEntry>)
    requires UniqueIds(es) && g == ForestOf(es) && Tops(es, g, tops)
    requires head in es && !Bundled(g, head) && head.id !in EntryIds(tops)
    ensures TreeIds(g, head) !! AllTrees(g, tops)
  {
    if tops != [] {
      HeadTreeApart(es, g, head, tops[1..]);
      ForestIsConsistent(es);
      if head.isComment && tops[0].isComment {
        TreesDisjoint(g, head.id, tops[0].id);
      } else {
        if !head.isComment { ActivityIsNoComment(es, head); }
        if !tops[0].isComment { ActivityIsNoComment(es, tops[0]); }
      }
    }
  }

  lemma RowIds(row: TimelineRow)
    ensures EntryIds([row.entry] + row.replies) == {row.entry.id} + EntryIds(row.replies)
    ensures UniqueIds(row.replies) && row.entry.id !in EntryIds(row.replies) ==> UniqueIds([row.entry] + row.replies)
  {
    assert [row.entry][1..] == [];
    ConcatIds([row.entry], row.replies);
  }

  lemma {:induction false} RowsCover(es: seq<TimelineEntry>, g: Forest, tops: seq<TimelineEntry>,
                                     rows: seq<TimelineRow>)
    requires UniqueIds(es) && g == ForestOf(es) && Tops(es, g, tops) && RowsFor(es, g, tops, rows)
    ensures UniqueIds(Flatten(rows)) && EntryIds(Flatten(rows)) == AllTrees(g, tops)
    ensures forall e <- Flatten(rows) :: e in es
  {
    if tops != [] {
      RowsCover(es, g, tops[1..], rows[1..]);
      HeadTreeApart(es, g, tops[0], tops[1..]);
      var row := rows[0];
      RowIds(row);
      ConcatIds([row.entry] + row.replies, Flatten(rows[1..]));
    }
  }

  /** A nonempty set of comments each of which replies to one of the set. */
  ghost predicate HasCycle(g: Forest) {
    exists ring: set<string> :: ring != {} && Ring(g, ring)
  }

  ghost predicate Ring(g: Forest, ring: set<string>) {
    forall c <- ring :: IsReply(g, c) && Parent(g, c).value in ring
  }

  lemma {:induction false} TreeAmong(g: Forest, tops: seq<TimelineEntry>, t: TimelineEntry)
    requires t in tops
    ensures TreeIds(g, t) <= AllTrees(g, tops)
  {
    if t != tops[0] {
      TreeAmong(g, tops[1..], t);
    }
  }

  lemma {:induction false} AmongTrees(g: Forest, tops: seq<TimelineEntry>, x: string) returns (t: TimelineEntry)
    requires x in AllTrees(g, tops)
    ensures t in tops && x in TreeIds(g, t)
  {
    if x in TreeIds(g, tops[0]) {
      t := tops[0];
    } else {
      t := AmongTrees(g, tops[1..], x);
    }
  }

  lemma RingIsLost(es: seq<TimelineEntry>, g: Forest, ring: set<string>)
    requires UniqueIds(es) && g == ForestOf(es) && Ring(g, ring)
    ensures ring !! AllTrees(g, TopLevel(es, g))
  {
    TopLevelIs(es, g);
    ForestIsConsistent(es);
    forall x | x in ring ensures x !in AllTrees(g, TopLevel(es, g)) {
      if x in AllTrees(g, TopLevel(es, g)) {
        var t := AmongTrees(g, TopLevel(es, g), x);
        if t.isComment {
          DescendantsAreLeast(g, t.id);
          assert ClosedDown(g, g.Keys - ring);
        } else {
          ActivityIsNoComment(es, t);
        }
      }
    }
  }

  /** What no tree reaches is a ring. */
  lemma LostIsRing(es: seq<TimelineEntry>, g: Forest)
    requires UniqueIds(es) && g == ForestOf(es)
    ensures Ring(g, EntryIds(es) - AllTrees(g, TopLevel(es, g)))
  {
    var tops := TopLevel(es, g);
    var lost := EntryIds(es) - AllTrees(g, tops);
    TopLevelIs(es, g);
    ForestIsConsistent(es);
    forall c | c in lost ensures IsReply(g, c) && Parent(g, c).value in lost {
      var e := EntryWith(es, c);
      if e in tops {
        TreeAmong(g, tops, e);
        DescendantsAreLeast(g, c);
      }
      var p := Parent(g, c).value;
      if p in AllTrees(g, tops) {
        var t := AmongTrees(g, tops, p);
        TreeAmong(g, tops, t);
        if t.isComment {
          DescendantsAreLeast(g, t.id);
        } else {
          ActivityIsNoComment(es, t);
        }
      }
    }
  }

  lemma {:induction false} CountsAre(es: seq<TimelineEntry>, e: TimelineEntry)
    requires UniqueIds(es)
    ensures multiset(es)[e] == if e in es then 1 else 0
  {
    if es != [] {
      assert es == [es[0]] + es[1..];
      CountsAre(es[1..], e);
      if es[0] in es[1..] { IdsContain(es[1..], es[0]); }
    }
  }

  lemma SameIdsSameEntries(a: seq<TimelineEntry>, b: seq<TimelineEntry>)
    requires UniqueIds(a) && UniqueIds(b) && (forall e <- a :: e in b)
    ensures multiset(a) == multiset(b) <==> EntryIds(a) == EntryIds(b)
  {
    if EntryIds(a) == EntryIds(b) {
      forall e ensures multiset(a)[e] == multiset(b)[e] {
        CountsAre(a, e);
        CountsAre(b, e);
        if e in b {
          IdsContain(b, e);
          var f := EntryWith(a, e.id);
          SameIdSameEntry(b, e, f);
        }
      }
    } else if multiset(a) == multiset(b) {
      forall x ensures x in EntryIds(a) <==> x in EntryIds(b) {
        if x in EntryIds(a) {
          var e := EntryWith(a, x);
          IdsContain(b, e);
        }
        if x in EntryIds(b) {
          var e := EntryWith(b, x);
          assert e in multiset(b) && e in multiset(a);
          IdsContain(a, e);
        }
      }
    }
  }

  lemma WholeIffCovered(flat: seq<TimelineEntry>, es: seq<TimelineEntry>)
    requires UniqueIds(es) && UniqueIds(flat) && forall e <- flat :: e in es
    ensures multiset(flat) == multiset(es) <==> EntryIds(es) <= EntryIds(flat)
  {
    SameIdsSameEntries(flat, es);
    FlatIdsWithin(es, flat);
  }

  /** The rows never show an entry twice, and together they are the whole input, each entry once,
      exactly when no comments reply to each other in a ring; orphan replies are never lost. */
  lemma RowsArePermutationIffAcyclic(es: seq<TimelineEntry>, rows: seq<TimelineRow>)
    requires UniqueIds(es) && RowsFor(es, ForestOf(es), TopLevel(es, ForestOf(es)), rows)
    ensures UniqueIds(Flatten(rows)) && forall e <- Flatten(rows) :: e in es
    ensures multiset(Flatten(rows)) == multiset(es) <==> !HasCycle(ForestOf(es))
  {
    var g := ForestOf(es);
    var tops := TopLevel(es, g);
    TopLevelIs(es, g);
    RowsCover(es, g, tops, rows);
    WholeIffCovered(Flatten(rows), es);
    LostIffCycle(es, g, tops);
  }

  lemma LostIffCycle(es: seq<TimelineEntry>, g: Forest, tops: seq<TimelineEntry>)
    requires UniqueIds(es) && g == ForestOf(es) && tops == TopLevel(es, g)
    ensures EntryIds(es) <= AllTrees(g, tops) <==> !HasCycle(g)
  {
    LostIsRing(es, g);
    if EntryIds(es) - AllTrees(g, tops) != {} {
      assert HasCycle(g);
    }
    if HasCycle(g) {
      var ring: set<string> :| ring != {} && Ring(g, ring);
      RingIsLost(es, g, ring);
      ForestIsConsistent(es);
      var c :| c in ring;
      assert c in EntryIds(es) && c !in AllTrees(g, tops);
    }
  }

  /** Two comments that reply to each other are shown in no row. */
  lemma RingIsNotShown(a: TimelineEntry, b: TimelineEntry)
    requires a.isComment && b.isComment && a.id != b.id && Truthy(a.parentId) && Truthy(b.parentId)
    requires a.parentId == Some(b.id) && b.parentId == Some(a.id)
    ensures UniqueIds([a, b]) && HasCycle(ForestOf([a, b]))
    ensures forall rows :: RowsFor([a, b], ForestOf([a, b]), TopLevel([a, b], ForestOf([a, b])), rows) ==> rows == []
  {
    var es := [a, b];
    var g := ForestOf(es);
    assert es[1..] == [b] && es[1..][1..] == [];
    assert EntryIds(es[1..]) == {b.id} + EntryIds([]);
    assert UniqueIds(es[1..]);
    ForestIsConsistent(es);
    assert a in es && b in es;
    assert Ring(g, {a.id, b.id});
    assert Bundled(g, a) && Bundled(g, b);
    assert TopLevel(es[1..][1..], g) == [];
    assert TopLevel(es[1..], g) == [];
    assert TopLevel(es, g) == [];
  }

  lemma {:induction false} FlatIdsWithin(es: seq<TimelineEntry>, flat: seq<TimelineEntry>)
    requires forall e <- flat :: e in es
    ensures EntryIds(flat) <= EntryIds(es)
  {
    if flat != [] {
      IdsContain(es, flat[0]);
      FlatIdsWithin(es, flat[1..]);
    }
  }

  // ----- the three walks -----

  /** A top-level comment's thread is what hangs below it. */
  lemma TopLevelThread(g: Forest, r: string)
    requires r in g && !IsReply(g, r)
    ensures Thread(g, r) == Descendants(g, r)
  {
    ThreadFromRoot(g, r, r, {});
  }

  /** Deleting, resolving and showing a thread agree on its members exactly when no activity names a member
      of it as parent; in particular always when only comments name a parent. */
  lemma ThreeWalksAgreeIff(es: seq<TimelineEntry>, row: TimelineRow)
    requires UniqueIds(es) && row.entry in es && row.entry.isComment && !Bundled(ForestOf(es), row.entry)
    requires RowOk(es, ForestOf(es), row)
    ensures var g, r := ForestOf(es), row.entry.id;
            && Thread(g, r) == EntryIds(row.replies) + {r}
            && (Cascade(es, r) == Thread(g, r) <==>
                forall e <- es :: !e.isComment && Truthy(e.parentId) ==>
                  e.parentId.value !in EntryIds(row.replies) + {r})
  {
    var g, r := ForestOf(es), row.entry.id;
    ForestIsConsistent(es);
    TopLevelThread(g, r);
    DescendantsAreLeast(g, r);
    var tree, cascade := Descendants(g, r), Cascade(es, r);
    CascadeClosed(es, g, r);
    assert tree <= cascade;
    if forall e <- es :: !e.isComment && Truthy(e.parentId) ==> e.parentId.value !in tree {
      assert TakesReplies(es, tree);
      assert cascade <= tree;
    } else {
      var e :| e in es && !e.isComment && Truthy(e.parentId) && e.parentId.value in tree;
      ActivityIsNoComment(es, e);
      assert TakesReplies(es, cascade);
    }
  }

  /** An activity below a comment is deleted with it and is not in its thread. */
  lemma ActivityIsDeletedOnly(r: TimelineEntry, a: TimelineEntry)
    requires r.isComment && !a.isComment && a.id != r.id && Truthy(a.parentId) && a.parentId == Some(r.id)
    ensures UniqueIds([r, a]) && a.id in Cascade([r, a], r.id) && a.id !in Thread(ForestOf([r, a]), r.id)
  {
    var es := [r, a];
    assert es[1..] == [a] && es[1..][1..] == [];
    assert EntryIds(es[1..]) == {a.id} + EntryIds([]);
    assert UniqueIds(es[1..]);
    var g := ForestOf(es);
    assert r in es && a in es;
    ForestIsConsistent(es);
    CascadeClosed(es, g, r.id);
    ActivityIsNoComment(es, a);
    ThreadIsLeast(g, r.id);
  }

  lemma CascadeClosed(es: seq<TimelineEntry>, g: Forest, r: string)
    requires UniqueIds(es) && g == ForestOf(es)
    ensures r in Cascade(es, r) && TakesReplies(es, Cascade(es, r)) && ClosedDown(g, Cascade(es, r))
    ensures forall ids: set<string> :: r in ids && TakesReplies(es, ids) ==> Cascade(es, r) <= ids
  {
    ForestIsConsistent(es);
    forall e | e in es && Truthy(e.parentId) && e.parentId.value in Cascade(es, r) ensures e.id in Cascade(es, r) {
      IdsContain(es, e);
    }
    forall c | c in g && Parent(g, c).Some? && Parent(g, c).value in Cascade(es, r) ensures c in Cascade(es, r) {
      var e := EntryOf(es, c);
    }
  }
}

/** The inbox shows one row per issue (packages/core/inbox/queries.ts), and archiving removes exactly
    one of them (packages/core/inbox/mutations.ts). */
module Inbox {
  import opened Options
  import opened InboxTypes
  import opened Sequences

  /** `item.issue_id ?? item.id` */
  function Key(i: InboxItem): string {
    if i.issueId.Some? then i.issueId.value else i.id
  }

  /** `item.details?.comment_id` */
  function CommentId(i: InboxItem): Option<string> {
    if i.details.Some? && "comment_id" in i.details.value then Some(i.details.value["comment_id"]) else None
  }

  function Active(items: seq<InboxItem>): seq<InboxItem> {
    if items == [] then [] else if items[0].archived then Active(items[1..]) else [items[0]] + Active(items[1..])
  }

  function Group(items: seq<InboxItem>, key: string): seq<InboxItem> {
    if items == [] then []
    else if Key(items[0]) == key then [items[0]] + Group(items[1..], key)
    else Group(items[1..], key)
  }

  /** A stable sort, newest first. */
  function Sort(items: seq<InboxItem>): seq<InboxItem> {
    if items == [] then [] else Insert(items[0], Sort(items[1..]))
  }

  function Insert(i: InboxItem, sorted: seq<InboxItem>): seq<InboxItem> {
    if sorted == [] || i.createdAt >= sorted[0].createdAt then [i] + sorted else [sorted[0]] + Insert(i, sorted[1..])
  }

  /** The first truthy comment anchor of a group. */
  function FirstAnchor(items: seq<InboxItem>): Option<string> {
    if items == [] then None else if Truthy(CommentId(items[0])) then CommentId(items[0]) else FirstAnchor(items[1..])
  }

  /** The keys in order of first appearance, without the ones already seen. */
  function NewKeys(seen: set<string>, items: seq<InboxItem>): seq<string>
    decreases |items|
  {
    if items == [] then []
    else if Key(items[0]) in seen then NewKeys(seen, items[1..])
    else [Key(items[0])] + NewKeys(seen + {Key(items[0])}, items[1..])
  }

  /** The row that stands for a group: its newest item, with the newest anchor of the group when its
      own is missing. */
  function Row(group: seq<InboxItem>): InboxItem
    requires group != []
  {
    var sorted := Sort(group);
    SortLength(group);
    var newest := sorted[0];
    var anchor := OrElse(CommentId(newest), FirstAnchor(sorted));
    if Truthy(anchor) && CommentId(newest) != anchor then
      var details := if newest.details.Some? then newest.details.value else map[];
      newest.(details := Some(details["comment_id" := anchor.value]))
    else newest
  }

  lemma {:induction false} SortLength(items: seq<InboxItem>)
    ensures |Sort(items)| == |items|
  {
    if items != [] {
      SortLength(items[1..]);
      InsertLength(items[0], Sort(items[1..]));
    }
  }

  lemma {:induction false} InsertLength(i: InboxItem, sorted: seq<InboxItem>)
    ensures |Insert(i, sorted)| == |sorted| + 1
  {
    if sorted != [] {
      InsertLength(i, sorted[1..]);
    }
  }

  function Rows(keys: seq<string>, items: seq<InboxItem>): seq<InboxItem> {
    if keys == [] then []
    else GroupRow(Group(items, keys[0])) + Rows(keys[1..], items)
  }

  function GroupRow(group: seq<InboxItem>): seq<InboxItem> {
    if group == [] then [] else [Row(group)]
  }

  function Deduplicated(items: seq<InboxItem>): seq<InboxItem> {
    var active := Active(items);
    Sort(Rows(NewKeys({}, active), active))
  }

  function Filed(groups: map<string, seq<InboxItem>>, key: string): seq<InboxItem> {
    if key in groups then groups[key] else []
  }

  /** File the active items under their keys, in order of first appearance. */
  method GroupByKey(active: seq<InboxItem>) returns (keys: seq<string>, groups: map<string, seq<InboxItem>>)
    ensures keys == NewKeys({}, active)
    ensures forall k :: Filed(groups, k) == Group(active, k)
  {
    keys, groups := [], map[];
    assert groups.Keys == {};
    var rest := active;
    while rest != []
      invariant keys + NewKeys(groups.Keys, rest) == NewKeys({}, active)
      invariant forall k :: Filed(groups, k) + Group(rest, k) == Group(active, k)
      decreases |rest|
    {
      FileStep(active, groups, rest);
      NewKeyStep(keys, groups.Keys, rest);
      var item := rest[0];
      var key := Key(item);
      if key !in groups {
        keys := keys + [key];
      }
      groups := File(groups, item);
      rest := rest[1..];
    }
  }

  function File(groups: map<string, seq<InboxItem>>, item: InboxItem): (r: map<string, seq<InboxItem>>)
    ensures r.Keys == groups.Keys + {Key(item)}
  {
    groups[Key(item) := Filed(groups, Key(item)) + [item]]
  }

  lemma FileStep(active: seq<InboxItem>, groups: map<string, seq<InboxItem>>, rest: seq<InboxItem>)
    requires rest != [] && forall k :: Filed(groups, k) + Group(rest, k) == Group(active, k)
    ensures forall k :: Filed(File(groups, rest[0]), k) + Group(rest[1..], k) == Group(active, k)
  {
    forall k ensures Filed(File(groups, rest[0]), k) + Group(rest[1..], k) == Group(active, k) {
      assert Filed(groups, k) + Group(rest, k) == Group(active, k);
      var filed, later := Filed(groups, k), Group(rest[1..], k);
      assert filed + ([rest[0]] + later) == (filed + [rest[0]]) + later;
    }
  }

  lemma NewKeyStep(keys: seq<string>, seen: set<string>, rest: seq<InboxItem>)
    requires rest != []
    ensures var key := Key(rest[0]);
            keys + NewKeys(seen, rest) ==
            (if key in seen then keys else keys + [key]) + NewKeys(seen + {key}, rest[1..])
  {
    var key := Key(rest[0]);
    if key in seen {
      assert seen + {key} == seen;
    } else {
      var later := NewKeys(seen + {key}, rest[1..]);
      assert keys + ([key] + later) == (keys + [key]) + later;
    }
  }

  method DeduplicateInboxItems(items: seq<InboxItem>) returns (merged: seq<InboxItem>)
    ensures merged == Deduplicated(items)
  {
    var active := Active(items);
    var keys, groups := GroupByKey(active);
    merged := [];
    var rest := keys;
    while rest != []
      invariant merged + Rows(rest, active) == Rows(keys, active)
      decreases |rest|
    {
      var row := GroupRow(Filed(groups, rest[0]));
      assert merged + (row + Rows(rest[1..], active)) == (merged + row) + Rows(rest[1..], active);
      merged := merged + row;
      rest := rest[1..];
    }
    assert merged == Rows(keys, active);
    merged := Sort(merged);
  }

  // ----- what a row is -----

  ghost predicate NewestFirst(items: seq<InboxItem>) {
    |items| >= 2 ==> items[0].createdAt >= items[1].createdAt && NewestFirst(items[1..])
  }

  lemma {:induction false} SortKeeps(items: seq<InboxItem>)
    ensures NewestFirst(Sort(items)) && multiset(Sort(items)) == multiset(items)
  {
    if items != [] {
      SortKeeps(items[1..]);
      InsertKeeps(items[0], Sort(items[1..]));
      assert items == [items[0]] + items[1..];
    }
  }

  lemma {:induction false} InsertKeeps(i: InboxItem, sorted: seq<InboxItem>)
    requires NewestFirst(sorted)
    ensures var r := Insert(i, sorted);
            && NewestFirst(r) && multiset(r) == multiset(sorted) + multiset{i}
            && r != [] && (r[0] == i || (sorted != [] && r[0] == sorted[0]))
  {
    if sorted == [] || i.createdAt >= sorted[0].createdAt {
      assert ([i] + sorted)[1..] == sorted;
    } else {
      InsertKeeps(i, sorted[1..]);
      var rest := Insert(i, sorted[1..]);
      assert ([sorted[0]] + rest)[1..] == rest && sorted == [sorted[0]] + sorted[1..];
    }
  }

  lemma SortHolds(items: seq<InboxItem>)
    ensures forall i :: i in Sort(items) <==> i in items
  {
    SortKeeps(items);
    assert forall i :: i in Sort(items) <==> i in multiset(Sort(items));
  }

  lemma {:induction false} HeadIsNewest(sorted: seq<InboxItem>)
    requires NewestFirst(sorted) && sorted != []
    ensures forall i <- sorted :: i.createdAt <= sorted[0].createdAt
  {
    assert sorted == [sorted[0]] + sorted[1..];
    if |sorted| >= 2 {
      HeadIsNewest(sorted[1..]);
    }
  }

  lemma {:induction false} FirstAnchorIsNewest(sorted: seq<InboxItem>)
    requires NewestFirst(sorted)
    ensures var a := FirstAnchor(sorted);
            if a.None? then forall i <- sorted :: !Truthy(CommentId(i))
            else Truthy(a) &&
                 exists i <- sorted ::
                   CommentId(i) == a && forall j <- sorted :: Truthy(CommentId(j)) ==> j.createdAt <= i.createdAt
  {
    if sorted != [] {
      assert sorted == [sorted[0]] + sorted[1..];
      FirstAnchorIsNewest(sorted[1..]);
      if Truthy(CommentId(sorted[0])) {
        HeadIsNewest(sorted);
      }
    }
  }

  /** `newest` is newest in the group and `row` is that item; only a missing comment anchor is filled
      in, with the newest one the group has. */
  ghost predicate StandsFor(row: InboxItem, group: seq<InboxItem>, newest: InboxItem) {
    && newest in group && (forall i <- group :: i.createdAt <= newest.createdAt)
    && row == newest.(details := row.details)
    && if CommentId(newest).Some? || (forall i <- group :: !Truthy(CommentId(i))) then row == newest
       else
         && (exists i <- group :: Truthy(CommentId(i)) && CommentId(row) == CommentId(i)
                                  && forall j <- group :: Truthy(CommentId(j)) ==> j.createdAt <= i.createdAt)
         && OtherDetails(row) == OtherDetails(newest)
  }

  ghost predicate Represents(row: InboxItem, group: seq<InboxItem>) {
    exists newest :: StandsFor(row, group, newest)
  }

  function OtherDetails(i: InboxItem): map<string, string> {
    if i.details.Some? then i.details.value - {"comment_id"} else map[]
  }

  lemma RowStandsFor(group: seq<InboxItem>) returns (newest: InboxItem)
    requires group != []
    ensures StandsFor(Row(group), group, newest)
  {
    SortLength(group);
    SortKeeps(group);
    SortHolds(group);
    newest := Sort(group)[0];
    HeadIsNewest(Sort(group));
    FirstAnchorIsNewest(Sort(group));
    RowShape(group);
    assert newest in Sort(group);
    assert forall i <- group :: i in Sort(group);
  }

  lemma RowShape(group: seq<InboxItem>)
    requires group != [] && |Sort(group)| > 0
    ensures var newest, anchor, row := Sort(group)[0], FirstAnchor(Sort(group)), Row(group);
            && row == newest.(details := row.details)
            && (CommentId(newest).Some? || !Truthy(anchor) ==> row == newest)
            && (CommentId(newest).None? && Truthy(anchor) ==> CommentId(row) == anchor)
            && OtherDetails(row) == OtherDetails(newest)
  {
    var newest, anchor := Sort(group)[0], FirstAnchor(Sort(group));
    if Truthy(anchor) {
      var base := if newest.details.Some? then newest.details.value else map[];
      assert base["comment_id" := anchor.value] - {"comment_id"} == base - {"comment_id"};
    }
  }

  // ----- one row per key -----

  function Keys(items: seq<InboxItem>): seq<string> {
    if items == [] then [] else [Key(items[0])] + Keys(items[1..])
  }

  predicate KeysDistinct(items: seq<InboxItem>) {
    items == [] || (Key(items[0]) !in Keys(items[1..]) && KeysDistinct(items[1..]))
  }

  lemma {:induction false} GroupIs(items: seq<InboxItem>, key: string)
    ensures forall i :: i in Group(items, key) <==> i in items && Key(i) == key
  {
    if items != [] {
      GroupIs(items[1..], key);
      assert items == [items[0]] + items[1..];
    }
  }

  lemma {:induction false} NewKeysAre(seen: set<string>, items: seq<InboxItem>)
    ensures forall k :: k in NewKeys(seen, items) <==> k !in seen && k in Keys(items)
    ensures Distinct(NewKeys(seen, items))
    decreases |items|
  {
    if items != [] {
      NewKeysAre(seen, items[1..]);
      NewKeysAre(seen + {Key(items[0])}, items[1..]);
      var rest := NewKeys(seen + {Key(items[0])}, items[1..]);
      assert ([Key(items[0])] + rest)[1..] == rest;
      assert Keys(items) == [Key(items[0])] + Keys(items[1..]);
    }
  }

  lemma {:induction false} KeyOf(items: seq<InboxItem>, i: InboxItem)
    requires i in items
    ensures Key(i) in Keys(items)
  {
    if i != items[0] {
      KeyOf(items[1..], i);
    }
  }

  lemma {:induction false} ItemWith(items: seq<InboxItem>, key: string) returns (i: InboxItem)
    requires key in Keys(items)
    ensures i in items && Key(i) == key
  {
    if Key(items[0]) == key {
      i := items[0];
    } else {
      i := ItemWith(items[1..], key);
    }
  }

  lemma RowKey(items: seq<InboxItem>, key: string)
    requires key in Keys(items)
    ensures Group(items, key) != [] && Key(Row(Group(items, key))) == key
  {
    var i := ItemWith(items, key);
    GroupIs(items, key);
    assert i in Group(items, key);
    var newest := RowStandsFor(Group(items, key));
  }

  /** The rows have exactly the given keys, in that order, each the row of its group. */
  lemma {:induction false} RowsAre(keys: seq<string>, items: seq<InboxItem>)
    requires Distinct(keys) && forall k <- keys :: k in Keys(items)
    ensures var rows := Rows(keys, items);
            && Keys(rows) == keys && KeysDistinct(rows)
            && forall r <- rows :: Group(items, Key(r)) != [] && r == Row(Group(items, Key(r)))
  {
    if keys != [] {
      RowsAre(keys[1..], items);
      RowKey(items, keys[0]);
      var rest := Rows(keys[1..], items);
      assert ([Row(Group(items, keys[0]))] + rest)[1..] == rest;
    }
  }

  lemma {:induction false} InsertKeys(i: InboxItem, sorted: seq<InboxItem>)
    requires KeysDistinct(sorted) && Key(i) !in Keys(sorted)
    ensures KeysDistinct(Insert(i, sorted))
    ensures forall k :: k in Keys(Insert(i, sorted)) <==> k == Key(i) || k in Keys(sorted)
  {
    if sorted == [] || i.createdAt >= sorted[0].createdAt {
      assert ([i] + sorted)[1..] == sorted;
    } else {
      InsertKeys(i, sorted[1..]);
      var rest := Insert(i, sorted[1..]);
      assert ([sorted[0]] + rest)[1..] == rest;
      assert Keys(sorted) == [Key(sorted[0])] + Keys(sorted[1..]);
    }
  }

  lemma {:induction false} SortKeys(items: seq<InboxItem>)
    requires KeysDistinct(items)
    ensures KeysDistinct(Sort(items)) && forall k :: k in Keys(Sort(items)) <==> k in Keys(items)
  {
    if items != [] {
      SortKeys(items[1..]);
      InsertKeys(items[0], Sort(items[1..]));
      assert Keys(items) == [Key(items[0])] + Keys(items[1..]);
    }
  }

  lemma {:induction false} ActiveIs(items: seq<InboxItem>)
    ensures forall i :: i in Active(items) <==> i in items && !i.archived
  {
    if items != [] {
      ActiveIs(items[1..]);
      assert items == [items[0]] + items[1..];
    }
  }

  /** Exactly one row per key that has an active item, newest first, each the newest of its group
      with the group's newest anchor when its own is missing. */
  lemma OneRowPerKey(items: seq<InboxItem>)
    ensures var rows, active := Deduplicated(items), Active(items);
            && KeysDistinct(rows) && NewestFirst(rows)
            && (forall k :: k in Keys(rows) <==> exists i :: i in items && !i.archived && Key(i) == k)
            && (forall r <- rows :: !r.archived && Represents(r, Group(active, Key(r))))
  {
    var active := Active(items);
    var keys := NewKeys({}, active);
    var rows := Rows(keys, active);
    ActiveIs(items);
    NewKeysAre({}, active);
    RowsAre(keys, active);
    SortKeys(rows);
    SortKeeps(rows);
    SortHolds(rows);
    forall k ensures k in Keys(Deduplicated(items)) <==> exists i :: i in items && !i.archived && Key(i) == k {
      if k in Keys(active) {
        var i := ItemWith(active, k);
      } else if exists i :: i in items && !i.archived && Key(i) == k {
        var i :| i in items && !i.archived && Key(i) == k;
        KeyOf(active, i);
      }
    }
    forall r | r in Deduplicated(items) ensures !r.archived && Represents(r, Group(active, Key(r))) {
      var newest := RowStandsFor(Group(active, Key(r)));
      GroupIs(active, Key(r));
    }
  }

  // ----- deduplicating twice -----

  lemma {:induction false} SortedStays(items: seq<InboxItem>)
    requires NewestFirst(items)
    ensures Sort(items) == items
  {
    if items != [] {
      SortedStays(items[1..]);
    }
  }

  lemma {:induction false} ActiveStays(items: seq<InboxItem>)
    requires forall i <- items :: !i.archived
    ensures Active(items) == items
  {
    if items != [] {
      ActiveStays(items[1..]);
    }
  }

  lemma {:induction false} FreshKeys(seen: set<string>, items: seq<InboxItem>)
    requires KeysDistinct(items) && forall k <- Keys(items) :: k !in seen
    ensures NewKeys(seen, items) == Keys(items)
    decreases |items|
  {
    if items != [] {
      assert Keys(items) == [Key(items[0])] + Keys(items[1..]);
      FreshKeys(seen + {Key(items[0])}, items[1..]);
    }
  }

  lemma {:induction false} GroupElsewhere(items: seq<InboxItem>, key: string)
    requires key !in Keys(items)
    ensures Group(items, key) == []
  {
    if items != [] {
      assert Keys(items) == [Key(items[0])] + Keys(items[1..]);
      GroupElsewhere(items[1..], key);
    }
  }

  lemma RowOfOne(i: InboxItem)
    ensures Row([i]) == i
  {
    assert [i][1..] == [];
    assert Sort([i]) == [i];
    RowShape([i]);
    if CommentId(i).None? { assert FirstAnchor([i]) == FirstAnchor([]); }
  }

  /** Rows over keys none of which the head has do not see the head. */
  lemma {:induction false} RowsSkipHead(keys: seq<string>, head: InboxItem, items: seq<InboxItem>)
    requires Key(head) !in keys
    ensures Rows(keys, [head] + items) == Rows(keys, items)
  {
    if keys != [] {
      assert keys == [keys[0]] + keys[1..];
      RowsSkipHead(keys[1..], head, items);
      assert ([head] + items)[1..] == items;
    }
  }

  lemma {:induction false} RowsOfRows(items: seq<InboxItem>)
    requires KeysDistinct(items)
    ensures Rows(Keys(items), items) == items
  {
    if items != [] {
      RowsOfRows(items[1..]);
      GroupElsewhere(items[1..], Key(items[0]));
      assert Group(items, Key(items[0])) == [items[0]];
      RowOfOne(items[0]);
      RowsSkipHead(Keys(items[1..]), items[0], items[1..]);
      assert items == [items[0]] + items[1..];
      assert Keys(items)[1..] == Keys(items[1..]);
    }
  }

  /** Deduplicating a deduplicated inbox changes nothing. */
  lemma DeduplicatingIsIdempotent(items: seq<InboxItem>)
    ensures Deduplicated(Deduplicated(items)) == Deduplicated(items)
  {
    var rows := Deduplicated(items);
    OneRowPerKey(items);
    ActiveStays(rows);
    FreshKeys({}, rows);
    RowsOfRows(rows);
    SortedStays(rows);
  }

  // ----- archiving -----

  function FindItem(items: seq<InboxItem>, id: string): Option<InboxItem> {
    if items == [] then None else if items[0].id == id then Some(items[0]) else FindItem(items[1..], id)
  }

  /** The optimistic archive: the item, and every item of the same issue. */
  function ArchiveAll(items: seq<InboxItem>, id: string, issueId: Option<string>): seq<InboxItem> {
    if items == [] then []
    else [if items[0].id == id || (Truthy(issueId) && items[0].issueId == issueId)
          then items[0].(archived := true) else items[0]]
         + ArchiveAll(items[1..], id, issueId)
  }

  function Archived(items: seq<InboxItem>, id: string): seq<InboxItem> {
    var target := FindItem(items, id);
    ArchiveAll(items, id, if target.Some? then target.value.issueId else None)
  }

  function WithoutKey(items: seq<InboxItem>, key: string): seq<InboxItem> {
    if items == [] then []
    else if Key(items[0]) == key then WithoutKey(items[1..], key)
    else [items[0]] + WithoutKey(items[1..], key)
  }

  /** The server's ids: no item id twice, issue ids nonempty and never an item's id. */
  ghost predicate WellKeyed(items: seq<InboxItem>) {
    && (forall i <- items, j <- items :: i.id == j.id ==> i == j)
    && (forall i <- items, j <- items :: i.issueId.Some? ==> i.issueId.value != "" && i.issueId.value != j.id)
  }

  lemma {:induction false} FindItemIs(items: seq<InboxItem>, id: string)
    ensures var t := FindItem(items, id);
            if t.Some? then t.value in items && t.value.id == id else forall i <- items :: i.id != id
  {
    if items != [] {
      FindItemIs(items[1..], id);
      assert items == [items[0]] + items[1..];
    }
  }

  lemma {:induction false} ArchivedActive(items: seq<InboxItem>, id: string, issueId: Option<string>, key: string)
    requires forall i <- items :: (i.id == id || (Truthy(issueId) && i.issueId == issueId)) <==> Key(i) == key
    ensures Active(ArchiveAll(items, id, issueId)) == WithoutKey(Active(items), key)
  {
    if items != [] {
      ArchivedActive(items[1..], id, issueId, key);
      assert ArchiveAll(items, id, issueId)[1..] == ArchiveAll(items[1..], id, issueId);
      assert items[0] in items;
    }
  }

  lemma {:induction false} GroupWithoutKey(items: seq<InboxItem>, gone: string, key: string)
    requires key != gone
    ensures Group(WithoutKey(items, gone), key) == Group(items, key)
  {
    if items != [] {
      GroupWithoutKey(items[1..], gone, key);
    }
  }

  function KeysWithout(keys: seq<string>, gone: string): seq<string> {
    if keys == [] then []
    else if keys[0] == gone then KeysWithout(keys[1..], gone)
    else [keys[0]] + KeysWithout(keys[1..], gone)
  }

  lemma {:induction false} NewKeysWithout(seen: set<string>, seen': set<string>, items: seq<InboxItem>, gone: string)
    requires seen + {gone} == seen' + {gone}
    ensures NewKeys(seen, WithoutKey(items, gone)) == KeysWithout(NewKeys(seen', items), gone)
    decreases |items|
  {
    if items != [] {
      var k := Key(items[0]);
      if k == gone {
        NewKeysWithout(seen, seen', items[1..], gone);
        NewKeysWithout(seen, seen' + {k}, items[1..], gone);
      } else {
        NewKeysWithout(seen, seen', items[1..], gone);
        NewKeysWithout(seen + {k}, seen' + {k}, items[1..], gone);
      }
    }
  }

  lemma {:induction false} RowsWithout(keys: seq<string>, items: seq<InboxItem>, gone: string)
    requires forall k <- keys :: k in Keys(items)
    ensures Rows(KeysWithout(keys, gone), WithoutKey(items, gone)) == WithoutKey(Rows(keys, items), gone)
  {
    if keys != [] {
      RowsWithout(keys[1..], items, gone);
      RowKey(items, keys[0]);
      if keys[0] != gone {
        GroupWithoutKey(items, gone, keys[0]);
      }
    }
  }

  lemma {:induction false} InsertWithout(i: InboxItem, sorted: seq<InboxItem>, gone: string)
    requires NewestFirst(sorted)
    ensures WithoutKey(Insert(i, sorted), gone) ==
            if Key(i) == gone then WithoutKey(sorted, gone) else Insert(i, WithoutKey(sorted, gone))
  {
    if sorted == [] || i.createdAt >= sorted[0].createdAt {
      assert ([i] + sorted)[1..] == sorted;
      InsertInFront(i, sorted, gone);
    } else {
      InsertWithout(i, sorted[1..], gone);
      var rest := Insert(i, sorted[1..]);
      assert ([sorted[0]] + rest)[1..] == rest;
      var kept := WithoutKey(sorted[1..], gone);
      assert ([sorted[0]] + kept)[1..] == kept;
    }
  }

  lemma InsertInFront(i: InboxItem, sorted: seq<InboxItem>, gone: string)
    requires NewestFirst(sorted) && (sorted == [] || i.createdAt >= sorted[0].createdAt)
    ensures Insert(i, WithoutKey(sorted, gone)) == [i] + WithoutKey(sorted, gone)
  {
    if sorted != [] {
      HeadIsNewest(sorted);
      WithoutKeyIs(sorted, gone);
      var kept := WithoutKey(sorted, gone);
      assert kept != [] ==> kept[0] in kept;
    }
  }

  lemma {:induction false} WithoutKeyIs(items: seq<InboxItem>, gone: string)
    ensures forall i :: i in WithoutKey(items, gone) <==> i in items && Key(i) != gone
  {
    if items != [] {
      WithoutKeyIs(items[1..], gone);
      assert items == [items[0]] + items[1..];
    }
  }

  lemma {:induction false} SortWithout(items: seq<InboxItem>, gone: string)
    ensures Sort(WithoutKey(items, gone)) == WithoutKey(Sort(items), gone)
  {
    if items != [] {
      SortWithout(items[1..], gone);
      SortKeeps(items[1..]);
      InsertWithout(items[0], Sort(items[1..]), gone);
      var kept := WithoutKey(items[1..], gone);
      assert ([items[0]] + kept)[1..] == kept;
    }
  }

  lemma DeduplicatedWithout(active: seq<InboxItem>, gone: string)
    ensures Sort(Rows(NewKeys({}, WithoutKey(active, gone)), WithoutKey(active, gone)))
            == WithoutKey(Sort(Rows(NewKeys({}, active), active)), gone)
  {
    NewKeysAre({}, active);
    NewKeysWithout({}, {}, active, gone);
    RowsWithout(NewKeys({}, active), active, gone);
    SortWithout(Rows(NewKeys({}, active), active), gone);
  }

  /** Archiving an item and deduplicating again is the earlier inbox without that item's row, in the
      same order. */
  lemma ArchiveRemovesExactlyOneRow(items: seq<InboxItem>, id: string)
    requires WellKeyed(items)
    ensures var target := FindItem(items, id);
            Deduplicated(Archived(items, id)) ==
            if target.Some? then WithoutKey(Deduplicated(items), Key(target.value)) else Deduplicated(items)
  {
    var target := FindItem(items, id);
    FindItemIs(items, id);
    if target.Some? {
      var issueId, key := target.value.issueId, Key(target.value);
      forall i | i in items ensures (i.id == id || (Truthy(issueId) && i.issueId == issueId)) <==> Key(i) == key {
      }
      ArchivedActive(items, id, issueId, key);
      DeduplicatedWithout(Active(items), key);
    } else {
      NothingArchived(items, id);
    }
  }

  /** The optimistic archive: the snapshot it keeps, and the inbox without exactly that row. */
  method ArchiveInbox(items: seq<InboxItem>, id: string) returns (next: seq<InboxItem>, prev: seq<InboxItem>)
    ensures prev == items && next == Archived(items, id)
    ensures WellKeyed(items) ==>
              var target := FindItem(items, id);
              Deduplicated(next) ==
              if target.Some? then WithoutKey(Deduplicated(prev), Key(target.value)) else Deduplicated(prev)
  {
    prev := items;
    var target := FindItem(items, id);
    var issueId := if target.Some? then target.value.issueId else None;
    next := ArchiveAll(items, id, issueId);
    if WellKeyed(items) {
      ArchiveRemovesExactlyOneRow(items, id);
    }
  }

  lemma {:induction false} NothingArchived(items: seq<InboxItem>, id: string)
    requires forall i <- items :: i.id != id
    ensures ArchiveAll(items, id, None) == items
  {
    if items != [] {
      NothingArchived(items[1..], id);
    }
  }
}

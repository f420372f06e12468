/** Storage namespaced by the current workspace (packages/core/platform/workspace-storage.ts:94-117). */
module WorkspaceKeys {
  import opened Options
  import opened WorkspaceSwitching

  type Items = map<string, string>

  function NamespacedKey(key: string, slug: string): string {
    key + ":" + slug
  }

  function Read(items: Items, slug: Slug, key: string): Option<string> {
    if Truthy(slug) && NamespacedKey(key, slug.value) in items
    then Some(items[NamespacedKey(key, slug.value)]) else None
  }

  function Write(items: Items, slug: Slug, key: string, value: string): Items {
    if Truthy(slug) then items[NamespacedKey(key, slug.value) := value] else items
  }

  function Erase(items: Items, slug: Slug, key: string): Items {
    if Truthy(slug) then items - {NamespacedKey(key, slug.value)} else items
  }

  /** Reads the slug when called, so it follows every switch. */
  class WorkspaceAwareStorage {
    const workspace: Workspace
    var items: Items

    constructor (workspace: Workspace, items: Items)
      ensures this.workspace == workspace && this.items == items
    {
      this.workspace := workspace;
      this.items := items;
    }

    method GetItem(key: string) returns (r: Option<string>)
      ensures r == Read(items, workspace.slug, key)
    {
      var slug := workspace.slug;
      if !Truthy(slug) || NamespacedKey(key, slug.value) !in items {
        return None;
      }
      r := Some(items[NamespacedKey(key, slug.value)]);
    }

    method SetItem(key: string, value: string)
      modifies this
      ensures items == Write(old(items), workspace.slug, key, value)
    {
      var slug := workspace.slug;
      if Truthy(slug) {
        items := items[NamespacedKey(key, slug.value) := value];
      }
    }

    method RemoveItem(key: string)
      modifies this
      ensures items == Erase(old(items), workspace.slug, key)
    {
      var slug := workspace.slug;
      if Truthy(slug) {
        items := items - {NamespacedKey(key, slug.value)};
      }
    }
  }

  // ----- when two namespaces overlap -----

  predicate EndsWith(s: string, tail: string) {
    |tail| <= |s| && s[|s| - |tail|..] == tail
  }

  /** One slug is the other behind some prefix and a colon. */
  predicate Overlap(a: string, b: string) {
    a == b || EndsWith(a, ":" + b) || EndsWith(b, ":" + a)
  }

  lemma LongerKeyEndsWith(k: string, a: string, k': string, b: string)
    requires NamespacedKey(k, a) == NamespacedKey(k', b) && |a| > |b|
    ensures EndsWith(a, ":" + b)
  {
    var whole, tail := NamespacedKey(k, a), ":" + b;
    assert whole[|whole| - |tail|..] == tail;
    assert whole[|whole| - |a|..] == a;
    assert a[|a| - |tail|..] == whole[|whole| - |tail|..];
  }

  lemma SameKeyOverlaps(k: string, a: string, k': string, b: string)
    requires NamespacedKey(k, a) == NamespacedKey(k', b)
    ensures Overlap(a, b) && (a == b ==> k == k')
  {
    var whole := NamespacedKey(k, a);
    if |a| > |b| {
      LongerKeyEndsWith(k, a, k', b);
    } else if |b| > |a| {
      LongerKeyEndsWith(k', b, k, a);
    } else {
      assert whole[|whole| - |a|..] == a && whole[|whole| - |a|..] == b;
      assert whole[..|whole| - |a| - 1] == k && whole[..|whole| - |a| - 1] == k';
    }
  }

  lemma OverlapSharesKey(a: string, b: string) returns (k: string, k': string)
    requires EndsWith(a, ":" + b)
    ensures NamespacedKey(k, a) == NamespacedKey(k', b)
  {
    var p := a[..|a| - |b| - 1];
    assert a == p + (":" + b);
    k, k' := "", ":" + p;
    assert NamespacedKey(k, a) == ":" + (p + (":" + b));
    assert NamespacedKey(k', b) == ":" + (p + (":" + b));
  }

  /** A write under `a` can be seen, or lost, under `b`. */
  ghost predicate Leaks(a: string, b: string) {
    exists items: Items, k, value, k' :: Read(Write(items, Some(a), k, value), Some(b), k') != Read(items, Some(b), k')
  }

  /** Two workspaces with different slugs leak into each other exactly when one slug is the other behind a colon. */
  lemma LeaksIff(a: string, b: string)
    requires a != "" && b != "" && a != b
    ensures Leaks(a, b) <==> Overlap(a, b)
  {
    if Leaks(a, b) {
      var items: Items, k, value, k' :|
        Read(Write(items, Some(a), k, value), Some(b), k') != Read(items, Some(b), k');
      SameKeyOverlaps(k, a, k', b);
    }
    if Overlap(a, b) {
      var k, k';
      if EndsWith(a, ":" + b) {
        k, k' := OverlapSharesKey(a, b);
      } else {
        k', k := OverlapSharesKey(b, a);
      }
      assert Read(Write(map[], Some(a), k, ""), Some(b), k') != Read(map[], Some(b), k');
    }
  }

  lemma TailIsInside(s: string, tail: string)
    ensures EndsWith(s, tail) ==> forall c | c in tail :: c in s
  {
    if EndsWith(s, tail) {
      forall c | c in tail
        ensures c in s
      {
        var i :| 0 <= i < |tail| && tail[i] == c;
        assert s[|s| - |tail|..][i] == s[|s| - |tail| + i];
      }
    }
  }

  /** The slugs the application accepts hold no colon, so theirs never overlap. */
  lemma ColonFreeIsApart(a: string, b: string)
    requires ':' !in a && ':' !in b
    ensures Overlap(a, b) <==> a == b
  {
    TailIsInside(a, ":" + b);
    TailIsInside(b, ":" + a);
    assert (":" + a)[0] == ':' && (":" + b)[0] == ':';
  }

  // ----- what one workspace reads after a run -----

  datatype Op = Enter(slug: Slug) | SetOp(key: string, value: string) | RemoveOp(key: string)

  function Do(items: Items, slug: Slug, op: Op): Items {
    match op
    case Enter(_) => items
    case SetOp(k, v) => Write(items, slug, k, v)
    case RemoveOp(k) => Erase(items, slug, k)
  }

  function RunOps(slug: Slug, items: Items, ops: seq<Op>): Items
    decreases |ops|
  {
    if ops == [] then items
    else RunOps(if ops[0].Enter? then ops[0].slug else slug, Do(items, slug, ops[0]), ops[1..])
  }

  /** The writes and removals made while `home` was the current workspace. */
  function MadeAt(home: string, slug: Slug, ops: seq<Op>): seq<Op>
    decreases |ops|
  {
    if ops == [] then []
    else if ops[0].Enter? then MadeAt(home, ops[0].slug, ops[1..])
    else (if slug == Some(home) then [ops[0]] else []) + MadeAt(home, slug, ops[1..])
  }

  predicate ApartFrom(home: string, slug: Slug) {
    Truthy(slug) && slug.value != home ==> !Overlap(slug.value, home)
  }

  predicate AllApart(home: string, slug: Slug, ops: seq<Op>) {
    ApartFrom(home, slug) && forall op | op in ops :: op.Enter? ==> ApartFrom(home, op.slug)
  }

  ghost predicate SameReads(a: Items, b: Items, home: string) {
    forall key :: Read(a, Some(home), key) == Read(b, Some(home), key)
  }

  lemma ElsewhereIsUnseen(items: Items, slug: Slug, home: string, op: Op)
    requires ApartFrom(home, slug) && slug != Some(home)
    ensures SameReads(Do(items, slug, op), items, home)
  {
    forall key
      ensures !op.Enter? && Truthy(slug) ==> NamespacedKey(op.key, slug.value) != NamespacedKey(key, home)
    {
      if !op.Enter? && Truthy(slug) && NamespacedKey(op.key, slug.value) == NamespacedKey(key, home) {
        SameKeyOverlaps(op.key, slug.value, key, home);
      }
    }
  }

  lemma HomeIsKept(a: Items, b: Items, home: string, op: Op)
    requires SameReads(a, b, home)
    ensures SameReads(Do(a, Some(home), op), Do(b, Some(home), op), home)
  {
    forall key
      ensures Read(Do(a, Some(home), op), Some(home), key) == Read(Do(b, Some(home), op), Some(home), key)
    {
      assert Read(a, Some(home), key) == Read(b, Some(home), key);
    }
  }

  lemma {:induction false} ReadsStayInStep(home: string, slug: Slug, a: Items, b: Items, ops: seq<Op>)
    requires AllApart(home, slug, ops) && SameReads(a, b, home)
    ensures SameReads(RunOps(slug, a, ops), RunOps(Some(home), b, MadeAt(home, slug, ops)), home)
    decreases |ops|
  {
    if ops != [] {
      var rest := ops[1..];
      var op := ops[0];
      assert op in ops && forall o | o in rest :: o in ops;
      if op.Enter? {
        ReadsStayInStep(home, op.slug, a, b, rest);
      } else if slug == Some(home) {
        HomeIsKept(a, b, home, op);
        ReadsStayInStep(home, slug, Do(a, slug, op), Do(b, slug, op), rest);
        var made := MadeAt(home, slug, ops);
        assert made[0] == op && made[1..] == MadeAt(home, slug, rest);
      } else {
        ElsewhereIsUnseen(a, slug, home, op);
        ReadsStayInStep(home, slug, Do(a, slug, op), b, rest);
        assert MadeAt(home, slug, ops) == MadeAt(home, slug, rest);
      }
    }
  }

  /** Over every run of switches, writes and removals among colon-free slugs, what a workspace reads is
      what its own writes and removals alone would have left. */
  lemma WorkspacesAreIsolated(home: string, slug: Slug, items: Items, ops: seq<Op>)
    requires ':' !in home && (slug.Some? ==> ':' !in slug.value)
    requires forall op | op in ops :: op.Enter? && op.slug.Some? ==> ':' !in op.slug.value
    ensures SameReads(RunOps(slug, items, ops), RunOps(Some(home), items, MadeAt(home, slug, ops)), home)
  {
    if slug.Some? {
      ColonFreeIsApart(slug.value, home);
    }
    forall op | op in ops && op.Enter? && op.slug.Some?
      ensures ApartFrom(home, op.slug)
    {
      ColonFreeIsApart(op.slug.value, home);
    }
    ReadsStayInStep(home, slug, items, items, ops);
  }

  /** What the workspace's own operations say about one key: the value set last, or nothing once removed. */
  function LastOwn(kept: Option<string>, home: string, slug: Slug, ops: seq<Op>, key: string): Option<string>
    decreases |ops|
  {
    if ops == [] then kept
    else if ops[0].Enter? then LastOwn(kept, home, ops[0].slug, ops[1..], key)
    else if slug != Some(home) || ops[0].key != key then LastOwn(kept, home, slug, ops[1..], key)
    else LastOwn(if ops[0].SetOp? then Some(ops[0].value) else None, home, slug, ops[1..], key)
  }

  lemma OneOpReads(items: Items, slug: Slug, home: string, op: Op, key: string)
    requires home != "" && ApartFrom(home, slug)
    ensures Read(Do(items, slug, op), Some(home), key) ==
            if op.Enter? || slug != Some(home) || op.key != key then Read(items, Some(home), key)
            else if op.SetOp? then Some(op.value) else None
  {
    if slug != Some(home) {
      ElsewhereIsUnseen(items, slug, home, op);
      assert SameReads(Do(items, slug, op), items, home);
    } else if !op.Enter? && op.key != key {
      assert NamespacedKey(op.key, home)[..|op.key|] == op.key && NamespacedKey(key, home)[..|key|] == key;
    }
  }

  /** Over every such run a workspace reads back, key by key, what it last wrote itself, and nothing once it removed
      that. */
  lemma {:induction false} WorkspaceReadsItsOwn(home: string, slug: Slug, items: Items, ops: seq<Op>, key: string)
    requires home != "" && ':' !in home && (slug.Some? ==> ':' !in slug.value)
    requires forall op | op in ops :: op.Enter? && op.slug.Some? ==> ':' !in op.slug.value
    ensures Read(RunOps(slug, items, ops), Some(home), key) ==
            LastOwn(Read(items, Some(home), key), home, slug, ops, key)
    decreases |ops|
  {
    if ops != [] {
      assert ops[0] in ops && forall op | op in ops[1..] :: op in ops;
      if slug.Some? { ColonFreeIsApart(slug.value, home); }
      OneOpReads(items, slug, home, ops[0], key);
      WorkspaceReadsItsOwn(home, if ops[0].Enter? then ops[0].slug else slug, Do(items, slug, ops[0]), ops[1..], key);
    }
  }
}

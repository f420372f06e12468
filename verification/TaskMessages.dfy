/** Merging task-message batches by sequence number (packages/core/chat/queries.ts). */
module TaskMessages {
  datatype Message = Message(number: int, payload: string)

  function Numbers(ms: seq<Message>): set<int> {
    if ms == [] then {} else {ms[0].number} + Numbers(ms[1..])
  }

  /** `incoming.filter((m) => !known.has(m.seq))` */
  function Fresh(incoming: seq<Message>, known: set<int>): seq<Message> {
    if incoming == [] then []
    else if incoming[0].number in known then Fresh(incoming[1..], known)
    else [incoming[0]] + Fresh(incoming[1..], known)
  }

  /** A stable sort by sequence number. */
  function Sort(ms: seq<Message>): seq<Message> {
    if ms == [] then [] else Insert(ms[0], Sort(ms[1..]))
  }

  function Insert(m: Message, sorted: seq<Message>): seq<Message> {
    if sorted == [] || m.number <= sorted[0].number then [m] + sorted else [sorted[0]] + Insert(m, sorted[1..])
  }

  function Merge(existing: seq<Message>, incoming: seq<Message>): seq<Message> {
    var news := Fresh(incoming, Numbers(existing));
    if news == [] then existing else Sort(existing + news)
  }

  predicate Ascending(ms: seq<Message>) {
    |ms| >= 2 ==> ms[0].number < ms[1].number && Ascending(ms[1..])
  }

  predicate NumbersDistinct(ms: seq<Message>) {
    ms == [] || (ms[0].number !in Numbers(ms[1..]) && NumbersDistinct(ms[1..]))
  }

  function MergeAll(existing: seq<Message>, batches: seq<seq<Message>>): seq<Message>
    decreases |batches|
  {
    if batches == [] then existing else MergeAll(Merge(existing, batches[0]), batches[1..])
  }

  // ----- one merge -----

  lemma {:induction false} NumberOf(ms: seq<Message>, m: Message)
    requires m in ms
    ensures m.number in Numbers(ms)
  {
    if m != ms[0] {
      NumberOf(ms[1..], m);
    }
  }

  lemma {:induction false} InsertKeeps(m: Message, sorted: seq<Message>)
    requires Ascending(sorted) && m.number !in Numbers(sorted)
    ensures var r := Insert(m, sorted);
            && Ascending(r) && multiset(r) == multiset(sorted) + multiset{m}
            && Numbers(r) == Numbers(sorted) + {m.number}
            && r != [] && (r[0] == m || (sorted != [] && r[0] == sorted[0]))
  {
    if sorted == [] || m.number <= sorted[0].number {
      assert ([m] + sorted)[1..] == sorted;
    } else {
      InsertKeeps(m, sorted[1..]);
      var rest := Insert(m, sorted[1..]);
      assert ([sorted[0]] + rest)[1..] == rest && sorted == [sorted[0]] + sorted[1..];
    }
  }

  lemma {:induction false} SortKeeps(ms: seq<Message>)
    requires NumbersDistinct(ms)
    ensures Ascending(Sort(ms)) && multiset(Sort(ms)) == multiset(ms) && Numbers(Sort(ms)) == Numbers(ms)
  {
    if ms != [] {
      SortKeeps(ms[1..]);
      InsertKeeps(ms[0], Sort(ms[1..]));
      assert ms == [ms[0]] + ms[1..];
    }
  }

  lemma {:induction false} FreshKeeps(incoming: seq<Message>, known: set<int>)
    ensures var r := Fresh(incoming, known);
            && Numbers(r) == Numbers(incoming) - known
            && (forall m :: m in r <==> m in incoming && m.number !in known)
            && (NumbersDistinct(incoming) ==> NumbersDistinct(r))
  {
    if incoming != [] {
      FreshKeeps(incoming[1..], known);
      var rest := Fresh(incoming[1..], known);
      assert ([incoming[0]] + rest)[1..] == rest && incoming == [incoming[0]] + incoming[1..];
    }
  }

  lemma {:induction false} ConcatNumbers(a: seq<Message>, b: seq<Message>)
    ensures Numbers(a + b) == Numbers(a) + Numbers(b)
    ensures NumbersDistinct(a + b) <==> NumbersDistinct(a) && NumbersDistinct(b) && Numbers(a) !! Numbers(b)
  {
    if a == [] {
      assert a + b == b;
    } else {
      assert (a + b)[1..] == a[1..] + b && (a + b)[0] == a[0];
      ConcatNumbers(a[1..], b);
    }
  }

  lemma {:induction false} AscendingNumbers(ms: seq<Message>)
    requires Ascending(ms)
    ensures NumbersDistinct(ms) && forall n <- Numbers(ms) :: ms[0].number <= n
  {
    if |ms| >= 2 {
      AscendingNumbers(ms[1..]);
    }
  }

  lemma {:induction false} SortIsDistinctIff(ms: seq<Message>)
    ensures NumbersDistinct(Sort(ms)) <==> NumbersDistinct(ms)
    ensures Numbers(Sort(ms)) == Numbers(ms)
  {
    if ms != [] {
      SortIsDistinctIff(ms[1..]);
      InsertIsDistinctIff(ms[0], Sort(ms[1..]));
    }
  }

  lemma {:induction false} InsertIsDistinctIff(m: Message, sorted: seq<Message>)
    ensures NumbersDistinct(Insert(m, sorted)) <==> m.number !in Numbers(sorted) && NumbersDistinct(sorted)
    ensures Numbers(Insert(m, sorted)) == Numbers(sorted) + {m.number}
  {
    if sorted == [] || m.number <= sorted[0].number {
      assert ([m] + sorted)[1..] == sorted;
    } else {
      InsertIsDistinctIff(m, sorted[1..]);
      var rest := Insert(m, sorted[1..]);
      assert ([sorted[0]] + rest)[1..] == rest;
    }
  }

  /** A merge keeps the list strictly ascending exactly when the new messages have distinct numbers. */
  lemma MergeIsAscendingIff(existing: seq<Message>, incoming: seq<Message>)
    requires Ascending(existing)
    ensures Ascending(Merge(existing, incoming)) <==> NumbersDistinct(Fresh(incoming, Numbers(existing)))
  {
    var news := Fresh(incoming, Numbers(existing));
    FreshKeeps(incoming, Numbers(existing));
    AscendingNumbers(existing);
    ConcatNumbers(existing, news);
    SortIsDistinctIff(existing + news);
    if news != [] && NumbersDistinct(news) {
      SortKeeps(existing + news);
    }
    if Ascending(Merge(existing, incoming)) {
      AscendingNumbers(Merge(existing, incoming));
    }
  }

  /** A batch that repeats a new number. */
  lemma RepeatedNumberStaysTwice()
    ensures !Ascending(Merge([], [Message(1, "a"), Message(1, "b")]))
  {
    var batch := [Message(1, "a"), Message(1, "b")];
    assert batch[1..] == [Message(1, "b")] && Numbers([]) == {};
    assert Fresh(batch[1..], {}) == batch[1..] && Fresh(batch, {}) == batch;
    assert Numbers(batch[1..]) == {1} + Numbers(batch[1..][1..]);
    MergeIsAscendingIff([], batch);
  }

  /** What a merge holds: everything that was there, and new numbers only from the batch. */
  lemma MergeHolds(existing: seq<Message>, incoming: seq<Message>)
    requires Ascending(existing) && NumbersDistinct(incoming)
    ensures var r := Merge(existing, incoming);
            && Ascending(r) && Numbers(r) == Numbers(existing) + Numbers(incoming)
            && (forall m :: m in r <==> m in existing || (m in incoming && m.number !in Numbers(existing)))
  {
    var news := Fresh(incoming, Numbers(existing));
    FreshKeeps(incoming, Numbers(existing));
    AscendingNumbers(existing);
    ConcatNumbers(existing, news);
    MergeIsAscendingIff(existing, incoming);
    SortIsDistinctIff(existing + news);
    if news != [] {
      SortHolds(existing + news);
    }
  }

  lemma SortHolds(ms: seq<Message>)
    requires NumbersDistinct(ms)
    ensures forall m :: m in Sort(ms) <==> m in ms
  {
    SortKeeps(ms);
    assert forall m :: m in Sort(ms) <==> m in multiset(Sort(ms));
  }

  // ----- runs -----

  /** The first message with a number, over the batches in arrival order. */
  function FirstWith(batches: seq<seq<Message>>, n: int): seq<Message> {
    if batches == [] then []
    else
      var here := With(batches[0], n);
      if here != [] then here else FirstWith(batches[1..], n)
  }

  function With(ms: seq<Message>, n: int): seq<Message> {
    if ms == [] then [] else if ms[0].number == n then [ms[0]] else With(ms[1..], n)
  }

  lemma {:induction false} WithIs(ms: seq<Message>, m: Message)
    requires NumbersDistinct(ms)
    ensures With(ms, m.number) == [m] <==> m in ms
    ensures With(ms, m.number) == [] <==> m.number !in Numbers(ms)
  {
    if ms != [] {
      WithIs(ms[1..], m);
      assert ms == [ms[0]] + ms[1..];
      if m in ms[1..] { NumberOf(ms[1..], m); }
    }
  }

  predicate EachDistinct(batches: seq<seq<Message>>) {
    batches == [] || (NumbersDistinct(batches[0]) && EachDistinct(batches[1..]))
  }

  /** Over every run of batches the list stays strictly ascending, and the first writer of each
      number wins. */
  lemma {:induction false} FirstWriterWins(existing: seq<Message>, batches: seq<seq<Message>>)
    requires Ascending(existing) && EachDistinct(batches)
    ensures var r := MergeAll(existing, batches);
            && Ascending(r)
            && forall m :: m in r <==>
                 m in existing || (m.number !in Numbers(existing) && FirstWith(batches, m.number) == [m])
    decreases |batches|
  {
    if batches != [] {
      var next := Merge(existing, batches[0]);
      MergeHolds(existing, batches[0]);
      FirstWriterWins(next, batches[1..]);
      forall m ensures m in MergeAll(existing, batches) <==>
        m in existing || (m.number !in Numbers(existing) && FirstWith(batches, m.number) == [m])
      {
        WithIs(batches[0], m);
      }
    }
  }

  ghost function Union(batches: seq<seq<Message>>): set<Message> {
    if batches == [] then {} else (set m | m in batches[0]) + Union(batches[1..])
  }

  lemma {:induction false} FirstWithIsInUnion(batches: seq<seq<Message>>, m: Message)
    requires EachDistinct(batches)
    ensures FirstWith(batches, m.number) == [m] ==> m in Union(batches)
    ensures m in Union(batches) ==>
              var f := FirstWith(batches, m.number); |f| == 1 && f[0] in Union(batches) && f[0].number == m.number
  {
    if batches != [] {
      FirstWithIsInUnion(batches[1..], m);
      WithIs(batches[0], m);
      WithFinds(batches[0], m.number);
      if m in batches[0] { NumberOf(batches[0], m); }
    }
  }

  lemma {:induction false} WithFinds(ms: seq<Message>, n: int)
    ensures With(ms, n) != [] ==> |With(ms, n)| == 1 && With(ms, n)[0] in ms && With(ms, n)[0].number == n
  {
    if ms != [] {
      WithFinds(ms[1..], n);
    }
  }

  function HeadOf(ms: seq<Message>): (m: Message)
    ensures ms != [] ==> m in ms
  {
    if ms == [] then Message(0, "") else ms[0]
  }

  lemma {:induction false} AscendingIsUnique(a: seq<Message>, b: seq<Message>)
    requires Ascending(a) && Ascending(b) && forall m :: m in a <==> m in b
    ensures a == b
  {
    if a == [] {
      var m := HeadOf(b);
    } else {
      assert a[0] in b && b[0] in a;
      AscendingNumbers(a);
      AscendingNumbers(b);
      NumberOf(a, b[0]);
      NumberOf(b, a[0]);
      if a[0] != b[0] {
        assert b[0] in a[1..];
        NumberOf(a[1..], b[0]);
      }
      forall m ensures m in a[1..] <==> m in b[1..] {
        SplitHead(a, m);
        SplitHead(b, m);
      }
      AscendingIsUnique(a[1..], b[1..]);
    }
  }

  lemma SplitHead(a: seq<Message>, m: Message)
    requires NumbersDistinct(a) && a != []
    ensures m in a[1..] <==> m in a && m != a[0]
  {
    assert a == [a[0]] + a[1..];
    if a[0] in a[1..] { NumberOf(a[1..], a[0]); }
  }

  /** When the batches agree on what each number carries, the final list depends only on their union:
      order of arrival and repetition do not matter. */
  lemma MergesConverge(batches: seq<seq<Message>>, others: seq<seq<Message>>)
    requires EachDistinct(batches) && EachDistinct(others) && Union(batches) == Union(others)
    requires forall m <- Union(batches), n <- Union(batches) :: m.number == n.number ==> m == n
    ensures MergeAll([], batches) == MergeAll([], others)
  {
    FirstWriterWins([], batches);
    FirstWriterWins([], others);
    forall m ensures m in MergeAll([], batches) <==> m in MergeAll([], others) {
      FirstWithIsInUnion(batches, m);
      FirstWithIsInUnion(others, m);
    }
    AscendingIsUnique(MergeAll([], batches), MergeAll([], others));
  }
}

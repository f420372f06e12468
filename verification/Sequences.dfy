/** Sequences without repetition. */
module Sequences {
  predicate Distinct<T(==)>(s: seq<T>) {
    s == [] || (s[0] !in s[1..] && Distinct(s[1..]))
  }

  lemma {:induction false} DistinctConcat<T>(a: seq<T>, b: seq<T>)
    requires Distinct(a) && Distinct(b) && forall x <- a :: x !in b
    ensures Distinct(a + b)
  {
    if a == [] {
      assert a + b == b;
    } else {
      assert (a + b)[1..] == a[1..] + b && (a + b)[0] == a[0];
      DistinctConcat(a[1..], b);
    }
  }

  /** `s.filter((y) => y !== x)`, or what deleting `x` leaves of an ordered set. */
  function Omit<T(==, !new)>(s: seq<T>, x: T): (r: seq<T>)
    ensures forall y :: y in r <==> y in s && y != x
    ensures |r| <= |s|
  {
    if s == [] then [] else (if s[0] == x then [] else [s[0]]) + Omit(s[1..], x)
  }

  lemma {:induction false} OmitKeepsDistinct<T(!new)>(s: seq<T>, x: T)
    requires Distinct(s)
    ensures Distinct(Omit(s, x))
  {
    if s != [] {
      OmitKeepsDistinct(s[1..], x);
      var rest := Omit(s[1..], x);
      assert ([s[0]] + rest)[1..] == rest && [] + rest == rest;
    }
  }

  /** What stays keeps its order. */
  lemma {:induction false} OmitConcat<T(!new)>(a: seq<T>, b: seq<T>, x: T)
    ensures Omit(a + b, x) == Omit(a, x) + Omit(b, x)
  {
    if a == [] {
      assert a + b == b;
    } else {
      assert (a + b)[1..] == a[1..] + b && (a + b)[0] == a[0];
      OmitConcat(a[1..], b, x);
      var head := if a[0] == x then [] else [a[0]];
      assert (head + Omit(a[1..], x)) + Omit(b, x) == head + (Omit(a[1..], x) + Omit(b, x));
    }
  }

  lemma OmitOne<T(!new)>(y: T, x: T)
    ensures Omit([y], x) == if y == x then [] else [y]
  {
    assert [y][1..] == [];
  }

  /** The new keys behind the others, each once, in some order. */
  method AppendKeys<K(==)>(keys: seq<K>, more: set<K>) returns (all: seq<K>)
    requires Distinct(keys) && forall k <- keys :: k !in more
    ensures Distinct(all) && keys <= all && forall k :: k in all <==> k in keys || k in more
    ensures more == {} ==> all == keys
  {
    all := keys;
    var rest := more;
    while rest != {}
      invariant rest <= more && Distinct(all) && keys <= all
      invariant forall k <- all :: k !in rest
      invariant forall k :: k in all || k in rest <==> k in keys || k in more
      invariant more == {} ==> all == keys
      decreases |rest|
    {
      var k :| k in rest;
      DistinctConcat(all, [k]);
      all := all + [k];
      rest := rest - {k};
    }
  }
}

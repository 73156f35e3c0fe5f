/** Python's stable `sorted(..., key=...)`, by insertion. */
module StableSort {

  predicate AscendsBy<T>(key: T -> int, xs: seq<T>)
  {
    forall i :: 0 <= i < |xs| - 1 ==> key(xs[i]) <= key(xs[i + 1])
  }

  /** Insert behind every element whose key is no larger. */
  function InsertBy<T>(key: T -> int, xs: seq<T>, x: T): (r: seq<T>)
    ensures |r| == |xs| + 1
  {
    if |xs| == 0 then [x]
    else
      var last := xs[|xs| - 1];
      if key(last) <= key(x) then xs + [x]
      else InsertBy(key, xs[..|xs| - 1], x) + [last]
  }

  function SortBy<T>(key: T -> int, xs: seq<T>): (r: seq<T>)
    ensures |r| == |xs|
  {
    if |xs| == 0 then []
    else InsertBy(key, SortBy(key, xs[..|xs| - 1]), xs[|xs| - 1])
  }

  lemma {:induction false} InsertAdds<T>(key: T -> int, xs: seq<T>, x: T)
    ensures multiset(InsertBy(key, xs, x)) == multiset(xs) + multiset{x}
    decreases |xs|
  {
    if |xs| > 0 {
      var n := |xs| - 1;
      assert xs == xs[..n] + [xs[n]];
      InsertAdds(key, xs[..n], x);
    }
  }

  /** Sorting permutes. */
  lemma {:induction false} SortPermutes<T>(key: T -> int, xs: seq<T>)
    ensures multiset(SortBy(key, xs)) == multiset(xs)
    decreases |xs|
  {
    if |xs| > 0 {
      var n := |xs| - 1;
      assert xs == xs[..n] + [xs[n]];
      SortPermutes(key, xs[..n]);
      InsertAdds(key, SortBy(key, xs[..n]), xs[n]);
    }
  }

  lemma {:induction false} InsertKeepsOrder<T>(key: T -> int, xs: seq<T>, x: T)
    requires AscendsBy(key, xs)
    ensures AscendsBy(key, InsertBy(key, xs, x))
    ensures InsertBy(key, xs, x)[|xs|] == x
            || (|xs| > 0 && InsertBy(key, xs, x)[|xs|] == xs[|xs| - 1])
    decreases |xs|
  {
    if |xs| > 0 && key(x) < key(xs[|xs| - 1]) {
      InsertKeepsOrder(key, xs[..|xs| - 1], x);
    }
  }

  /** Sorting orders. */
  lemma {:induction false} SortOrders<T>(key: T -> int, xs: seq<T>)
    ensures AscendsBy(key, SortBy(key, xs))
    decreases |xs|
  {
    if |xs| > 0 {
      SortOrders(key, xs[..|xs| - 1]);
      InsertKeepsOrder(key, SortBy(key, xs[..|xs| - 1]), xs[|xs| - 1]);
    }
  }

  /** Sorting leaves what is ordered as it is. */
  lemma {:induction false} SortedIsFixed<T>(key: T -> int, xs: seq<T>)
    requires AscendsBy(key, xs)
    ensures SortBy(key, xs) == xs
    decreases |xs|
  {
    if |xs| > 0 {
      SortedIsFixed(key, xs[..|xs| - 1]);
    }
  }

  lemma {:induction false} LastIsLargest<T>(key: T -> int, xs: seq<T>)
    requires AscendsBy(key, xs)
    ensures forall i :: 0 <= i < |xs| ==> key(xs[i]) <= key(xs[|xs| - 1])
    decreases |xs|
  {
    if |xs| > 1 {
      var n := |xs| - 1;
      LastIsLargest(key, xs[..n]);
      assert forall i :: 0 <= i < n ==> xs[..n][i] == xs[i];
      assert key(xs[n - 1]) <= key(xs[n]);
    }
  }
}

/** The 95th percentile of the recent latencies. */
module Percentiles {
  import opened Sorting

  function AtMost(): (real, real) -> bool {
    (x, y) => x <= y
  }

  /** The position of the percentile in sorted order, counted from 1: 95% of the samples, rounded up. */
  function Index(n: nat): (i: nat)
    requires n > 0
    ensures 1 <= i <= n
    ensures 95 * n <= 100 * i < 95 * n + 100
  {
    (95 * n + 99) / 100
  }

  function P95(s: seq<real>): real
    requires s != []
  {
    Sorted(s, AtMost())[Index(|s|) - 1]
  }

  /** The samples that keep within a limit. */
  function Within(s: seq<real>, limit: real): (n: nat)
    ensures n <= |s|
  {
    if s == [] then 0 else Within(s[..|s| - 1], limit) + (if s[|s| - 1] <= limit then 1 else 0)
  }

  ghost predicate Ascending(s: seq<real>) {
    forall i, j :: 0 <= i < j < |s| ==> s[i] <= s[j]
  }

  lemma {:induction false} OneMoreWithin(s: seq<real>, x: real, limit: real)
    ensures Within(s + [x], limit) == Within(s, limit) + (if x <= limit then 1 else 0)
  {
    assert (s + [x])[..|s|] == s;
  }

  lemma {:induction false} InsertWithin(s: seq<real>, x: real, limit: real)
    ensures Within(Insert(s, x, AtMost()), limit) == Within(s, limit) + (if x <= limit then 1 else 0)
  {
    if s == [] || s[|s| - 1] <= x {
      OneMoreWithin(s, x, limit);
    } else {
      InsertWithin(s[..|s| - 1], x, limit);
      OneMoreWithin(Insert(s[..|s| - 1], x, AtMost()), s[|s| - 1], limit);
    }
  }

  lemma {:induction false} SortedWithin(s: seq<real>, limit: real)
    ensures Within(Sorted(s, AtMost()), limit) == Within(s, limit)
  {
    if s != [] {
      SortedWithin(s[..|s| - 1], limit);
      InsertWithin(Sorted(s[..|s| - 1], AtMost()), s[|s| - 1], limit);
    }
  }

  lemma {:induction false} SortedAscending(s: seq<real>)
    ensures Ascending(Sorted(s, AtMost()))
  {
    SortedIsOrdered(s, AtMost());
    var r := Sorted(s, AtMost());
    forall i, j | 0 <= i < j < |r| ensures r[i] <= r[j] {
      OrderedAt(r, AtMost(), i, j);
    }
  }

  lemma {:induction false} WithinAscending(s: seq<real>, limit: real, i: nat)
    requires Ascending(s) && i < |s|
    ensures s[i] <= limit <==> Within(s, limit) > i
  {
    var front, last := s[..|s| - 1], s[|s| - 1];
    if i < |s| - 1 {
      WithinAscending(front, limit, i);
    } else if last <= limit {
      AllWithin(s, limit);
    }
  }

  lemma {:induction false} AllWithin(s: seq<real>, limit: real)
    requires forall i :: 0 <= i < |s| ==> s[i] <= limit
    ensures Within(s, limit) == |s|
  {
    if s != [] {
      AllWithin(s[..|s| - 1], limit);
    }
  }

  /** The percentile exceeds a limit exactly when fewer than 95% of the samples keep within it. */
  lemma {:induction false} PercentileMeaning(s: seq<real>, limit: real)
    requires s != []
    ensures P95(s) > limit <==> 100 * Within(s, limit) < 95 * |s|
  {
    SortedAscending(s);
    SortedWithin(s, limit);
    WithinAscending(Sorted(s, AtMost()), limit, Index(|s|) - 1);
  }
}

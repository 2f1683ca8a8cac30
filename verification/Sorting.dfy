/** Insertion sort by any total order. */
module Sorting {
  ghost predicate TotalOrder<T(!new)>(le: (T, T) -> bool) {
    && (forall a, b :: le(a, b) || le(b, a))
    && (forall a, b, c :: le(a, b) && le(b, c) ==> le(a, c))
  }

  ghost predicate Ordered<T>(s: seq<T>, le: (T, T) -> bool) {
    s == [] || (Ordered(s[..|s| - 1], le) && AllBefore(s[..|s| - 1], s[|s| - 1], le))
  }

  ghost predicate AllBefore<T>(s: seq<T>, x: T, le: (T, T) -> bool) {
    forall i :: 0 <= i < |s| ==> le(s[i], x)
  }

  function Insert<T>(s: seq<T>, x: T, le: (T, T) -> bool): (r: seq<T>)
    ensures |r| == |s| + 1
  {
    if s == [] || le(s[|s| - 1], x) then s + [x] else Insert(s[..|s| - 1], x, le) + [s[|s| - 1]]
  }

  function Sorted<T>(s: seq<T>, le: (T, T) -> bool): (r: seq<T>)
    ensures |r| == |s|
  {
    if s == [] then [] else Insert(Sorted(s[..|s| - 1], le), s[|s| - 1], le)
  }

  lemma {:induction false} InsertAdds<T>(s: seq<T>, x: T, le: (T, T) -> bool)
    ensures multiset(Insert(s, x, le)) == multiset(s) + multiset{x}
  {
    if s != [] && !le(s[|s| - 1], x) {
      InsertAdds(s[..|s| - 1], x, le);
      assert s == s[..|s| - 1] + [s[|s| - 1]];
    }
  }

  /** Sorting moves elements about. */
  lemma {:induction false} SortedIsPermutation<T>(s: seq<T>, le: (T, T) -> bool)
    ensures multiset(Sorted(s, le)) == multiset(s)
  {
    if s != [] {
      SortedIsPermutation(s[..|s| - 1], le);
      InsertAdds(Sorted(s[..|s| - 1], le), s[|s| - 1], le);
      assert s == s[..|s| - 1] + [s[|s| - 1]];
    }
  }

  lemma {:induction false} OneMoreOrdered<T>(s: seq<T>, x: T, le: (T, T) -> bool)
    requires Ordered(s, le) && AllBefore(s, x, le)
    ensures Ordered(s + [x], le)
  {
    assert (s + [x])[..|s|] == s;
  }

  lemma {:induction false} InsertAllBefore<T>(s: seq<T>, x: T, y: T, le: (T, T) -> bool)
    requires AllBefore(s, y, le) && le(x, y)
    ensures AllBefore(Insert(s, x, le), y, le)
  {
    if s != [] && !le(s[|s| - 1], x) {
      InsertAllBefore(s[..|s| - 1], x, y, le);
    }
  }

  lemma {:induction false} BeforeLast<T(!new)>(s: seq<T>, x: T, le: (T, T) -> bool)
    requires TotalOrder(le) && s != [] && Ordered(s, le) && le(s[|s| - 1], x)
    ensures AllBefore(s, x, le)
  {
    var last := s[|s| - 1];
    forall i | 0 <= i < |s| ensures le(s[i], x) {
      assert i < |s| - 1 ==> le(s[..|s| - 1][i], last);
    }
  }

  lemma {:induction false} InsertOrdered<T(!new)>(s: seq<T>, x: T, le: (T, T) -> bool)
    requires TotalOrder(le) && Ordered(s, le)
    ensures Ordered(Insert(s, x, le), le)
  {
    if s == [] {
      OneMoreOrdered(s, x, le);
    } else if le(s[|s| - 1], x) {
      BeforeLast(s, x, le);
      OneMoreOrdered(s, x, le);
    } else {
      var front, last := s[..|s| - 1], s[|s| - 1];
      InsertOrdered(front, x, le);
      InsertAllBefore(front, x, last, le);
      OneMoreOrdered(Insert(front, x, le), last, le);
    }
  }

  lemma {:induction false} SortedIsOrdered<T(!new)>(s: seq<T>, le: (T, T) -> bool)
    requires TotalOrder(le)
    ensures Ordered(Sorted(s, le), le)
  {
    if s != [] {
      SortedIsOrdered(s[..|s| - 1], le);
      InsertOrdered(Sorted(s[..|s| - 1], le), s[|s| - 1], le);
    }
  }

  lemma {:induction false} SameElements<T>(s: seq<T>, le: (T, T) -> bool, x: T)
    ensures x in Sorted(s, le) <==> x in s
  {
    SortedIsPermutation(s, le);
    assert x in multiset(s) <==> x in multiset(Sorted(s, le));
  }

  /** In an ordered sequence every element comes before those after it. */
  lemma {:induction false} OrderedAt<T>(s: seq<T>, le: (T, T) -> bool, i: nat, j: nat)
    requires Ordered(s, le) && i < j < |s|
    ensures le(s[i], s[j])
  {
    if j < |s| - 1 {
      OrderedAt(s[..|s| - 1], le, i, j);
    } else {
      assert s[..|s| - 1][i] == s[i];
    }
  }
}

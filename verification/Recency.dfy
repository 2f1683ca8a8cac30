/**
  Which keys of an ordered dictionary are newer than a given one.  An item outlives an eviction exactly
  when fewer keys than the bound are newer.
*/
module Recency {
  import opened IdempotencyStores

  predicate NoKeyTwice<V>(d: seq<Item<V>>) {
    d == [] || (!Has(d[..|d| - 1], d[|d| - 1].key) && NoKeyTwice(d[..|d| - 1]))
  }

  /** The keys after the last item of `k`. */
  function Since<V>(d: seq<Item<V>>, k: Key): (s: set<Key>)
    requires Has(d, k)
    ensures k !in s && |s| < |d|
  {
    if d[|d| - 1].key == k then {} else Since(d[..|d| - 1], k) + {d[|d| - 1].key}
  }

  lemma {:induction false} Front<V>(d: seq<Item<V>>, x: Item<V>)
    ensures (d + [x])[..|d + [x]| - 1] == d && (d + [x])[|d + [x]| - 1] == x
  {
  }

  // ------------------------------------------------------------------ values

  lemma {:induction false} WithoutLookup<V>(d: seq<Item<V>>, k: Key, other: Key)
    requires Has(d, other) && other != k
    ensures Has(Without(d, k), other) && Lookup(Without(d, k), other) == Lookup(d, other)
  {
    var front, last := d[..|d| - 1], d[|d| - 1];
    WithoutHas(d, k, other);
    Front(Without(front, k), last);
    if last.key != other {
      WithoutLookup(front, k, other);
    }
  }

  lemma {:induction false} LatestLookup<V>(d: seq<Item<V>>, k: Key, v: V, other: Key)
    requires Has(Latest(d, k, v), other)
    ensures other == k ==> Lookup(Latest(d, k, v), other) == v
    ensures other != k ==> Has(d, other) && Lookup(Latest(d, k, v), other) == Lookup(d, other)
  {
    LatestHas(d, k, v, other);
    Front(Without(d, k), Item(k, v));
    if other != k {
      WithoutLookup(d, k, other);
    }
  }

  lemma {:induction false} TailLookup<V>(d: seq<Item<V>>, k: Key)
    requires d != [] && Has(d[1..], k)
    ensures Has(d, k) && Lookup(d, k) == Lookup(d[1..], k) && Since(d, k) == Since(d[1..], k)
  {
    if d[|d| - 1].key != k {
      assert d[1..][..|d| - 2] == d[..|d| - 1][1..];
      TailLookup(d[..|d| - 1], k);
    }
  }

  lemma {:induction false} NewestLookup<V>(d: seq<Item<V>>, max: nat, k: Key)
    requires Has(Newest(d, max), k)
    ensures Has(d, k) && Lookup(d, k) == Lookup(Newest(d, max), k) && Since(d, k) == Since(Newest(d, max), k)
    decreases |d|
  {
    if |d| > max {
      NewestLookup(d[1..], max, k);
      TailLookup(d, k);
    }
  }

  // ------------------------------------------------------------------ no key twice

  lemma {:induction false} WithoutOnce<V>(d: seq<Item<V>>, k: Key)
    requires NoKeyTwice(d)
    ensures NoKeyTwice(Without(d, k))
  {
    if d != [] {
      var front, last := d[..|d| - 1], d[|d| - 1];
      WithoutOnce(front, k);
      WithoutHas(front, k, last.key);
      Front(Without(front, k), last);
    }
  }

  lemma {:induction false} LatestOnce<V>(d: seq<Item<V>>, k: Key, v: V)
    requires NoKeyTwice(d)
    ensures NoKeyTwice(Latest(d, k, v))
  {
    WithoutOnce(d, k);
    WithoutHas(d, k, k);
    Front(Without(d, k), Item(k, v));
  }

  lemma {:induction false} TailOnce<V>(d: seq<Item<V>>)
    requires NoKeyTwice(d) && d != []
    ensures NoKeyTwice(d[1..]) && !Has(d[1..], d[0].key)
  {
    if |d| > 1 {
      var front, last := d[..|d| - 1], d[|d| - 1];
      TailOnce(front);
      assert d[1..][..|d| - 2] == front[1..];
      if Has(front[1..], last.key) {
        TailHas(front, last.key);
      }
      FirstHas(front);
    }
  }

  lemma {:induction false} FirstHas<V>(d: seq<Item<V>>)
    requires d != []
    ensures Has(d, d[0].key)
  {
    if |d| > 1 {
      FirstHas(d[..|d| - 1]);
    }
  }

  lemma {:induction false} NewestOnce<V>(d: seq<Item<V>>, max: nat)
    requires NoKeyTwice(d)
    ensures NoKeyTwice(Newest(d, max))
    decreases |d|
  {
    if |d| > max {
      TailOnce(d);
      NewestOnce(d[1..], max);
    }
  }

  // ------------------------------------------------------------------ newer keys

  lemma {:induction false} WithoutSince<V>(d: seq<Item<V>>, k: Key, other: Key)
    requires Has(d, k) && other != k
    ensures Has(Without(d, other), k) && Since(Without(d, other), k) == Since(d, k) - {other}
  {
    var front, last := d[..|d| - 1], d[|d| - 1];
    WithoutHas(d, other, k);
    Front(Without(front, other), last);
    if last.key != k {
      WithoutSince(front, k, other);
    }
  }

  /** A key becomes the newest. */
  lemma {:induction false} LatestSince<V>(d: seq<Item<V>>, k: Key, other: Key, v: V)
    requires Has(d, k) || other == k
    ensures Has(Latest(d, other, v), k)
    ensures Since(Latest(d, other, v), k) == if other == k then {} else Since(d, k) + {other}
  {
    LatestHas(d, other, v, k);
    Front(Without(d, other), Item(other, v));
    if other != k {
      WithoutSince(d, k, other);
    }
  }

  lemma {:induction false} OldestSince<V>(d: seq<Item<V>>)
    requires d != [] && NoKeyTwice(d)
    ensures Has(d, d[0].key) && |Since(d, d[0].key)| == |d| - 1
  {
    FirstHas(d);
    if |d| > 1 {
      var front, last := d[..|d| - 1], d[|d| - 1];
      OldestSince(front);
      if last.key in Since(front, d[0].key) {
        SinceHas(front, d[0].key, last.key);
      }
    }
  }

  lemma {:induction false} SinceHas<V>(d: seq<Item<V>>, k: Key, other: Key)
    requires Has(d, k) && other in Since(d, k)
    ensures Has(d, other)
  {
    if d[|d| - 1].key != other {
      SinceHas(d[..|d| - 1], k, other);
    }
  }

  lemma {:induction false} OnlyFirst<V>(d: seq<Item<V>>, k: Key)
    requires d != [] && Has(d, k) && !Has(d[1..], k)
    ensures d[0].key == k
  {
    if |d| > 1 {
      assert d[1..][..|d| - 2] == d[..|d| - 1][1..];
      OnlyFirst(d[..|d| - 1], k);
    }
  }

  /** An eviction spares a key exactly when fewer keys than the bound are newer. */
  lemma {:induction false} SparedExactly<V>(d: seq<Item<V>>, max: nat, k: Key)
    requires NoKeyTwice(d) && Has(d, k)
    ensures Has(Newest(d, max), k) <==> |Since(d, k)| < max
    decreases |d|
  {
    if |d| > max {
      TailOnce(d);
      if Has(d[1..], k) {
        TailLookup(d, k);
        SparedExactly(d[1..], max, k);
      } else {
        OnlyFirst(d, k);
        OldestSince(d);
        if Has(Newest(d[1..], max), k) {
          NewestHas(d[1..], max, k);
        }
      }
    }
  }

  lemma {:induction false} WithoutShorter<V>(d: seq<Item<V>>, k: Key)
    requires Has(d, k)
    ensures |Without(d, k)| < |d|
  {
    if d[|d| - 1].key != k {
      WithoutShorter(d[..|d| - 1], k);
    }
  }

  /** An insertion with eviction: the dictionary is bounded, and what it does to the order of the keys. */
  lemma {:induction false} PutOnce<V>(d: seq<Item<V>>, k: Key, v: V, max: nat)
    requires NoKeyTwice(d)
    ensures NoKeyTwice(Newest(Latest(d, k, v), max))
    ensures max > 0 ==> Has(Newest(Latest(d, k, v), max), k) && Since(Newest(Latest(d, k, v), max), k) == {}
  {
    LatestOnce(d, k, v);
    NewestOnce(Latest(d, k, v), max);
    LatestSince(d, k, k, v);
    SparedExactly(Latest(d, k, v), max, k);
    if max > 0 {
      NewestLookup(Latest(d, k, v), max, k);
    }
  }

  lemma {:induction false} PutSince<V>(d: seq<Item<V>>, k: Key, other: Key, v: V, max: nat)
    requires NoKeyTwice(d) && Has(d, k) && other != k
    ensures var r, newer := Newest(Latest(d, other, v), max), Since(d, k) + {other};
            (Has(r, k) <==> |newer| < max) && (Has(r, k) ==> Since(r, k) == newer)
  {
    LatestSince(d, k, other, v);
    LatestOnce(d, other, v);
    SparedExactly(Latest(d, other, v), max, k);
    if Has(Newest(Latest(d, other, v), max), k) {
      NewestLookup(Latest(d, other, v), max, k);
    }
  }
}

/**
  The idempotency store of the mock model: a bounded cache of responses, the handles of calls in
  flight, and the evidence of how often the model ran for a key.
*/
module IdempotencyStores {
  import opened Options

  type Key = string
  type Body = string

  // ------------------------------------------------------------------ ordered dictionaries

  /** Oldest item first, no key twice. */
  datatype Item<V> = Item(key: Key, value: V)

  predicate Has<V>(d: seq<Item<V>>, k: Key) {
    d != [] && (d[|d| - 1].key == k || Has(d[..|d| - 1], k))
  }

  function Lookup<V>(d: seq<Item<V>>, k: Key): (v: V)
    requires Has(d, k)
    ensures Item(k, v) in d
  {
    if d[|d| - 1].key == k then d[|d| - 1].value else Lookup(d[..|d| - 1], k)
  }

  function Without<V>(d: seq<Item<V>>, k: Key): (r: seq<Item<V>>)
    ensures |r| <= |d|
    ensures forall x :: x in r ==> x in d
  {
    if d == [] then []
    else if d[|d| - 1].key == k then Without(d[..|d| - 1], k)
    else Without(d[..|d| - 1], k) + [d[|d| - 1]]
  }

  lemma {:induction false} OneMoreHas<V>(d: seq<Item<V>>, x: Item<V>, k: Key)
    ensures Has(d + [x], k) <==> x.key == k || Has(d, k)
  {
    assert (d + [x])[..|d|] == d && (d + [x])[|d|] == x;
  }

  lemma {:induction false} WithoutHas<V>(d: seq<Item<V>>, k: Key, other: Key)
    ensures Has(Without(d, k), other) <==> Has(d, other) && other != k
  {
    if d != [] {
      var front, last := d[..|d| - 1], d[|d| - 1];
      WithoutHas(front, k, other);
      if last.key != k {
        OneMoreHas(Without(front, k), last, other);
      }
    }
  }

  /** Assignment followed by `move_to_end`. */
  function Latest<V>(d: seq<Item<V>>, k: Key, v: V): (r: seq<Item<V>>)
    ensures forall x :: x in r ==> x in d || x == Item(k, v)
  {
    Without(d, k) + [Item(k, v)]
  }

  lemma {:induction false} LatestHas<V>(d: seq<Item<V>>, k: Key, v: V, other: Key)
    ensures Has(Latest(d, k, v), other) <==> Has(d, other) || other == k
  {
    WithoutHas(d, k, other);
    OneMoreHas(Without(d, k), Item(k, v), other);
  }

  /** The items that stay when the oldest are dropped until `max` are left. */
  function Newest<V>(d: seq<Item<V>>, max: nat): (r: seq<Item<V>>)
    ensures |r| <= max && (|d| <= max ==> r == d)
    ensures forall x :: x in r ==> x in d
    decreases |d|
  {
    if |d| <= max then d else Newest(d[1..], max)
  }

  lemma {:induction false} NewestHas<V>(d: seq<Item<V>>, max: nat, k: Key)
    requires Has(Newest(d, max), k)
    ensures Has(d, k)
    decreases |d|
  {
    if |d| > max {
      NewestHas(d[1..], max, k);
      TailHas(d, k);
    }
  }

  lemma {:induction false} TailHas<V>(d: seq<Item<V>>, k: Key)
    requires d != [] && Has(d[1..], k)
    ensures Has(d, k)
  {
    if d[|d| - 1].key != k {
      assert d[1..][..|d| - 2] == d[..|d| - 1][1..];
      TailHas(d[..|d| - 1], k);
    }
  }

  // ------------------------------------------------------------------ the store

  /** How a leader's call ended. */
  datatype Outcome = Answer(body: Body) | Error(error: string)

  datatype Cached = Cached(storedAt: real, body: Body)

  datatype Limits = Limits(ttl: real, maxEntries: nat)

  /** A handle is known by the request that opened it; `settled` holds the handles whose event is set. */
  datatype Store = Store(cache: seq<Item<Cached>>, inflight: map<Key, nat>, settled: map<nat, Outcome>,
                         executions: seq<Item<nat>>, duplicates: map<Key, nat>)

  function Expired(limits: Limits, s: Store, k: Key, now: real): bool {
    Has(s.cache, k) && now - Lookup(s.cache, k).storedAt > limits.ttl
  }

  function Fetched(limits: Limits, s: Store, k: Key, now: real): (Store, Option<Body>) {
    if !Has(s.cache, k) then (s, None)
    else if Expired(limits, s, k, now) then (s.(cache := Without(s.cache, k)), None)
    else
      var hit := Lookup(s.cache, k);
      (s.(cache := Latest(s.cache, k, hit)), Some(hit.body))
  }

  function Stored(limits: Limits, s: Store, k: Key, body: Body, now: real): Store {
    s.(cache := Newest(Latest(s.cache, k, Cached(now, body)), limits.maxEntries))
  }

  /** The leader of `k` after a request has asked; the request itself, if there was none. */
  function Begun(s: Store, k: Key, request: nat): (Store, nat) {
    if k in s.inflight then (s, s.inflight[k])
    else (s.(inflight := s.inflight[k := request]), request)
  }

  /** `finish` and `abandon`: the handle leaves the table and its followers are released. */
  function Settled(s: Store, k: Key, outcome: Outcome): Store {
    if k !in s.inflight then s
    else s.(inflight := s.inflight - {k}, settled := s.settled[s.inflight[k] := outcome])
  }

  function CountOf(s: Store, k: Key): nat {
    if Has(s.executions, k) then Lookup(s.executions, k) else 0
  }

  function Recorded(limits: Limits, s: Store, k: Key): (Store, nat) {
    var count := CountOf(s, k) + 1;
    (s.(executions := Newest(Latest(s.executions, k, count), limits.maxEntries),
        duplicates := if count > 1 then s.duplicates[k := count] else s.duplicates),
     count)
  }

  function Cleared(s: Store): Store {
    s.(cache := [], executions := [], duplicates := map[])
  }

  class IdempotencyStore {
    const limits: Limits
    var cache: seq<Item<Cached>>
    var inflight: map<Key, nat>
    var settled: map<nat, Outcome>
    var executions: seq<Item<nat>>
    var duplicates: map<Key, nat>

    ghost function Value(): Store
      reads this
    {
      Store(cache, inflight, settled, executions, duplicates)
    }

    constructor (limits: Limits)
      ensures this.limits == limits && Value() == Store([], map[], map[], [], map[])
    {
      this.limits := limits;
      cache, inflight, settled, executions, duplicates := [], map[], map[], [], map[];
    }

    method Get(k: Key, now: real) returns (r: Option<Body>)
      modifies this
      ensures (Value(), r) == Fetched(limits, old(Value()), k, now)
    {
      if !Has(cache, k) {
        return None;
      }
      var entry := Lookup(cache, k);
      if now - entry.storedAt > limits.ttl {
        cache := Without(cache, k);
        return None;
      }
      cache := Latest(cache, k, entry);
      return Some(entry.body);
    }

    method Put(k: Key, body: Body, now: real)
      modifies this
      ensures Value() == Stored(limits, old(Value()), k, body, now)
    {
      cache := Evict(Latest(cache, k, Cached(now, body)), limits.maxEntries);
    }

    method Begin(k: Key, request: nat) returns (leads: bool, leader: nat)
      modifies this
      ensures (Value(), leader) == Begun(old(Value()), k, request)
      ensures leads <==> k !in old(inflight)
    {
      if k in inflight {
        return false, inflight[k];
      }
      inflight := inflight[k := request];
      return true, request;
    }

    method Finish(k: Key, body: Body)
      modifies this
      ensures Value() == Settled(old(Value()), k, Answer(body))
    {
      if k in inflight {
        settled := settled[inflight[k] := Answer(body)];
        inflight := inflight - {k};
      }
    }

    method Abandon(k: Key, error: string)
      modifies this
      ensures Value() == Settled(old(Value()), k, Error(error))
    {
      if k in inflight {
        settled := settled[inflight[k] := Error(error)];
        inflight := inflight - {k};
      }
    }

    method RecordExecution(k: Key) returns (count: nat)
      modifies this
      ensures (Value(), count) == Recorded(limits, old(Value()), k)
    {
      count := 1;
      if Has(executions, k) {
        count := Lookup(executions, k) + 1;
      }
      executions := Evict(Latest(executions, k, count), limits.maxEntries);
      if count > 1 {
        duplicates := duplicates[k := count];
      }
    }

    method Reset()
      modifies this
      ensures Value() == Cleared(old(Value()))
    {
      cache, executions, duplicates := [], [], map[];
    }
  }

  /** `_evict`. */
  method Evict<V>(d: seq<Item<V>>, max: nat) returns (r: seq<Item<V>>)
    ensures r == Newest(d, max)
  {
    r := d;
    while |r| > max
      invariant Newest(r, max) == Newest(d, max)
    {
      r := r[1..];
    }
  }
}

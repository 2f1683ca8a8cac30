/**
  When a request is answered from the cache, in terms of the requests and successes before it and their
  times; and when a second execution is noticed.
*/
module Replays {
  import opened Options
  import opened Sets
  import opened IdempotencyStores
  import opened Recency
  import opened SingleFlight

  // ------------------------------------------------------------------ runs and their clock

  /** The clock of the actions that read it does not go back. */
  ghost predicate Timely(run: Run) {
    forall i, j :: 0 <= i < j < |run.actions| && Timed(run.actions[i]) && Timed(run.actions[j]) ==>
      run.actions[i].now <= run.actions[j].now
  }

  predicate Timed(a: Action) {
    a.Arrive? || a.Succeed?
  }

  /** Action `i` stores a response for `k`: a leader of that key succeeds. */
  ghost predicate Stores(run: Run, i: nat, k: Key)
    requires i < |run.actions| < |run.states|
  {
    Executes(run.states[i], run.actions[i], k)
  }

  /** Action `i` is a request for `k` that is answered with a stored body. */
  ghost predicate Replayed(run: Run, i: nat, k: Key)
    requires i < |run.actions| < |run.states|
  {
    && run.actions[i].Arrive? && run.actions[i].key == k
    && var requests := run.states[i + 1].requests; requests != [] && requests[|requests| - 1].role == Replay
  }

  /** The same, with the body. */
  ghost predicate RepliedWith(run: Run, i: nat, k: Key, body: Body)
    requires i < |run.actions| < |run.states|
  {
    && run.actions[i].Arrive? && run.actions[i].key == k
    && run.states[i + 1].requests == run.states[i].requests + [Request(k, Replay, Some(Answer(body)))]
  }

  /** Action `i` is the last before `n` to store `k`, and nothing was reset since. */
  ghost predicate LastStored(run: Run, i: nat, n: nat, k: Key)
    requires n <= |run.actions| < |run.states|
  {
    i < n && Stores(run, i, k) && forall q :: i < q < n ==> !Stores(run, q, k) && !run.actions[q].Clear?
  }

  /** The key that an action is about. */
  function KeyAt(run: Run, i: nat): Key
    requires i < |run.actions| < |run.states|
  {
    match run.actions[i]
    case Arrive(key, _) => key
    case Succeed(r, _, _) => if r < |run.states[i].requests| then run.states[i].requests[r].key else ""
    case _ => ""
  }

  /** Action `i` makes `k` the newest key of the cache. */
  ghost predicate Uses(run: Run, i: nat, k: Key)
    requires i < |run.actions| < |run.states|
  {
    Stores(run, i, k) || Replayed(run, i, k)
  }

  ghost predicate UsesOther(run: Run, i: nat, k: Key)
    requires i < |run.actions| < |run.states|
  {
    KeyAt(run, i) != k && Uses(run, i, KeyAt(run, i))
  }

  /** The keys other than `k` that are stored or replayed after action `m` and before action `n`. */
  ghost function UsedSince(run: Run, k: Key, m: nat, n: nat): set<Key>
    requires n <= |run.actions| < |run.states|
  {
    set q: nat | m < q < n && UsesOther(run, q, k) :: KeyAt(run, q)
  }

  lemma {:induction false} UsedNext(run: Run, k: Key, m: nat, n: nat)
    requires m < n < |run.actions| < |run.states|
    ensures UsedSince(run, k, m, n + 1) ==
            if UsesOther(run, n, k) then UsedSince(run, k, m, n) + {KeyAt(run, n)} else UsedSince(run, k, m, n)
    ensures |UsedSince(run, k, m, n)| <= |UsedSince(run, k, m, n + 1)|
  {
    SubsetSize(UsedSince(run, k, m, n), UsedSince(run, k, m, n + 1));
  }

  // ------------------------------------------------------------------ one step of the cache

  function Cache(run: Run, i: nat): seq<Item<Cached>>
    requires i < |run.states|
  {
    run.states[i].store.cache
  }

  /** What an action does to the cache. */
  lemma {:induction false} CacheNext(limits: Limits, run: Run, i: nat)
    requires IsRun(limits, run) && i < |run.actions|
    ensures var a, d := run.actions[i], Cache(run, i);
            Cache(run, i + 1) ==
            match a
            case Arrive(k, now) =>
              if !Has(d, k) then d
              else if now - Lookup(d, k).storedAt > limits.ttl then Without(d, k)
              else Latest(d, k, Lookup(d, k))
            case Succeed(r, body, now) =>
              assert StepAt(limits, run, i);
              Newest(Latest(d, run.states[i].requests[r].key, Cached(now, body)), limits.maxEntries)
            case Clear => []
            case _ => d
  {
    assert StepAt(limits, run, i);
  }

  /** A request is answered from the cache exactly when a response is there and is not too old. */
  lemma {:induction false} HitExactly(limits: Limits, run: Run, i: nat)
    requires IsRun(limits, run) && i < |run.actions| && run.actions[i].Arrive?
    ensures var k, now, d := run.actions[i].key, run.actions[i].now, Cache(run, i);
            && (Replayed(run, i, k) <==> Has(d, k) && now - Lookup(d, k).storedAt <= limits.ttl)
            && (Replayed(run, i, k) ==> RepliedWith(run, i, k, Lookup(d, k).body))
  {
    assert StepAt(limits, run, i);
  }

  lemma {:induction false} StoredValue(limits: Limits, run: Run, k: Key, n: nat)
    requires IsRun(limits, run) && n < |run.actions| && Has(Cache(run, n + 1), k) && Stores(run, n, k)
    ensures Lookup(Cache(run, n + 1), k) == Cached(run.actions[n].now, run.actions[n].body)
  {
    CacheNext(limits, run, n);
    assert StepAt(limits, run, n);
    var a, d := run.actions[n], Cache(run, n);
    NewestLookup(Latest(d, k, Cached(a.now, a.body)), limits.maxEntries, k);
    LatestLookup(d, k, Cached(a.now, a.body), k);
  }

  lemma {:induction false} KeptValue(limits: Limits, run: Run, k: Key, n: nat)
    requires IsRun(limits, run) && n < |run.actions| && Has(Cache(run, n + 1), k) && !Stores(run, n, k)
    ensures Has(Cache(run, n), k) && Lookup(Cache(run, n + 1), k) == Lookup(Cache(run, n), k)
    ensures !run.actions[n].Clear?
  {
    CacheNext(limits, run, n);
    assert StepAt(limits, run, n);
    var a, d := run.actions[n], Cache(run, n);
    match a {
      case Arrive(key, now) =>
        WithoutHas(d, key, k);
        if Has(d, key) && key != k {
          if now - Lookup(d, key).storedAt > limits.ttl {
            WithoutLookup(d, key, k);
          } else {
            LatestLookup(d, key, Lookup(d, key), k);
          }
        } else if Has(d, key) {
          LatestLookup(d, key, Lookup(d, key), k);
        }
      case Succeed(r, body, now) =>
        var key := run.states[n].requests[r].key;
        NewestLookup(Latest(d, key, Cached(now, body)), limits.maxEntries, k);
        LatestLookup(d, key, Cached(now, body), k);
      case _ =>
    }
  }

  /** What is cached for a key is its last stored response. */
  lemma {:induction false} CachedIsLast(limits: Limits, run: Run, k: Key, n: nat) returns (i: nat)
    requires IsRun(limits, run) && n <= |run.actions| && Has(Cache(run, n), k)
    ensures LastStored(run, i, n, k) && Lookup(Cache(run, n), k) == Cached(run.actions[i].now, run.actions[i].body)
    decreases n
  {
    if Stores(run, n - 1, k) {
      i := n - 1;
      StoredValue(limits, run, k, n - 1);
    } else {
      KeptValue(limits, run, k, n - 1);
      i := CachedIsLast(limits, run, k, n - 1);
    }
  }

  lemma {:induction false} LastEarlier(run: Run, i: nat, n: nat, k: Key)
    requires n < |run.actions| < |run.states| && LastStored(run, i, n + 1, k) && i < n
    ensures LastStored(run, i, n, k)
  {
  }

  lemma {:induction false} LastIsUnique(run: Run, i: nat, j: nat, n: nat, k: Key)
    requires n <= |run.actions| < |run.states| && LastStored(run, i, n, k) && LastStored(run, j, n, k)
    ensures i == j
  {
  }

  lemma {:induction false} CacheOnceNext(limits: Limits, run: Run, n: nat)
    requires IsRun(limits, run) && n < |run.actions|
    requires NoKeyTwice(Cache(run, n)) && |Cache(run, n)| <= limits.maxEntries
    ensures NoKeyTwice(Cache(run, n + 1)) && |Cache(run, n + 1)| <= limits.maxEntries
  {
    CacheNext(limits, run, n);
    assert StepAt(limits, run, n);
    var a, d := run.actions[n], Cache(run, n);
    if a.Arrive? && Has(d, a.key) {
      WithoutOnce(d, a.key);
      WithoutShorter(d, a.key);
      LatestOnce(d, a.key, Lookup(d, a.key));
    } else if a.Succeed? {
      PutOnce(d, run.states[n].requests[a.r].key, Cached(a.now, a.body), limits.maxEntries);
    }
  }

  lemma {:induction false} CacheOnce(limits: Limits, run: Run, n: nat)
    requires IsRun(limits, run) && n <= |run.actions|
    ensures NoKeyTwice(Cache(run, n)) && |Cache(run, n)| <= limits.maxEntries
    decreases n
  {
    if n > 0 {
      CacheOnce(limits, run, n - 1);
      CacheOnceNext(limits, run, n - 1);
    }
  }

  // ------------------------------------------------------------------ how recent a key is

  /** A request that finds its response too old, and drops it. */
  ghost predicate Expires(run: Run, i: nat)
    requires i < |run.actions| < |run.states|
  {
    run.actions[i].Arrive? && Has(Cache(run, i), run.actions[i].key) && !Replayed(run, i, run.actions[i].key)
  }

  lemma {:induction false} UsedIsNewest(limits: Limits, run: Run, k: Key, m: nat)
    requires IsRun(limits, run) && m < |run.actions| && Uses(run, m, k) && limits.maxEntries > 0
    ensures Has(Cache(run, m + 1), k) && Since(Cache(run, m + 1), k) == {}
  {
    CacheNext(limits, run, m);
    CacheOnce(limits, run, m);
    assert StepAt(limits, run, m);
    var a, d := run.actions[m], Cache(run, m);
    if a.Arrive? {
      HitExactly(limits, run, m);
      LatestSince(d, k, k, Lookup(d, k));
    } else {
      PutOnce(d, k, Cached(a.now, a.body), limits.maxEntries);
    }
  }

  /** The newer keys once those of the next action are added. */
  ghost function Newer(run: Run, k: Key, n: nat): set<Key>
    requires n < |run.actions| < |run.states| && Has(Cache(run, n), k)
  {
    if UsesOther(run, n, k) then Since(Cache(run, n), k) + {KeyAt(run, n)} else Since(Cache(run, n), k)
  }

  lemma {:induction false} HitSince(limits: Limits, run: Run, k: Key, n: nat)
    requires IsRun(limits, run) && n < |run.actions| && Has(Cache(run, n), k)
    requires run.actions[n].Arrive? && run.actions[n].key != k && Replayed(run, n, run.actions[n].key)
    ensures Has(Cache(run, n + 1), k) && Since(Cache(run, n + 1), k) == Newer(run, k, n)
  {
    CacheNext(limits, run, n);
    HitExactly(limits, run, n);
    var d, key := Cache(run, n), run.actions[n].key;
    LatestSince(d, k, key, Lookup(d, key));
  }

  lemma {:induction false} MissSince(limits: Limits, run: Run, k: Key, n: nat)
    requires IsRun(limits, run) && n < |run.actions| && Has(Cache(run, n), k)
    requires run.actions[n].Arrive? && run.actions[n].key != k && !Replayed(run, n, run.actions[n].key)
    ensures Has(Cache(run, n + 1), k) && Since(Cache(run, n + 1), k) <= Newer(run, k, n)
    ensures !Expires(run, n) ==> Since(Cache(run, n + 1), k) == Newer(run, k, n)
  {
    CacheNext(limits, run, n);
    HitExactly(limits, run, n);
    if Has(Cache(run, n), run.actions[n].key) {
      WithoutSince(Cache(run, n), k, run.actions[n].key);
    }
  }

  lemma {:induction false} SuccessSince(limits: Limits, run: Run, k: Key, n: nat)
    requires IsRun(limits, run) && n < |run.actions| && Has(Cache(run, n), k)
    requires run.actions[n].Succeed? && !Stores(run, n, k)
    ensures Has(Cache(run, n + 1), k) <==> |Newer(run, k, n)| < limits.maxEntries
    ensures Has(Cache(run, n + 1), k) ==> Since(Cache(run, n + 1), k) == Newer(run, k, n)
  {
    CacheNext(limits, run, n);
    CacheOnce(limits, run, n);
    assert StepAt(limits, run, n);
    var a := run.actions[n];
    var key := run.states[n].requests[a.r].key;
    PutSince(Cache(run, n), k, key, Cached(a.now, a.body), limits.maxEntries);
  }

  /** The newer keys after an action that leaves `k` alone. */
  lemma {:induction false} SinceNext(limits: Limits, run: Run, k: Key, n: nat)
    requires IsRun(limits, run) && n < |run.actions| && Has(Cache(run, n), k) && !Stores(run, n, k)
    requires !run.actions[n].Clear? && !(run.actions[n].Arrive? && run.actions[n].key == k)
    ensures |Newer(run, k, n)| < limits.maxEntries ==> Has(Cache(run, n + 1), k)
    ensures Has(Cache(run, n + 1), k) ==> Since(Cache(run, n + 1), k) <= Newer(run, k, n)
    ensures Has(Cache(run, n + 1), k) && !Expires(run, n) ==> Since(Cache(run, n + 1), k) == Newer(run, k, n)
  {
    if run.actions[n].Arrive? {
      if Replayed(run, n, run.actions[n].key) {
        HitSince(limits, run, k, n);
      } else {
        MissSince(limits, run, k, n);
      }
    } else if run.actions[n].Succeed? {
      SuccessSince(limits, run, k, n);
    } else {
      CacheNext(limits, run, n);
    }
  }

  // ------------------------------------------------------------------ replays

  /** A replay is of the last stored response, which is at most the time to live old, with no reset since. */
  lemma {:induction false} ReplayIsFresh(limits: Limits, run: Run, k: Key, n: nat) returns (i: nat)
    requires IsRun(limits, run) && n < |run.actions| && Replayed(run, n, k)
    ensures LastStored(run, i, n, k) && run.actions[n].now - run.actions[i].now <= limits.ttl
    ensures RepliedWith(run, n, k, run.actions[i].body)
  {
    HitExactly(limits, run, n);
    i := CachedIsLast(limits, run, k, n);
  }

  /** The key is cached, and only keys used since action `m` are newer. */
  ghost predicate Recent(run: Run, k: Key, m: nat, n: nat)
    requires n <= |run.actions| < |run.states|
  {
    Has(Cache(run, n), k) && Since(Cache(run, n), k) <= UsedSince(run, k, m, n)
  }

  lemma {:induction false} RecentFirst(limits: Limits, run: Run, k: Key, m: nat)
    requires IsRun(limits, run) && m < |run.actions| && Uses(run, m, k) && limits.maxEntries > 0
    ensures Recent(run, k, m, m + 1)
  {
    UsedIsNewest(limits, run, k, m);
  }

  lemma {:induction false} OtherKeepsRecent(limits: Limits, run: Run, k: Key, m: nat, n: nat)
    requires IsRun(limits, run) && m < n < |run.actions| && Recent(run, k, m, n) && !Stores(run, n, k)
    requires !run.actions[n].Clear? && !(run.actions[n].Arrive? && run.actions[n].key == k)
    requires |UsedSince(run, k, m, n + 1)| < limits.maxEntries
    ensures Recent(run, k, m, n + 1)
  {
    UsedNext(run, k, m, n);
    SubsetSize(Newer(run, k, n), UsedSince(run, k, m, n + 1));
    SinceNext(limits, run, k, n);
  }

  /**
    The last success of `k` before action `n` is action `i`, and the key is used by action `m`.  All requests
    in between come within the time to live, and fewer other keys than the bound are used.
  */
  ghost predicate Undisturbed(limits: Limits, run: Run, k: Key, i: nat, m: nat, n: nat)
    requires n <= |run.actions| < |run.states|
  {
    && LastStored(run, i, n, k) && i <= m < n && Uses(run, m, k)
    && (forall q :: m < q < n && run.actions[q].Arrive? ==> run.actions[q].now - run.actions[i].now <= limits.ttl)
    && |UsedSince(run, k, m, n)| < limits.maxEntries
  }

  lemma {:induction false} UndisturbedBefore(limits: Limits, run: Run, k: Key, i: nat, m: nat, n: nat)
    requires n < |run.actions| < |run.states| && Undisturbed(limits, run, k, i, m, n + 1) && m < n
    ensures Undisturbed(limits, run, k, i, m, n)
  {
    UsedNext(run, k, m, n);
    LastEarlier(run, i, n, k);
  }

  lemma {:induction false} StaysRecent(limits: Limits, run: Run, k: Key, i: nat, m: nat, n: nat)
    requires IsRun(limits, run) && m < n < |run.actions|
    requires Undisturbed(limits, run, k, i, m, n + 1) && Recent(run, k, m, n)
    ensures Recent(run, k, m, n + 1)
  {
    if run.actions[n].Arrive? && run.actions[n].key == k {
      var j := CachedIsLast(limits, run, k, n);
      LastIsUnique(run, i, j, n, k);
      HitExactly(limits, run, n);
      UsedIsNewest(limits, run, k, n);
    } else {
      OtherKeepsRecent(limits, run, k, m, n);
    }
  }

  lemma {:induction false} StaysStep(limits: Limits, run: Run, k: Key, i: nat, m: nat, n: nat)
    requires IsRun(limits, run) && m < n < |run.actions| && Undisturbed(limits, run, k, i, m, n + 1)
    ensures Undisturbed(limits, run, k, i, m, n)
    ensures Recent(run, k, m, n) ==> Recent(run, k, m, n + 1)
  {
    UndisturbedBefore(limits, run, k, i, m, n);
    if Recent(run, k, m, n) {
      StaysRecent(limits, run, k, i, m, n);
    }
  }

  /** Then the response stays cached. */
  lemma {:induction false} StaysCached(limits: Limits, run: Run, k: Key, i: nat, m: nat, n: nat)
    requires IsRun(limits, run) && n <= |run.actions| && Undisturbed(limits, run, k, i, m, n)
    ensures Recent(run, k, m, n)
    decreases n
  {
    if n == m + 1 {
      RecentFirst(limits, run, k, m);
      assert Recent(run, k, m, n);
    } else {
      StaysStep(limits, run, k, i, m, n - 1);
      StaysCached(limits, run, k, i, m, n - 1);
      assert Recent(run, k, m, n);
    }
  }

  /** A request within the time to live of the last success of its key, with too few keys in between, is replayed. */
  lemma {:induction false} FreshIsReplayed(limits: Limits, run: Run, k: Key, i: nat, m: nat, n: nat)
    requires IsRun(limits, run) && Timely(run) && n < |run.actions| && LastStored(run, i, n, k)
    requires i <= m < n && Uses(run, m, k) && |UsedSince(run, k, m, n)| < limits.maxEntries
    requires run.actions[n].Arrive? && run.actions[n].key == k
    requires run.actions[n].now - run.actions[i].now <= limits.ttl
    ensures RepliedWith(run, n, k, run.actions[i].body)
  {
    StaysCached(limits, run, k, i, m, n);
    var j := CachedIsLast(limits, run, k, n);
    LastIsUnique(run, i, j, n, k);
    HitExactly(limits, run, n);
  }

  /** Action `m` is the last before action `n` to use `k`, and nothing expires in between. */
  ghost predicate LastUsed(run: Run, k: Key, i: nat, m: nat, n: nat)
    requires n <= |run.actions| < |run.states|
  {
    && LastStored(run, i, n, k) && i <= m < n && Uses(run, m, k)
    && forall q :: m < q < n ==> !Uses(run, q, k) && !Expires(run, q)
  }

  lemma {:induction false} SinceStep(limits: Limits, run: Run, k: Key, i: nat, m: nat, n: nat)
    requires IsRun(limits, run) && m < n < |run.actions| && LastUsed(run, k, i, m, n + 1)
    requires Has(Cache(run, n + 1), k)
    ensures LastUsed(run, k, i, m, n) && Has(Cache(run, n), k)
    ensures Since(Cache(run, n), k) == UsedSince(run, k, m, n) ==>
              Since(Cache(run, n + 1), k) == UsedSince(run, k, m, n + 1)
  {
    assert !Uses(run, n, k) && !Expires(run, n);
    LastEarlier(run, i, n, k);
    KeptValue(limits, run, k, n);
    UsedNext(run, k, m, n);
    SinceNext(limits, run, k, n);
  }

  /** Without expiries the newer keys are exactly those used since. */
  lemma {:induction false} SinceIsUsed(limits: Limits, run: Run, k: Key, i: nat, m: nat, n: nat)
    requires IsRun(limits, run) && n <= |run.actions| && LastUsed(run, k, i, m, n) && Has(Cache(run, n), k)
    ensures Since(Cache(run, n), k) == UsedSince(run, k, m, n)
    decreases n
  {
    if n == m + 1 {
      CacheOnce(limits, run, n);
      UsedIsNewest(limits, run, k, m);
      assert Since(Cache(run, n), k) == UsedSince(run, k, m, n);
    } else {
      SinceStep(limits, run, k, i, m, n - 1);
      SinceIsUsed(limits, run, k, i, m, n - 1);
      assert Since(Cache(run, n), k) == UsedSince(run, k, m, n);
    }
  }

  /**
    A request is replayed if and only if its key was stored at most the time to live ago and, since the key
    was last used, fewer other keys than the cache may hold were; as long as none of those expired.
  */
  lemma {:induction false} ReplayedExactly(limits: Limits, run: Run, k: Key, i: nat, m: nat, n: nat)
    requires IsRun(limits, run) && Timely(run) && n < |run.actions| && LastUsed(run, k, i, m, n)
    requires run.actions[n].Arrive? && run.actions[n].key == k
    ensures Replayed(run, n, k) <==>
            run.actions[n].now - run.actions[i].now <= limits.ttl && |UsedSince(run, k, m, n)| < limits.maxEntries
  {
    if Replayed(run, n, k) {
      var j := ReplayIsFresh(limits, run, k, n);
      LastIsUnique(run, i, j, n, k);
      HitExactly(limits, run, n);
      SinceIsUsed(limits, run, k, i, m, n);
      CacheOnce(limits, run, n);
    } else if run.actions[n].now - run.actions[i].now <= limits.ttl &&
              |UsedSince(run, k, m, n)| < limits.maxEntries {
      FreshIsReplayed(limits, run, k, i, m, n);
    }
  }

  // ------------------------------------------------------------------ duplicates

  function Counts(run: Run, i: nat): seq<Item<nat>>
    requires i < |run.states|
  {
    run.states[i].store.executions
  }

  /** The keys other than `k` whose leaders succeed after action `m` and before action `n`. */
  ghost function ExecutedSince(run: Run, k: Key, m: nat, n: nat): set<Key>
    requires n <= |run.actions| < |run.states|
  {
    set q: nat | m < q < n && StoresOther(run, q, k) :: KeyAt(run, q)
  }

  ghost predicate StoresOther(run: Run, i: nat, k: Key)
    requires i < |run.actions| < |run.states|
  {
    KeyAt(run, i) != k && Stores(run, i, KeyAt(run, i))
  }

  lemma {:induction false} CountsNext(limits: Limits, run: Run, i: nat)
    requires IsRun(limits, run) && i < |run.actions|
    ensures var a, d := run.actions[i], Counts(run, i);
            Counts(run, i + 1) ==
            match a
            case Succeed(r, _, _) =>
              assert StepAt(limits, run, i);
              var k := run.states[i].requests[r].key;
              CountUp(d, k, limits.maxEntries)
            case Clear => []
            case _ => d
  {
    assert StepAt(limits, run, i);
  }

  /** The counters after one more execution. */
  function CountUp(d: seq<Item<nat>>, k: Key, max: nat): seq<Item<nat>> {
    Newest(Latest(d, k, if Has(d, k) then Lookup(d, k) + 1 else 1), max)
  }

  lemma {:induction false} CountUpSince(d: seq<Item<nat>>, k: Key, other: Key, max: nat)
    requires NoKeyTwice(d) && Has(d, k) && other != k
    ensures var r, newer := CountUp(d, other, max), Since(d, k) + {other};
            if |newer| < max then Has(r, k) && Since(r, k) == newer else !Has(r, k)
  {
    PutSince(d, k, other, if Has(d, other) then Lookup(d, other) + 1 else 1, max);
  }

  /** The counters: no key twice, bounded, none at zero. */
  ghost predicate CountsFit(limits: Limits, d: seq<Item<nat>>) {
    NoKeyTwice(d) && |d| <= limits.maxEntries && forall x :: x in d ==> x.value >= 1
  }

  lemma {:induction false} CountsFitNext(limits: Limits, run: Run, n: nat)
    requires IsRun(limits, run) && n < |run.actions| && CountsFit(limits, Counts(run, n))
    ensures CountsFit(limits, Counts(run, n + 1))
  {
    CountsNext(limits, run, n);
    assert StepAt(limits, run, n);
    var a, d := run.actions[n], Counts(run, n);
    if a.Succeed? {
      var k := run.states[n].requests[a.r].key;
      PutOnce(d, k, if Has(d, k) then Lookup(d, k) + 1 else 1, limits.maxEntries);
    }
  }

  lemma {:induction false} CountsAlongRun(limits: Limits, run: Run, n: nat)
    requires IsRun(limits, run) && n <= |run.actions|
    ensures CountsFit(limits, Counts(run, n))
    decreases n
  {
    if n > 0 {
      CountsAlongRun(limits, run, n - 1);
      CountsFitNext(limits, run, n - 1);
    }
  }

  /** One action after the last success of `k`. */
  lemma {:induction false} CountedNext(limits: Limits, run: Run, k: Key, n: nat)
    requires IsRun(limits, run) && n < |run.actions| && Has(Counts(run, n), k) && StoresOther(run, n, k)
    ensures var newer := Since(Counts(run, n), k) + {KeyAt(run, n)};
            if |newer| < limits.maxEntries then Has(Counts(run, n + 1), k) && Since(Counts(run, n + 1), k) == newer
            else !Has(Counts(run, n + 1), k)
  {
    CountsNext(limits, run, n);
    CountsAlongRun(limits, run, n);
    assert StepAt(limits, run, n);
    CountUpSince(Counts(run, n), k, KeyAt(run, n), limits.maxEntries);
  }

  lemma {:induction false} ExecutedNext(run: Run, k: Key, m: nat, n: nat)
    requires m < n < |run.actions| < |run.states|
    ensures ExecutedSince(run, k, m, n + 1) ==
            if StoresOther(run, n, k) then ExecutedSince(run, k, m, n) + {KeyAt(run, n)}
            else ExecutedSince(run, k, m, n)
    ensures |ExecutedSince(run, k, m, n)| <= |ExecutedSince(run, k, m, n + 1)|
  {
    SubsetSize(ExecutedSince(run, k, m, n), ExecutedSince(run, k, m, n + 1));
  }

  /** The key is counted, and the keys executed since its last success are those that are newer. */
  ghost predicate Counted(run: Run, k: Key, i: nat, n: nat)
    requires n <= |run.actions| < |run.states|
  {
    Has(Counts(run, n), k) && Since(Counts(run, n), k) == ExecutedSince(run, k, i, n)
  }

  /** It is counted exactly when those keys are fewer than the bound. */
  ghost predicate CountedIfFew(limits: Limits, run: Run, k: Key, i: nat, n: nat)
    requires n <= |run.actions| < |run.states|
  {
    if |ExecutedSince(run, k, i, n)| < limits.maxEntries then Counted(run, k, i, n) else !Has(Counts(run, n), k)
  }

  ghost predicate CountedAfter(limits: Limits, run: Run, k: Key, i: nat, n: nat) {
    i < n <= |run.actions| < |run.states| && LastStored(run, i, n, k) ==> CountedIfFew(limits, run, k, i, n)
  }

  lemma {:induction false} CountedFirst(limits: Limits, run: Run, k: Key, i: nat)
    requires IsRun(limits, run) && i < |run.actions| && Stores(run, i, k)
    ensures CountedIfFew(limits, run, k, i, i + 1)
  {
    CountsNext(limits, run, i);
    CountsAlongRun(limits, run, i);
    CountsAlongRun(limits, run, i + 1);
    assert StepAt(limits, run, i);
    var d := Counts(run, i);
    PutOnce(d, k, if Has(d, k) then Lookup(d, k) + 1 else 1, limits.maxEntries);
  }

  lemma {:induction false} CountedStep(limits: Limits, run: Run, k: Key, i: nat, n: nat)
    requires IsRun(limits, run) && i < n < |run.actions| && Counted(run, k, i, n)
    requires !Stores(run, n, k) && !run.actions[n].Clear?
    ensures CountedIfFew(limits, run, k, i, n + 1)
  {
    ExecutedNext(run, k, i, n);
    CountsNext(limits, run, n);
    assert StepAt(limits, run, n);
    if run.actions[n].Succeed? {
      CountedNext(limits, run, k, n);
    } else {
      CountsAlongRun(limits, run, n);
    }
  }

  lemma {:induction false} UncountedStep(limits: Limits, run: Run, k: Key, i: nat, n: nat)
    requires IsRun(limits, run) && i < n < |run.actions| && !Stores(run, n, k)
    requires |ExecutedSince(run, k, i, n)| >= limits.maxEntries && !Has(Counts(run, n), k)
    ensures CountedIfFew(limits, run, k, i, n + 1)
  {
    ExecutedNext(run, k, i, n);
    Uncounted(limits, run, k, n);
  }

  lemma {:induction false} CountedAfterNext(limits: Limits, run: Run, k: Key, i: nat, n: nat)
    requires IsRun(limits, run) && i < n < |run.actions| && CountedAfter(limits, run, k, i, n)
    ensures CountedAfter(limits, run, k, i, n + 1)
  {
    if LastStored(run, i, n + 1, k) {
      LastEarlier(run, i, n, k);
      if |ExecutedSince(run, k, i, n)| < limits.maxEntries {
        CountedStep(limits, run, k, i, n);
      } else {
        UncountedStep(limits, run, k, i, n);
      }
    }
  }

  /** A key is still counted exactly when fewer other keys than the bound were executed since. */
  lemma {:induction false} CountedExactly(limits: Limits, run: Run, k: Key, i: nat, n: nat)
    requires IsRun(limits, run) && i < n <= |run.actions|
    ensures CountedAfter(limits, run, k, i, n)
    decreases n
  {
    if n == i + 1 {
      if Stores(run, i, k) {
        CountedFirst(limits, run, k, i);
      }
    } else {
      CountedExactly(limits, run, k, i, n - 1);
      CountedAfterNext(limits, run, k, i, n - 1);
    }
  }

  /** Only a success of the key makes it counted. */
  lemma {:induction false} Uncounted(limits: Limits, run: Run, k: Key, n: nat)
    requires IsRun(limits, run) && n < |run.actions| && !Has(Counts(run, n), k) && !Stores(run, n, k)
    ensures !Has(Counts(run, n + 1), k)
  {
    CountsNext(limits, run, n);
    assert StepAt(limits, run, n);
    var a, d := run.actions[n], Counts(run, n);
    if a.Succeed? {
      var key := run.states[n].requests[a.r].key;
      var v := if Has(d, key) then Lookup(d, key) + 1 else 1;
      LatestHas(d, key, v, k);
      if Has(Newest(Latest(d, key, v), limits.maxEntries), k) {
        NewestHas(Latest(d, key, v), limits.maxEntries, k);
      }
    }
  }

  lemma {:induction false} CountedOnce(limits: Limits, run: Run, k: Key, n: nat) returns (i: nat)
    requires IsRun(limits, run) && n <= |run.actions| && Has(Counts(run, n), k)
    ensures LastStored(run, i, n, k)
    decreases n
  {
    if Stores(run, n - 1, k) {
      i := n - 1;
    } else {
      CountsNext(limits, run, n - 1);
      if !Has(Counts(run, n - 1), k) {
        Uncounted(limits, run, k, n - 1);
      }
      i := CountedOnce(limits, run, k, n - 1);
    }
  }

  /**
    A success of `k` is reported as a duplicate if and only if `k` has succeeded before, nothing was reset
    since, and fewer other keys than the bound have succeeded since.
  */
  lemma {:induction false} NoticedExactly(limits: Limits, run: Run, k: Key, n: nat)
    requires IsRun(limits, run) && n < |run.actions| && Stores(run, n, k)
    ensures Reports(run, n, k) <==>
            exists i :: LastStored(run, i, n, k) && |ExecutedSince(run, k, i, n)| < limits.maxEntries
  {
    ReportsCounted(limits, run, k, n);
    if Has(Counts(run, n), k) {
      var i := CountedOnce(limits, run, k, n);
      CountedExactly(limits, run, k, i, n);
    }
    forall i | LastStored(run, i, n, k) && |ExecutedSince(run, k, i, n)| < limits.maxEntries
      ensures Has(Counts(run, n), k)
    {
      CountedExactly(limits, run, k, i, n);
    }
  }

  lemma {:induction false} ReportsCounted(limits: Limits, run: Run, k: Key, n: nat)
    requires IsRun(limits, run) && n < |run.actions| && Stores(run, n, k)
    ensures Reports(run, n, k) <==> Has(Counts(run, n), k)
  {
    assert StepAt(limits, run, n);
    CountsAlongRun(limits, run, n);
  }

  /** The success is noted, with the number of executions that are counted. */
  ghost predicate Reports(run: Run, n: nat, k: Key)
    requires n < |run.actions| < |run.states|
  {
    && Has(Counts(run, n), k)
    && run.states[n + 1].store.duplicates == run.states[n].store.duplicates[k := Lookup(Counts(run, n), k) + 1]
  }
}

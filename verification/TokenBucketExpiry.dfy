/**
  What the expiry of an idle bucket does to its promises.  A missing bucket starts full, and that is
  safe exactly as long as the hash outlives the time in which the deepest debt fills up.
*/
module TokenBucketExpiry {
  import opened Reals
  import opened TokenBuckets

  // ------------------------------------------------------------------ longer runs

  ghost predicate Follows(run: Run, c: Call) {
    run.calls != [] ==> run.calls[|run.calls| - 1].now <= c.now
  }

  ghost function LastBucket(run: Run): Bucket
    requires run.buckets != []
  {
    run.buckets[|run.buckets| - 1]
  }

  ghost function Extended(st: Setting, run: Run, c: Call): Run
    requires IsRun(st, run) && ValidCall(c)
  {
    Run(run.buckets + [Acquire(st.burst, Found(LastBucket(run), c.now, st.ttl), c).0], run.calls + [c])
  }

  lemma {:induction false} ExtendedIsRun(st: Setting, run: Run, c: Call)
    requires IsRun(st, run) && Allowed(st, c) && Follows(run, c)
    ensures IsRun(st, Extended(st, run, c))
  {
    var more := Extended(st, run, c);
    forall k | 0 <= k < |more.calls| ensures StepAt(st, more, k) {
      if k < |run.calls| {
        assert StepAt(st, run, k);
      }
    }
  }

  lemma {:induction false} SameWindow(st: Setting, run: Run, c: Call, length: real, n: nat)
    requires IsRun(st, run) && ValidCall(c) && IsRun(st, Extended(st, run, c)) && n <= |run.calls|
    ensures InWindow(st, Extended(st, run, c), 0.0, length, n) == InWindow(st, run, 0.0, length, n)
    decreases n
  {
    if n > 0 {
      SameWindow(st, run, c, length, n - 1);
      assert ResultAt(st, Extended(st, run, c), n - 1) == ResultAt(st, run, n - 1);
    }
  }

  /** What has been granted for a start within `length` of time 0. */
  ghost function Total(st: Setting, run: Run, length: real): real
    requires IsRun(st, run)
  {
    InWindow(st, run, 0.0, length, |run.calls|)
  }

  // ------------------------------------------------------------------ draining a bucket

  ghost function Debt(st: Setting): real {
    Earned(st.LongestWait(), st.maxRate)
  }

  function Drawn(st: Setting, cost: real, now: real): Call {
    Call(now, st.maxRate, cost, st.maxWait)
  }

  lemma {:induction false} WaitAtMost(need: real, rate: real, longest: int)
    requires rate > 0.0 && need > 0.0 && need <= Earned(longest as real, rate)
    ensures WaitFor(need, rate) <= longest
  {
    WaitIsTight(need, rate);
    EarnsMore(WaitFor(need, rate) as real - 1.0, longest as real, rate);
  }

  /** A call that leaves no more than the deepest debt is granted. */
  lemma {:induction false} DrawIsGranted(st: Setting, b: Bucket, cost: real, now: real)
    requires st.Valid() && cost >= 0.0
    requires Refilled(st.burst, b, now, st.maxRate).tokens - cost >= -Debt(st)
    ensures var (after, r) := Acquire(st.burst, b, Drawn(st, cost, now));
            && r.granted && 0.0 <= r.wait as real <= st.LongestWait()
            && after.tokens == Refilled(st.burst, b, now, st.maxRate).tokens - cost
  {
    var full := Refilled(st.burst, b, now, st.maxRate);
    if full.tokens < cost {
      WaitAtMost(cost - full.tokens, st.maxRate, st.maxWait.Floor);
      WaitIsTight(cost - full.tokens, st.maxRate);
      EarnsMore(-1.0, WaitFor(cost - full.tokens, st.maxRate) as real - 1.0, st.maxRate);
      EarnsMore(WaitFor(cost - full.tokens, st.maxRate) as real, 0.0, st.maxRate);
    }
  }

  /** The run ends with a bucket of the given balance, last touched at `now`. */
  ghost predicate EndsWith(run: Run, tokens: real, now: real) {
    && run.buckets != [] && LastBucket(run) == Bucket(tokens, now)
    && run.calls != [] && run.calls[|run.calls| - 1].now == now
  }

  /** One draw of `cost` from a bucket that then holds `tokens`. */
  lemma {:induction false} Draw(st: Setting, run: Run, cost: real, now: real, tokens: real, length: real)
    returns (more: Run)
    requires IsRun(st, run) && 0.0 <= cost <= st.burst && Follows(run, Drawn(st, cost, now))
    requires Refilled(st.burst, Found(LastBucket(run), now, st.ttl), now, st.maxRate) == Bucket(tokens, now)
    requires tokens - cost >= -Debt(st) && 0.0 <= now && now + st.LongestWait() <= length
    ensures more == Extended(st, run, Drawn(st, cost, now)) && IsRun(st, more) && EndsWith(more, tokens - cost, now)
    ensures Total(st, more, length) == Total(st, run, length) + cost && ResultAt(st, more, |run.calls|).granted
  {
    var c, b := Drawn(st, cost, now), Found(LastBucket(run), now, st.ttl);
    more := Extended(st, run, c);
    ExtendedIsRun(st, run, c);
    SameWindow(st, run, c, length, |run.calls|);
    DrawIsGranted(st, b, cost, now);
    assert ResultAt(st, more, |run.calls|) == Acquire(st.burst, b, c).1;
  }

  /** At one instant a bucket that is missing or has expired gives `k` times `cost`. */
  lemma {:induction false} Drain(st: Setting, run: Run, cost: real, now: real, k: nat, length: real) returns (more: Run)
    requires IsRun(st, run) && 0.0 <= cost <= st.burst && Follows(run, Drawn(st, cost, now)) && k >= 1
    requires Found(LastBucket(run), now, st.ttl).Missing? && 0.0 <= now && now + st.LongestWait() <= length
    requires st.burst - Sum(k, cost) >= -Debt(st)
    ensures IsRun(st, more) && EndsWith(more, st.burst - Sum(k, cost), now)
    ensures Total(st, more, length) == Total(st, run, length) + Sum(k, cost)
    ensures |more.calls| == |run.calls| + k && more.calls[|more.calls| - 1] == Drawn(st, cost, now)
    ensures ResultAt(st, more, |more.calls| - 1).granted
    decreases k
  {
    if k == 1 {
      assert Sum(1, cost) == cost;
      more := Draw(st, run, cost, now, st.burst, length);
    } else {
      var before := Drain(st, run, cost, now, k - 1, length);
      more := Draw(st, before, cost, now, st.burst - Sum(k - 1, cost), length);
    }
  }

  /** `n` drained buckets, each found expired. */
  lemma {:induction false} Cycles(st: Setting, cost: real, k: nat, n: nat, length: real) returns (run: Run)
    requires st.Valid() && 0.0 <= cost <= st.burst && k >= 1 && n >= 1
    requires st.burst - Sum(k, cost) >= -Debt(st)
    requires Sum(n - 1, st.ttl) + st.LongestWait() <= length
    ensures IsRun(st, run) && EndsWith(run, st.burst - Sum(k, cost), Sum(n - 1, st.ttl))
    ensures Total(st, run, length) == Sum(n, Sum(k, cost))
    decreases n
  {
    if n == 1 {
      var empty := Run([Missing], []);
      assert IsRun(st, empty) && Total(st, empty, length) == 0.0;
      assert Sum(0, st.ttl) == 0.0 && Sum(0, Sum(k, cost)) == 0.0;
      run := Drain(st, empty, cost, 0.0, k, length);
    } else {
      SumGrows(0, n - 1, st.ttl);
      assert Sum(0, st.ttl) == 0.0;
      var before := Cycles(st, cost, k, n - 1, length);
      run := Drain(st, before, cost, Sum(n - 1, st.ttl), k, length);
    }
  }

  // ------------------------------------------------------------------ conformance, exactly

  ghost predicate Conforms(st: Setting, run: Run, from: real, length: real, n: nat)
    requires IsRun(st, run) && n <= |run.calls|
  {
    InWindow(st, run, from, length, n) <= Bound(st, length)
  }

  ghost predicate AllConform(st: Setting) {
    forall run, from: real, length: real, n: nat ::
      IsRun(st, run) && n <= |run.calls| && length >= 0.0 ==> Conforms(st, run, from, length, n)
  }

  lemma {:induction false} EarnedSum(n: nat, t: real, rate: real)
    ensures Earned(Sum(n, t), rate) == Sum(n, Earned(t, rate))
  {
    if n > 0 {
      EarnedSum(n - 1, t, rate);
      EarnedAdds(Sum(n - 1, t), t, rate);
    }
  }

  /** Enough cycles exceed every fixed allowance. */
  lemma {:induction false} TooMuch(st: Setting)
    requires st.Valid() && !st.Outlasts()
    ensures !AllConform(st)
  {
    var debt, earned := Debt(st), Earned(st.ttl, st.maxRate);
    EarnedNotNegative(st.LongestWait(), st.maxRate);
    EarnedNotNegative(st.ttl, st.maxRate);
    var total := st.burst + debt;
    var k, cost := Parts(total, st.burst);
    var n := Archimedes(st.burst + debt + Earned(1.0, st.maxRate) + Drift(st), total - earned);
    var length := Sum(n - 1, st.ttl) + st.LongestWait();
    var run := Cycles(st, cost, k, n, length);
    SumAdds(n, total - earned, earned);
    SumGrows(n - 1, n, earned);
    EarnedSum(n - 1, st.ttl, st.maxRate);
    EarnedAdds(Sum(n - 1, st.ttl), st.LongestWait(), st.maxRate);
    EarnedAdds(length, 1.0, st.maxRate);
    SumGrows(0, n - 1, st.ttl);
    assert Sum(0, st.ttl) == 0.0;
    assert !Conforms(st, run, 0.0, length, |run.calls|);
  }

  /**
    All runs stay within the bound in all windows, at a constant rate or a steered one, if and only if
    at the highest rate a bucket in deepest debt fills up before its hash expires.
  */
  lemma {:induction false} ConformanceExactly(st: Setting)
    requires st.Valid()
    ensures AllConform(st) <==> st.burst <= Earned(st.ttl - st.LongestWait(), st.maxRate)
  {
    EarnedAdds(st.ttl - st.LongestWait(), st.LongestWait(), st.maxRate);
    if st.Outlasts() {
      forall run, from: real, length: real, n: nat | IsRun(st, run) && n <= |run.calls| && length >= 0.0
        ensures Conforms(st, run, from, length, n)
      {
        WindowConformance(st, run, from, length, n);
      }
    } else {
      TooMuch(st);
    }
  }
}

/**
  The reserving token bucket that all replicas share.  Time is in milliseconds, the rate in tokens
  per second, and both are real numbers.
*/
module TokenBuckets {
  import opened Reals

  /** The stored hash; it is missing before the first call and after it has expired. */
  datatype Bucket = Missing | Bucket(tokens: real, ts: real)

  datatype Call = Call(now: real, rate: real, cost: real, maxWait: real)

  /** `wait` is in whole milliseconds; `milli` is the balance in thousandths of a token. */
  datatype Acquisition = Acquisition(granted: bool, wait: int, milli: int)

  predicate ValidCall(c: Call) {
    c.rate > 0.0 && c.cost >= 0.0
  }

  /** The tokens earned in a time. */
  function Earned(elapsed: real, rate: real): real {
    elapsed * rate / 1000.0
  }

  /** The whole milliseconds in which a number of tokens is earned. */
  function WaitFor(tokens: real, rate: real): int
    requires rate > 0.0
  {
    Ceil(tokens * 1000.0 / rate)
  }

  /** The stored hash brought up to the time of a call. */
  function Refilled(burst: real, b: Bucket, now: real, rate: real): (r: Bucket)
    ensures r.Bucket?
  {
    match b
    case Missing => Bucket(burst, now)
    case Bucket(tokens, ts) =>
      if now > ts then Bucket(Min(burst, tokens + Earned(now - ts, rate)), now) else b
  }

  /** Grants, reserves or refuses, on a bucket that is up to date. */
  function Spend(full: Bucket, c: Call): (Bucket, Acquisition)
    requires ValidCall(c) && full.Bucket?
  {
    var wait := if full.tokens >= c.cost then 0 else WaitFor(c.cost - full.tokens, c.rate);
    var granted := full.tokens >= c.cost || wait as real <= c.maxWait;
    var now := if granted then full.(tokens := full.tokens - c.cost) else full;
    (now, Acquisition(granted, wait, (now.tokens * 1000.0).Floor))
  }

  /** One run of the script. */
  function Acquire(burst: real, b: Bucket, c: Call): (Bucket, Acquisition)
    requires ValidCall(c)
  {
    Spend(Refilled(burst, b, c.now, c.rate), c)
  }

  /** The bucket in the shared store. */
  class TokenBucket {
    const burst: real
    var stored: Bucket

    constructor (burst: real)
      ensures stored == Missing && this.burst == burst
    {
      this.burst := burst;
      stored := Missing;
    }

    method TryAcquire(c: Call) returns (r: Acquisition)
      requires ValidCall(c)
      modifies this
      ensures (stored, r) == Acquire(burst, old(stored), c)
    {
      var tokens, ts := burst, c.now;
      if stored.Bucket? {
        tokens, ts := stored.tokens, stored.ts;
      }
      var elapsed := c.now - ts;
      if elapsed > 0.0 {
        tokens := Min(burst, tokens + Earned(elapsed, c.rate));
        ts := c.now;
      }
      assert Bucket(tokens, ts) == Refilled(burst, stored, c.now, c.rate);
      var granted, wait := false, 0;
      if tokens >= c.cost {
        tokens := tokens - c.cost;
        granted := true;
      } else {
        wait := WaitFor(c.cost - tokens, c.rate);
        if wait as real <= c.maxWait {
          tokens := tokens - c.cost;
          granted := true;
        }
      }
      stored := Bucket(tokens, ts);
      return Acquisition(granted, wait, (tokens * 1000.0).Floor);
    }
  }

  // ------------------------------------------------------------------ balance

  /** Between the deepest backlog that may be promised, in whole milliseconds, and a full bucket. */
  predicate Balanced(burst: real, maxRate: real, maxWait: real, b: Bucket) {
    b.Bucket? ==> -Earned(maxWait.Floor as real, maxRate) <= b.tokens <= burst
  }

  lemma {:induction false} ScaleWait(need: real, rate: real)
    requires rate > 0.0
    ensures need * 1000.0 / rate * rate == need * 1000.0
  {
  }

  /** More time earns more. */
  lemma {:induction false} EarnsMore(a: real, b: real, rate: real)
    requires rate > 0.0
    ensures a < b <==> Earned(a, rate) < Earned(b, rate)
  {
    var d := b - a;
    assert b * rate == a * rate + d * rate;
    assert d > 0.0 <==> d * rate > 0.0;
  }

  lemma {:induction false} MoreTime(a: real, b: real, rate: real)
    requires a <= b && rate >= 0.0
    ensures Earned(a, rate) <= Earned(b, rate)
  {
    if rate > 0.0 {
      EarnsMore(b, a, rate);
    }
  }

  /** And a higher rate does. */
  lemma {:induction false} EarnsFaster(t: real, a: real, b: real)
    requires t >= 0.0 && a <= b
    ensures Earned(t, a) <= Earned(t, b)
  {
    var d := b - a;
    assert t * b == t * a + t * d;
    assert t * d >= 0.0;
  }

  /** The wait earns what is needed, and one millisecond less would not. */
  lemma {:induction false} WaitIsTight(need: real, rate: real)
    requires rate > 0.0 && need > 0.0
    ensures Earned(WaitFor(need, rate) as real - 1.0, rate) < need <= Earned(WaitFor(need, rate) as real, rate)
  {
    ScaleWait(need, rate);
    var exact, w := need * 1000.0 / rate, WaitFor(need, rate) as real;
    assert Earned(exact, rate) == need;
    EarnsMore(w, exact, rate);
    EarnsMore(w - 1.0, exact, rate);
  }

  lemma {:induction false} WaitIsPositive(need: real, rate: real)
    requires rate > 0.0 && need > 0.0
    ensures WaitFor(need, rate) >= 1
  {
    assert need * 1000.0 / rate > 0.0;
  }

  lemma {:induction false} EarnedNotNegative(elapsed: real, rate: real)
    requires elapsed >= 0.0 && rate >= 0.0
    ensures Earned(elapsed, rate) >= 0.0
  {
  }

  lemma {:induction false} WithinFloor(w: int, x: real)
    requires w as real <= x
    ensures w <= x.Floor
  {
  }

  lemma {:induction false} WaitCoversDebt(debt: real, rate: real, maxRate: real, maxWait: real)
    requires 0.0 < rate <= maxRate && 0.0 < debt && WaitFor(debt, rate) as real <= maxWait && maxWait >= 0.0
    ensures debt <= Earned(maxWait.Floor as real, maxRate)
  {
    WaitIsTight(debt, rate);
    WithinFloor(WaitFor(debt, rate), maxWait);
    WithinFloor(0, maxWait);
    MoreTime(WaitFor(debt, rate) as real, maxWait.Floor as real, rate);
    EarnsFaster(maxWait.Floor as real, rate, maxRate);
  }

  lemma {:induction false} RefillKeepsBalance(
    burst: real, maxRate: real, maxWait: real, b: Bucket, now: real, rate: real)
    requires rate > 0.0 && burst >= 0.0 && maxWait >= 0.0 && maxRate >= 0.0 && Balanced(burst, maxRate, maxWait, b)
    ensures Balanced(burst, maxRate, maxWait, Refilled(burst, b, now, rate))
  {
    EarnedNotNegative(maxWait.Floor as real, maxRate);
    if b.Bucket? && now > b.ts {
      EarnedNotNegative(now - b.ts, rate);
    }
  }

  /** Rates may change from call to call, and clocks may go back. */
  lemma {:induction false} BalanceIsKept(burst: real, maxRate: real, maxWait: real, b: Bucket, c: Call)
    requires ValidCall(c) && burst >= 0.0 && maxWait >= 0.0
    requires c.rate <= maxRate && c.maxWait <= maxWait && Balanced(burst, maxRate, maxWait, b)
    ensures Balanced(burst, maxRate, maxWait, Acquire(burst, b, c).0)
  {
    RefillKeepsBalance(burst, maxRate, maxWait, b, c.now, c.rate);
    EarnedNotNegative(maxWait.Floor as real, maxRate);
    var full := Refilled(burst, b, c.now, c.rate);
    var (now, r) := Acquire(burst, b, c);
    if full.tokens < c.cost && r.granted {
      WaitCoversDebt(c.cost - full.tokens, c.rate, maxRate, maxWait);
    }
  }

  // ------------------------------------------------------------------ runs

  /** The hash as a call finds it: gone once nothing has touched it for the time to live. */
  function Found(b: Bucket, now: real, ttl: real): Bucket {
    if b.Bucket? && now - b.ts >= ttl then Missing else b
  }

  /** The rate is steered between two limits; `minRate == maxRate` is a constant rate. */
  datatype Setting = Setting(burst: real, minRate: real, maxRate: real, maxWait: real, ttl: real)
  {
    ghost predicate Valid() {
      0.0 < minRate <= maxRate && burst > 0.0 && maxWait >= 0.0 && ttl > 0.0
    }

    /** Waits are whole milliseconds. */
    function LongestWait(): real { maxWait.Floor as real }

    /** At the highest rate a bucket in deepest debt fills up before its hash expires. */
    ghost predicate Outlasts() {
      burst + Earned(LongestWait(), maxRate) <= Earned(ttl, maxRate)
    }

    ghost predicate Steady() { minRate == maxRate }
  }

  /** The stored hash before each call and at the end. */
  datatype Run = Run(buckets: seq<Bucket>, calls: seq<Call>)

  ghost predicate Allowed(st: Setting, c: Call) {
    ValidCall(c) && st.minRate <= c.rate <= st.maxRate && c.cost <= st.burst && c.maxWait <= st.maxWait
  }

  ghost predicate StepAt(st: Setting, run: Run, k: nat)
    requires |run.buckets| == |run.calls| + 1 && k < |run.calls|
  {
    var c := run.calls[k];
    && Allowed(st, c) && (k > 0 ==> run.calls[k - 1].now <= c.now)
    && run.buckets[k + 1] == Acquire(st.burst, Found(run.buckets[k], c.now, st.ttl), c).0
  }

  ghost predicate IsRun(st: Setting, run: Run) {
    && st.Valid()
    && |run.buckets| == |run.calls| + 1 && run.buckets[0] == Missing
    && forall k :: 0 <= k < |run.calls| ==> StepAt(st, run, k)
  }

  ghost predicate ExpiresAt(st: Setting, run: Run, k: nat)
    requires IsRun(st, run) && k < |run.calls|
  {
    run.buckets[k].Bucket? && run.calls[k].now - run.buckets[k].ts >= st.ttl
  }

  ghost function ResultAt(st: Setting, run: Run, k: nat): Acquisition
    requires IsRun(st, run) && k < |run.calls|
  {
    assert StepAt(st, run, k);
    Acquire(st.burst, Found(run.buckets[k], run.calls[k].now, st.ttl), run.calls[k]).1
  }

  /** When the caller may start. */
  ghost function StartAt(st: Setting, run: Run, k: nat): real
    requires IsRun(st, run) && k < |run.calls|
  {
    run.calls[k].now + ResultAt(st, run, k).wait as real
  }

  /** After every call the balance is within its limits and the hash carries the time of that call. */
  lemma {:induction false} BalanceAlongRun(st: Setting, run: Run, k: nat)
    requires IsRun(st, run) && k < |run.buckets|
    ensures Balanced(st.burst, st.maxRate, st.maxWait, run.buckets[k])
    ensures k > 0 ==> run.buckets[k].Bucket? && run.buckets[k].ts == run.calls[k - 1].now
    decreases k
  {
    if k > 0 {
      BalanceAlongRun(st, run, k - 1);
      assert StepAt(st, run, k - 1);
      var c := run.calls[k - 1];
      BalanceIsKept(st.burst, st.maxRate, st.maxWait, Found(run.buckets[k - 1], c.now, st.ttl), c);
    }
  }

  /** A hash that expired would have been full, at a rate that fills the deepest debt in time. */
  lemma {:induction false} ExpiryIsHarmless(st: Setting, b: Bucket, now: real, rate: real)
    requires st.Valid() && rate > 0.0 && st.burst + Earned(st.LongestWait(), st.maxRate) <= Earned(st.ttl, rate)
    requires Balanced(st.burst, st.maxRate, st.maxWait, b) && b.Bucket?
    ensures Refilled(st.burst, Found(b, now, st.ttl), now, rate) == Refilled(st.burst, b, now, rate)
  {
    if now - b.ts >= st.ttl {
      EarnsMore(now - b.ts, st.ttl, rate);
    }
  }

  // ------------------------------------------------------------------ conformance

  ghost function CostAt(st: Setting, run: Run, k: nat): real
    requires IsRun(st, run) && k < |run.calls|
  {
    if ResultAt(st, run, k).granted then run.calls[k].cost else 0.0
  }

  /** What the first `n` calls were granted in all. */
  ghost function Granted(st: Setting, run: Run, n: nat): real
    requires IsRun(st, run) && n <= |run.calls|
  {
    if n == 0 then 0.0 else Granted(st, run, n - 1) + CostAt(st, run, n - 1)
  }

  /** The balance after call `k`. */
  ghost function TokensAfter(run: Run, k: nat): real
    requires k + 1 < |run.buckets| && run.buckets[k + 1].Bucket?
  {
    run.buckets[k + 1].tokens
  }

  /** Unless an expired hash gives tokens away, the balance grows at most by what is earned, less what is granted. */
  lemma {:induction false} NextBalance(st: Setting, run: Run, k: nat)
    requires IsRun(st, run) && 0 < k < |run.calls| && (st.Outlasts() || !ExpiresAt(st, run, k))
    ensures run.buckets[k].Bucket? && run.buckets[k + 1].Bucket?
    ensures TokensAfter(run, k) <= TokensAfter(run, k - 1) +
                                   Earned(run.calls[k].now - run.calls[k - 1].now, st.maxRate) - CostAt(st, run, k)
  {
    BalanceAlongRun(st, run, k);
    assert StepAt(st, run, k);
    var c, elapsed := run.calls[k], run.calls[k].now - run.calls[k - 1].now;
    if ExpiresAt(st, run, k) {
      MoreTime(st.ttl, elapsed, st.maxRate);
    }
    EarnsFaster(elapsed, c.rate, st.maxRate);
    EarnedNotNegative(elapsed, c.rate);
  }

  /** No hash that expires between two calls gives tokens away. */
  ghost predicate Continuous(st: Setting, run: Run, i: nat, j: nat)
    requires IsRun(st, run) && j < |run.calls|
  {
    st.Outlasts() || forall k: nat :: i < k <= j ==> !ExpiresAt(st, run, k)
  }

  lemma {:induction false} BalanceOver(st: Setting, run: Run, i: nat, j: nat)
    requires IsRun(st, run) && i <= j < |run.calls| && Continuous(st, run, i, j)
    ensures run.buckets[i + 1].Bucket? && run.buckets[j + 1].Bucket?
    ensures TokensAfter(run, j) <= TokensAfter(run, i) + Earned(run.calls[j].now - run.calls[i].now, st.maxRate)
                                   - (Granted(st, run, j + 1) - Granted(st, run, i + 1))
    decreases j
  {
    BalanceAlongRun(st, run, i + 1);
    if i < j {
      BalanceOver(st, run, i, j - 1);
      NextBalance(st, run, j);
      EarnedInTurn(run.calls[i].now, run.calls[j - 1].now, run.calls[j].now, st.maxRate);
      assert Granted(st, run, j + 1) == Granted(st, run, j) + CostAt(st, run, j);
    } else {
      NothingEarned(run.calls[i].now, run.calls[j].now, st.maxRate);
    }
  }

  lemma {:induction false} NothingEarned(a: real, b: real, rate: real)
    requires a == b
    ensures Earned(b - a, rate) == 0.0
  {
  }

  lemma {:induction false} EarnedAdds(a: real, b: real, rate: real)
    ensures Earned(a + b, rate) == Earned(a, rate) + Earned(b, rate)
  {
  }

  lemma {:induction false} EarnedInTurn(a: real, b: real, c: real, rate: real)
    ensures Earned(c - a, rate) == Earned(b - a, rate) + Earned(c - b, rate)
  {
  }

  /** A wait, against the balance it is given for: late by less than a millisecond. */
  ghost predicate Covers(wait: real, rate: real, after: real) {
    && Earned(wait, rate) >= -after
    && (after >= 0.0 ==> wait == 0.0)
    && (after < 0.0 ==> wait >= 1.0 && Earned(wait - 1.0, rate) < -after)
  }

  lemma {:induction false} WaitCovers(need: real, rate: real)
    requires rate > 0.0 && need > 0.0
    ensures Covers(WaitFor(need, rate) as real, rate, -need)
  {
    WaitIsTight(need, rate);
    WaitIsPositive(need, rate);
  }

  lemma {:induction false} NoWaitCovers(rate: real, after: real)
    requires rate > 0.0 && after >= 0.0
    ensures Covers(0.0, rate, after)
  {
    EarnedNotNegative(0.0, rate);
  }

  lemma {:induction false} GrantCoversDebt(full: Bucket, c: Call, maxWait: real)
    requires ValidCall(c) && full.Bucket? && c.maxWait <= maxWait && maxWait >= 0.0 && Spend(full, c).1.granted
    ensures 0 <= Spend(full, c).1.wait <= maxWait.Floor
    ensures Covers(Spend(full, c).1.wait as real, c.rate, Spend(full, c).0.tokens)
  {
    var need := c.cost - full.tokens;
    if need > 0.0 {
      WaitCovers(need, c.rate);
      WaitIsPositive(need, c.rate);
      assert Spend(full, c).1.wait == WaitFor(need, c.rate) && Spend(full, c).0.tokens == -need;
      WithinFloor(WaitFor(need, c.rate), maxWait);
    } else {
      NoWaitCovers(c.rate, -need);
      assert Spend(full, c).1.wait == 0 && Spend(full, c).0.tokens == -need;
      WithinFloor(0, maxWait);
    }
  }

  lemma {:induction false} StartCoversDebt(st: Setting, run: Run, k: nat)
    requires IsRun(st, run) && k < |run.calls| && ResultAt(st, run, k).granted
    ensures run.buckets[k + 1].Bucket?
    ensures var wait, rate := ResultAt(st, run, k).wait as real, run.calls[k].rate;
            0.0 <= wait <= st.LongestWait() && Covers(wait, rate, TokensAfter(run, k))
    ensures TokensAfter(run, k) + CostAt(st, run, k) <= st.burst
  {
    assert StepAt(st, run, k);
    BalanceAlongRun(st, run, k);
    var c := run.calls[k];
    GrantCoversDebt(Refilled(st.burst, Found(run.buckets[k], c.now, st.ttl), c.now, c.rate), c, st.maxWait);
  }

  /** What a reservation gains by being promised at a low rate, at most. */
  ghost function Drift(st: Setting): real {
    Earned(st.LongestWait(), st.maxRate - st.minRate)
  }

  /** A debt, and the wait it was given, at the highest rate. */
  lemma {:induction false} DebtAtHighRate(st: Setting, x: real, wait: real, rate: real)
    requires st.Valid() && st.minRate <= rate <= st.maxRate && 1.0 <= wait <= st.LongestWait()
    requires Earned(wait - 1.0, rate) < -x
    ensures x + Earned(wait, st.maxRate) <= Earned(1.0, st.maxRate) + Drift(st)
  {
    var over := st.maxRate - rate;
    EarnedAdds(wait - 1.0, 1.0, st.maxRate);
    assert Earned(wait - 1.0, st.maxRate) == Earned(wait - 1.0, rate) + Earned(wait - 1.0, over);
    EarnsFaster(wait - 1.0, over, st.maxRate - st.minRate);
    MoreTime(wait - 1.0, st.LongestWait(), st.maxRate - st.minRate);
  }

  /** Everything granted from one granted call to another, in terms of when the two may start. */
  lemma {:induction false} Conformance(st: Setting, run: Run, i: nat, j: nat)
    requires IsRun(st, run) && i <= j < |run.calls| && Continuous(st, run, i, j)
    requires ResultAt(st, run, i).granted && ResultAt(st, run, j).granted
    ensures Granted(st, run, j + 1) - Granted(st, run, i) <=
            st.burst + Earned(StartAt(st, run, j) - StartAt(st, run, i) + 1.0, st.maxRate) + Drift(st)
  {
    BalanceOver(st, run, i, j);
    StartCoversDebt(st, run, i);
    StartCoversDebt(st, run, j);
    assert StepAt(st, run, i) && StepAt(st, run, j);
    var ti, tj := run.calls[i].now, run.calls[j].now;
    var wi, wj := ResultAt(st, run, i).wait as real, ResultAt(st, run, j).wait as real;
    EarnsFaster(wj, run.calls[j].rate, st.maxRate);
    EarnedAdds(tj - ti, wj, st.maxRate);
    EarnedAdds(tj + wj - (ti + wi), wi, st.maxRate);
    EarnedAdds(tj + wj - (ti + wi), 1.0, st.maxRate);
    EarnedNotNegative(1.0, st.maxRate);
    EarnedNotNegative(st.LongestWait(), st.maxRate - st.minRate);
    if TokensAfter(run, i) < 0.0 {
      DebtAtHighRate(st, TokensAfter(run, i), wi, run.calls[i].rate);
    }
  }

  /** What was granted to the first `n` calls for a start in the window. */
  ghost function InWindow(st: Setting, run: Run, from: real, length: real, n: nat): real
    requires IsRun(st, run) && n <= |run.calls|
  {
    if n == 0 then 0.0
    else InWindow(st, run, from, length, n - 1) +
         (if Inside(st, run, from, length, n - 1) then CostAt(st, run, n - 1) else 0.0)
  }

  ghost predicate Inside(st: Setting, run: Run, from: real, length: real, k: nat)
    requires IsRun(st, run) && k < |run.calls|
  {
    ResultAt(st, run, k).granted && from <= StartAt(st, run, k) <= from + length
  }

  lemma {:induction false} WindowWithinGranted(st: Setting, run: Run, from: real, length: real, i: nat, n: nat)
    requires IsRun(st, run) && i <= n <= |run.calls|
    ensures InWindow(st, run, from, length, n) - InWindow(st, run, from, length, i) <=
            Granted(st, run, n) - Granted(st, run, i)
    decreases n
  {
    if i < n {
      WindowWithinGranted(st, run, from, length, i, n - 1);
      assert StepAt(st, run, n - 1);
    }
  }

  /** The first call of the window among the first `n`, if there is one. */
  lemma {:induction false} FirstInside(st: Setting, run: Run, from: real, length: real, n: nat) returns (i: nat)
    requires IsRun(st, run) && n <= |run.calls|
    ensures i <= n && InWindow(st, run, from, length, i) == 0.0
    ensures i < n ==> Inside(st, run, from, length, i)
    ensures i == n ==> forall k: nat :: k < n ==> !Inside(st, run, from, length, k)
  {
    if n == 0 {
      i := 0;
    } else {
      i := FirstInside(st, run, from, length, n - 1);
      if i == n - 1 && !Inside(st, run, from, length, n - 1) {
        i := n;
      }
    }
  }

  /** The burst, what the highest rate earns in the window and one millisecond more, and the drift of the rate. */
  ghost function Bound(st: Setting, length: real): real {
    st.burst + Earned(length + 1.0, st.maxRate) + Drift(st)
  }

  /** The bound for a window whose last grant is call `j`. */
  lemma {:induction false} WindowEndingAt(st: Setting, run: Run, from: real, length: real, j: nat)
    requires IsRun(st, run) && st.Outlasts() && j < |run.calls| && Inside(st, run, from, length, j)
    ensures InWindow(st, run, from, length, j + 1) <= Bound(st, length)
  {
    var i := FirstInside(st, run, from, length, j + 1);
    WindowWithinGranted(st, run, from, length, i, j + 1);
    Conformance(st, run, i, j);
    EarnsMore(length + 1.0, StartAt(st, run, j) - StartAt(st, run, i) + 1.0, st.maxRate);
  }

  /**
    Conformance in every window of start times, for any clock readings, rates, costs and waits.  At
    a constant rate there is no drift.
  */
  lemma {:induction false} WindowConformance(st: Setting, run: Run, from: real, length: real, n: nat)
    requires IsRun(st, run) && st.Outlasts() && n <= |run.calls| && length >= 0.0
    ensures InWindow(st, run, from, length, n) <= Bound(st, length)
    ensures st.Steady() ==> Bound(st, length) == st.burst + Earned(length + 1.0, st.maxRate)
    decreases n
  {
    assert st.Steady() ==> Drift(st) == 0.0;
    if n == 0 {
      EarnsMore(0.0, length + 1.0, st.maxRate);
      EarnedNotNegative(st.LongestWait(), st.maxRate - st.minRate);
    } else if Inside(st, run, from, length, n - 1) {
      WindowEndingAt(st, run, from, length, n - 1);
    } else {
      WindowConformance(st, run, from, length, n - 1);
    }
  }

  // ------------------------------------------------------------------ order

  lemma {:induction false} GrantedGrows(st: Setting, run: Run, i: nat, j: nat)
    requires IsRun(st, run) && i <= j < |run.calls|
    ensures Granted(st, run, i) <= Granted(st, run, j) && run.calls[i].now <= run.calls[j].now
    decreases j
  {
    if i < j {
      GrantedGrows(st, run, i, j - 1);
      assert StepAt(st, run, j - 1) && StepAt(st, run, j);
    }
  }

  lemma {:induction false} DebtsInOrder(
    ti: real, tj: real, wi: real, wj: real, xi: real, xj: real, cost: real, rate: real)
    requires rate > 0.0 && cost >= 0.0
    requires xj <= xi + Earned(tj - ti, rate) - cost
    requires Earned(wi - 1.0, rate) < -xi && Earned(wj, rate) >= -xj
    ensures ti + wi < tj + wj + 1.0
    ensures cost >= Earned(1.0, rate) ==> ti + wi <= tj + wj
  {
    EarnedAdds(wj, tj - ti, rate);
    EarnedAdds(wi - 1.0, 1.0, rate);
    EarnsMore(wi - 1.0, wj + (tj - ti), rate);
    EarnsMore(wi, wj + (tj - ti), rate);
  }

  lemma {:induction false} OrderWithoutExpiry(st: Setting, run: Run, i: nat, j: nat)
    requires IsRun(st, run) && st.Steady() && i < j < |run.calls| && Continuous(st, run, i, j)
    requires ResultAt(st, run, i).granted && ResultAt(st, run, j).granted
    ensures StartAt(st, run, i) < StartAt(st, run, j) + 1.0
    ensures run.calls[j].cost >= Earned(1.0, st.maxRate) ==> StartAt(st, run, i) <= StartAt(st, run, j)
  {
    GrantedGrows(st, run, i, j);
    GrantedGrows(st, run, i + 1, j);
    BalanceOver(st, run, i, j);
    StartCoversDebt(st, run, i);
    StartCoversDebt(st, run, j);
    assert StepAt(st, run, i) && StepAt(st, run, j);
    if TokensAfter(run, i) < 0.0 {
      DebtsInOrder(run.calls[i].now, run.calls[j].now,
                   ResultAt(st, run, i).wait as real, ResultAt(st, run, j).wait as real,
                   TokensAfter(run, i), TokensAfter(run, j), run.calls[j].cost, st.maxRate);
    }
  }

  lemma {:induction false} ShortDebtsInOrder(
    ti: real, tj: real, wi: real, wj: real, xi: real, xj: real, cost: real, rate: real)
    requires rate > 0.0 && cost >= 0.0 && ti <= tj && wi <= 1.0 <= wj + 1.0
    requires xj <= xi + Earned(tj - ti, rate) - cost
    requires wi > 0.0 ==> xi < 0.0
    requires xj < 0.0 ==> wj >= 1.0
    ensures ti + wi < tj + wj + 1.0
    ensures cost >= Earned(1.0, rate) ==> ti + wi <= tj + wj
  {
    if tj == ti {
      NothingEarned(ti, tj, rate);
    }
    if tj - ti <= 1.0 {
      MoreTime(tj - ti, 1.0, rate);
    }
  }

  /** With waits of a millisecond at most, at whatever rates. */
  lemma {:induction false} OrderOfShortWaits(st: Setting, run: Run, i: nat, j: nat)
    requires IsRun(st, run) && st.LongestWait() <= 1.0 && i < j < |run.calls| && Continuous(st, run, i, j)
    requires ResultAt(st, run, i).granted && ResultAt(st, run, j).granted
    ensures StartAt(st, run, i) < StartAt(st, run, j) + 1.0
    ensures run.calls[j].cost >= Earned(1.0, st.maxRate) ==> StartAt(st, run, i) <= StartAt(st, run, j)
  {
    GrantedGrows(st, run, i, j);
    GrantedGrows(st, run, i + 1, j);
    BalanceOver(st, run, i, j);
    StartCoversDebt(st, run, i);
    StartCoversDebt(st, run, j);
    assert StepAt(st, run, j);
    ShortDebtsInOrder(run.calls[i].now, run.calls[j].now,
                      ResultAt(st, run, i).wait as real, ResultAt(st, run, j).wait as real,
                      TokensAfter(run, i), TokensAfter(run, j), run.calls[j].cost, st.maxRate);
  }

  /** Past an expiry only the time to live separates two calls. */
  lemma {:induction false} OrderAcrossExpiry(st: Setting, run: Run, i: nat, j: nat, k: nat)
    requires IsRun(st, run) && i < k <= j < |run.calls| && ExpiresAt(st, run, k)
    requires ResultAt(st, run, i).granted && ResultAt(st, run, j).granted
    ensures StartAt(st, run, i) - st.LongestWait() <= StartAt(st, run, j) - st.ttl
  {
    GrantedGrows(st, run, i, k - 1);
    GrantedGrows(st, run, k, j);
    BalanceAlongRun(st, run, k);
    StartCoversDebt(st, run, i);
    StartCoversDebt(st, run, j);
  }

  /** The rate is constant, or no call waits more than a millisecond. */
  ghost predicate KeepsOrder(st: Setting) {
    st.Steady() || st.LongestWait() <= 1.0
  }

  /**
    Grants start in the order of the calls: never a whole millisecond before an earlier grant, and
    never before it at all when the later grant costs at least what the rate earns in a millisecond.
  */
  lemma {:induction false} FirstComeFirstServed(st: Setting, run: Run, i: nat, j: nat)
    requires IsRun(st, run) && i < j < |run.calls|
    requires ResultAt(st, run, i).granted && ResultAt(st, run, j).granted
    ensures KeepsOrder(st) && st.LongestWait() < st.ttl + 1.0 ==> StartAt(st, run, i) < StartAt(st, run, j) + 1.0
    ensures KeepsOrder(st) && st.LongestWait() <= st.ttl && run.calls[j].cost >= Earned(1.0, st.maxRate) ==>
              StartAt(st, run, i) <= StartAt(st, run, j)
  {
    if Continuous(st, run, i, j) {
      if st.Steady() {
        OrderWithoutExpiry(st, run, i, j);
      } else if st.LongestWait() <= 1.0 {
        OrderOfShortWaits(st, run, i, j);
      }
    } else {
      var k: nat :| i < k <= j && ExpiresAt(st, run, k);
      OrderAcrossExpiry(st, run, i, j, k);
    }
  }
}

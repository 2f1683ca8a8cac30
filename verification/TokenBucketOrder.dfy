/**
  When grants start in the order of the calls.  Two things upset the order: a bucket that is found
  expired lets a call start at once, and a call at a higher rate is promised an earlier start than
  one before it at a lower rate.
*/
module TokenBucketOrder {
  import opened Reals
  import opened TokenBuckets
  import opened TokenBucketExpiry

  ghost predicate BothGranted(st: Setting, run: Run, i: nat, j: nat) {
    IsRun(st, run) && i < j < |run.calls| && ResultAt(st, run, i).granted && ResultAt(st, run, j).granted
  }

  /** No grant starts a whole millisecond before an earlier one. */
  ghost predicate OrderHolds(st: Setting) {
    forall run, i: nat, j: nat :: BothGranted(st, run, i, j) ==> StartAt(st, run, i) < StartAt(st, run, j) + 1.0
  }

  /** No grant that costs what the highest rate earns in a millisecond starts before an earlier one. */
  ghost predicate StrictOrderHolds(st: Setting) {
    forall run, i: nat, j: nat :: BothGranted(st, run, i, j) && run.calls[j].cost >= Earned(1.0, st.maxRate) ==>
      StartAt(st, run, i) <= StartAt(st, run, j)
  }

  lemma {:induction false} EmptyRun(st: Setting) returns (run: Run)
    requires st.Valid()
    ensures IsRun(st, run) && run.calls == [] && LastBucket(run) == Missing
  {
    run := Run([Missing], []);
  }

  // ------------------------------------------------------------------ past an expiry

  /** The last draw that takes a bucket to its deepest debt waits longest. */
  lemma {:induction false} DrainedWaits(st: Setting, run: Run, i: nat)
    requires IsRun(st, run) && i + 1 == |run.calls| && EndsWith(run, -Debt(st), 0.0)
    requires run.calls[i].rate == st.maxRate && ResultAt(st, run, i).granted
    ensures StartAt(st, run, i) >= st.LongestWait()
  {
    StartCoversDebt(st, run, i);
    EarnsMore(ResultAt(st, run, i).wait as real, st.LongestWait(), st.maxRate);
  }

  lemma {:induction false} Drained(st: Setting, length: real) returns (run: Run, i: nat)
    requires st.Valid() && st.LongestWait() <= length
    ensures IsRun(st, run) && i + 1 == |run.calls| && EndsWith(run, -Debt(st), 0.0)
    ensures ResultAt(st, run, i).granted && StartAt(st, run, i) >= st.LongestWait()
  {
    EarnedNotNegative(st.LongestWait(), st.maxRate);
    var k, cost := Parts(st.burst + Debt(st), st.burst);
    var empty := EmptyRun(st);
    run := Drain(st, empty, cost, 0.0, k, length);
    i := k - 1;
    DrainedWaits(st, run, i);
  }

  /** One more call does not change the results before it. */
  lemma {:induction false} SameResult(st: Setting, run: Run, c: Call, i: nat)
    requires IsRun(st, run) && ValidCall(c) && IsRun(st, Extended(st, run, c)) && i < |run.calls|
    ensures ResultAt(st, Extended(st, run, c), i) == ResultAt(st, run, i)
    ensures StartAt(st, Extended(st, run, c), i) == StartAt(st, run, i)
  {
  }

  /** A bucket is drained to its deepest debt, and a call comes when its hash has just expired. */
  lemma {:induction false} Overtaken(st: Setting) returns (run: Run, i: nat, j: nat)
    requires st.Valid()
    ensures BothGranted(st, run, i, j) && run.calls[j].cost == st.burst
    ensures StartAt(st, run, i) >= st.LongestWait() && StartAt(st, run, j) == st.ttl
  {
    var length := st.ttl + st.LongestWait();
    var drained: Run;
    drained, i := Drained(st, length);
    EarnedNotNegative(st.LongestWait(), st.maxRate);
    run := Draw(st, drained, st.burst, st.ttl, st.burst, length);
    j := i + 1;
    SameResult(st, drained, Drawn(st, st.burst, st.ttl), i);
    StartCoversDebt(st, run, j);
  }

  // ------------------------------------------------------------------ at a higher rate

  lemma {:induction false} WaitIs(need: real, rate: real, w: int)
    requires rate > 0.0 && need > 0.0 && Earned(w as real - 1.0, rate) < need <= Earned(w as real, rate)
    ensures WaitFor(need, rate) == w
  {
    var v := WaitFor(need, rate);
    WaitIsTight(need, rate);
    EarnsMore(v as real - 1.0, w as real, rate);
    EarnsMore(w as real - 1.0, v as real, rate);
  }

  /** A call that has to wait `w` milliseconds and is granted. */
  lemma {:induction false} Reserve(st: Setting, run: Run, c: Call, tokens: real, w: nat) returns (more: Run)
    requires IsRun(st, run) && Allowed(st, c) && Follows(run, c) && c.maxWait == st.maxWait
    requires Refilled(st.burst, Found(LastBucket(run), c.now, st.ttl), c.now, c.rate) == Bucket(tokens, c.now)
    requires c.cost > tokens && 1 <= w && w as real <= st.maxWait
    requires Earned(w as real - 1.0, c.rate) < c.cost - tokens <= Earned(w as real, c.rate)
    ensures more == Extended(st, run, c) && IsRun(st, more) && EndsWith(more, tokens - c.cost, c.now)
    ensures ResultAt(st, more, |run.calls|).granted && ResultAt(st, more, |run.calls|).wait == w
  {
    more := Extended(st, run, c);
    ExtendedIsRun(st, run, c);
    WaitIs(c.cost - tokens, c.rate, w);
    assert ResultAt(st, more, |run.calls|) == Spend(Bucket(tokens, c.now), c).1;
  }

  /** A debt that takes two milliseconds at the lowest rate and less than one at the highest. */
  lemma {:induction false} DebtBetween(st: Setting) returns (x: real)
    requires st.Valid() && !st.Steady()
    ensures Earned(1.0, st.minRate) < x < Earned(1.0, st.maxRate) && x <= Earned(2.0, st.minRate) && x > 0.0
  {
    EarnsMore(1.0, 2.0, st.minRate);
    EarnsMore(0.0, 1.0, st.minRate);
    var low := Earned(1.0, st.minRate);
    x := (low + Min(Earned(1.0, st.maxRate), Earned(2.0, st.minRate))) / 2.0;
    assert Earned(1.0, st.maxRate) > low;
  }

  lemma {:induction false} AtLeastTwo(st: Setting)
    requires st.LongestWait() > 1.0
    ensures 2.0 <= st.maxWait && st.LongestWait() >= 2.0
  {
  }

  /** A reservation at the lowest rate, two milliseconds ahead, for a debt that less than one pays at the highest. */
  lemma {:induction false} LowReservation(st: Setting) returns (run: Run, x: real)
    requires st.Valid() && !st.Steady() && st.LongestWait() > 1.0
    ensures IsRun(st, run) && run.calls != [] && EndsWith(run, -x, 0.0) && 0.0 < x < Earned(1.0, st.maxRate)
    ensures var i := |run.calls| - 1; ResultAt(st, run, i).granted && StartAt(st, run, i) == 2.0
  {
    AtLeastTwo(st);
    x := DebtBetween(st);
    var k, cost := Parts(st.burst + x, st.burst);
    assert Sum(1, cost) == Sum(0, cost) + cost == cost;
    assert k >= 2;
    MoreTime(1.0, st.LongestWait(), st.maxRate);
    var empty := EmptyRun(st);
    var drained := Drain(st, empty, cost, 0.0, k - 1, st.LongestWait());
    assert Sum(k, cost) == Sum(k - 1, cost) + cost;
    run := Reserve(st, drained, Call(0.0, st.minRate, cost, st.maxWait), st.burst - Sum(k - 1, cost), 2);
  }

  /** The next call, at the highest rate and the same time, starts a millisecond earlier. */
  lemma {:induction false} OvertakenAtOnce(st: Setting) returns (run: Run, i: nat, j: nat)
    requires st.Valid() && !st.Steady() && st.LongestWait() > 1.0
    ensures BothGranted(st, run, i, j) && StartAt(st, run, i) == 2.0 && StartAt(st, run, j) == 1.0
    ensures run.calls[j].cost > 0.0
  {
    AtLeastTwo(st);
    var low, x := LowReservation(st);
    var c := Call(0.0, st.maxRate, Min(st.burst, Earned(1.0, st.maxRate) - x), st.maxWait);
    assert Earned(0.0, st.maxRate) == 0.0;
    run := Reserve(st, low, c, -x, 1);
    i, j := |low.calls| - 1, |low.calls|;
    SameResult(st, low, c, i);
  }

  /** The time in which the highest rate pays a debt. */
  lemma {:induction false} PaidIn(x: real, rate: real) returns (t: real)
    requires rate > 0.0 && 0.0 < x < Earned(1.0, rate)
    ensures 0.0 < t < 1.0 && Earned(t, rate) == x
  {
    t := x * 1000.0 / rate;
    ScaleWait(x, rate);
    EarnsMore(t, 1.0, rate);
    EarnsMore(0.0, t, rate);
    assert Earned(0.0, rate) == 0.0;
  }

  /** When the debt is paid, a call that costs a millisecond of the highest rate still starts earlier. */
  lemma {:induction false} OvertakenSoon(st: Setting) returns (run: Run, i: nat, j: nat)
    requires st.Valid() && !st.Steady() && st.LongestWait() > 1.0 && st.burst >= Earned(1.0, st.maxRate)
    ensures BothGranted(st, run, i, j) && StartAt(st, run, i) == 2.0 && StartAt(st, run, j) < 2.0
    ensures run.calls[j].cost == Earned(1.0, st.maxRate)
  {
    AtLeastTwo(st);
    EarnedNotNegative(1.0, st.maxRate);
    EarnsMore(0.0, 1.0, st.maxRate);
    assert Earned(0.0, st.maxRate) == 0.0;
    var low, x := LowReservation(st);
    var t := PaidIn(x, st.maxRate);
    var c := Drawn(st, Earned(1.0, st.maxRate), t);
    i, j := |low.calls| - 1, |low.calls|;
    if t < st.ttl {
      run := Reserve(st, low, c, 0.0, 1);
    } else {
      EarnedNotNegative(st.LongestWait(), st.maxRate);
      run := Draw(st, low, c.cost, t, st.burst, t + st.LongestWait());
      StartCoversDebt(st, run, j);
    }
    SameResult(st, low, c, i);
  }

  // ------------------------------------------------------------------ exactly

  lemma {:induction false} OrderExactly(st: Setting)
    requires st.Valid()
    ensures OrderHolds(st) <==> KeepsOrder(st) && st.LongestWait() < st.ttl + 1.0
  {
    if KeepsOrder(st) && st.LongestWait() < st.ttl + 1.0 {
      forall run, i: nat, j: nat | BothGranted(st, run, i, j)
        ensures StartAt(st, run, i) < StartAt(st, run, j) + 1.0
      {
        FirstComeFirstServed(st, run, i, j);
      }
    } else if KeepsOrder(st) {
      var run, i, j := Overtaken(st);
    } else {
      var run, i, j := OvertakenAtOnce(st);
    }
  }

  lemma {:induction false} StrictOrderExactly(st: Setting)
    requires st.Valid()
    ensures StrictOrderHolds(st) <==>
            st.burst < Earned(1.0, st.maxRate) || (KeepsOrder(st) && st.LongestWait() <= st.ttl)
  {
    if st.burst < Earned(1.0, st.maxRate) || (KeepsOrder(st) && st.LongestWait() <= st.ttl) {
      forall run, i: nat, j: nat | BothGranted(st, run, i, j) && run.calls[j].cost >= Earned(1.0, st.maxRate)
        ensures StartAt(st, run, i) <= StartAt(st, run, j)
      {
        FirstComeFirstServed(st, run, i, j);
        assert StepAt(st, run, j);
      }
    } else if KeepsOrder(st) {
      var run, i, j := Overtaken(st);
    } else {
      var run, i, j := OvertakenSoon(st);
    }
  }

  // ------------------------------------------------------------------ the shipped numbers

  /** Burst 10, rates from 1 to 10 per second, waits up to 30 seconds, a time to live of 300 seconds. */
  function Shipped(): Setting {
    Setting(10.0, 1.0, 10.0, 30000.0, 300000.0)
  }

  /** With these numbers expiry is safe. */
  lemma {:induction false} ShippedConforms()
    ensures AllConform(Shipped())
  {
    ConformanceExactly(Shipped());
  }

  /**
    Three calls at one instant: one drains the bucket, one at rate 1 is promised a start in a second,
    and one at rate 10 a start in a fifth of a second.
  */
  lemma {:induction false} OvertakenByEightTenths() returns (run: Run)
    ensures BothGranted(Shipped(), run, 1, 2)
    ensures StartAt(Shipped(), run, 1) == 1000.0 && StartAt(Shipped(), run, 2) == 200.0
    ensures run.calls[1].cost == run.calls[2].cost == 1.0
  {
    var st := Shipped();
    var empty := EmptyRun(st);
    var drained := Draw(st, empty, 10.0, 0.0, 10.0, 30000.0);
    var slow := Reserve(st, drained, Call(0.0, 1.0, 1.0, 30000.0), 0.0, 1000);
    run := Reserve(st, slow, Call(0.0, 10.0, 1.0, 30000.0), -1.0, 200);
    SameResult(st, slow, Call(0.0, 10.0, 1.0, 30000.0), 1);
  }
}

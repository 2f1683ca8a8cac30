/** How far the rate falls, in numbers, and what the controller reports. */
module AdaptiveRateReports {
  import opened Options
  import opened Reals
  import opened Clocks
  import opened Percentiles
  import opened AdaptiveRates

  // ------------------------------------------------------------------ the fall

  function Power(f: real, n: nat): real {
    if n == 0 then 1.0 else Power(f, n - 1) * f
  }

  lemma {:induction false} PowerOfFactor(rate: real, f: real, n: nat)
    ensures CutTimes(rate, f, n) == rate * Power(f, n)
  {
    if n > 0 {
      PowerOfFactor(rate, f, n - 1);
      Regroup(rate, Power(f, n - 1), f);
    }
  }

  lemma {:induction false} Regroup(a: real, b: real, c: real)
    ensures (a * b) * c == a * (b * c)
  {
  }

  /** In a span of `periods` refractory periods the rate falls at most by that many factors and one more. */
  lemma {:induction false} FallsByFactors(cfg: Config, t: History, i: nat, j: nat, periods: nat)
    requires IsHistory(cfg, t) && i < j <= |t.calls|
    requires t.calls[j - 1].now - t.calls[i].now < Sum(periods + 1, cfg.refractory)
    ensures t.stored[j].control.rate >= t.stored[i].control.rate * Power(cfg.factor, periods + 1)
  {
    FallsSlowly(cfg, t, i, j, periods);
    PowerOfFactor(t.stored[i].control.rate, cfg.factor, periods + 1);
  }

  /** Calls `i` to `j - 1` report congestion, each a refractory period after the one before, with the hash kept. */
  ghost predicate Congestions(cfg: Config, t: History, i: nat, j: nat)
    requires |t.stored| == |t.calls| + 1 && j <= |t.calls|
  {
    forall k: nat :: i <= k < j ==> CongestionAt(cfg, t, i, k)
  }

  ghost predicate CongestionAt(cfg: Config, t: History, i: nat, k: nat)
    requires |t.stored| == |t.calls| + 1 && k < |t.calls|
  {
    && t.calls[k].op == Congestion
    && (if k == i then t.calls[k].now - FoundAt(cfg, t, k).lastDecrease >= cfg.refractory
        else k > 0 && cfg.refractory <= t.calls[k].now - t.calls[k - 1].now < cfg.ttl)
  }

  /** A rate after `n` factors, not below a floor. */
  function Fallen(rate: real, f: real, n: nat, floor: real): real {
    Max(rate * Power(f, n), floor)
  }

  lemma {:induction false} FallsOnce(rate: real, f: real, floor: real)
    ensures Fallen(rate, f, 1, floor) == Max(Cut(rate, f), floor)
  {
    assert Power(f, 0) == 1.0;
    assert Power(f, 1) == f;
  }

  lemma {:induction false} FallsAgain(rate: real, f: real, n: nat, floor: real)
    requires 0.0 < f < 1.0 && floor > 0.0
    ensures Max(Cut(Fallen(rate, f, n, floor), f), floor) == Fallen(rate, f, n + 1, floor)
  {
    var high := rate * Power(f, n);
    Regroup(rate, Power(f, n), f);
    assert Power(f, n + 1) == Power(f, n) * f;
    assert rate * Power(f, n + 1) == Cut(high, f);
    CutBounds(floor, f);
    if high <= floor {
      CutMonotone(floor, high, f);
    }
  }

  /** One more congestion: the time of the decrease, and the rate. */
  lemma {:induction false} CongestionCuts(cfg: Config, t: History, i: nat, k: nat)
    requires IsHistory(cfg, t) && i <= k < |t.calls| && CongestionAt(cfg, t, i, k)
    requires i < k ==> t.stored[k].control.lastDecrease == t.calls[k - 1].now
    ensures t.stored[k + 1].control.lastDecrease == t.calls[k].now
    ensures t.stored[k + 1].control.rate == Max(Cut(FoundAt(cfg, t, k).rate, cfg.factor), cfg.minRate)
    ensures i < k ==> FoundAt(cfg, t, k).rate == t.stored[k].control.rate
  {
    assert StepAt(cfg, t, k);
    FoundWhat(cfg, t, k);
  }

  /** Congestions in a row bring the rate down by exactly as many factors, not below the minimum. */
  lemma {:induction false} CongestionExact(cfg: Config, t: History, i: nat, k: nat)
    requires IsHistory(cfg, t) && i <= k < |t.calls| && Congestions(cfg, t, i, k + 1)
    ensures t.stored[k + 1].control.lastDecrease == t.calls[k].now
    ensures t.stored[k + 1].control.rate == Fallen(FoundAt(cfg, t, i).rate, cfg.factor, k - i + 1, cfg.minRate)
    decreases k
  {
    assert CongestionAt(cfg, t, i, k);
    if i == k {
      CongestionCuts(cfg, t, i, i);
      FallsOnce(FoundAt(cfg, t, i).rate, cfg.factor, cfg.minRate);
    } else {
      CongestionExact(cfg, t, i, k - 1);
      CongestionCuts(cfg, t, i, k);
      FallsAgain(FoundAt(cfg, t, i).rate, cfg.factor, k - i, cfg.minRate);
    }
  }

  // ------------------------------------------------------------------ the report

  ghost function VerdictAt(cfg: Config, t: History, i: nat): Verdict
    requires |t.stored| == |t.calls| + 1 && i < |t.calls|
  {
    Script(cfg, t.stored[i], t.calls[i].op, t.calls[i].now).1
  }

  /**
    The reported rate is the rate in force, to the nearest thousandth; a change is reported exactly when
    there is one, and its direction; a call that only reads changes nothing.
  */
  lemma {:induction false} ReportIsRate(cfg: Config, t: History, i: nat)
    requires IsHistory(cfg, t) && i < |t.calls|
    ensures var v, was, now := VerdictAt(cfg, t, i), FoundAt(cfg, t, i), t.stored[i + 1].control;
            && -0.5 <= v.milli as real - now.rate * 1000.0 <= 0.5
            && (v.changed <==> now.rate != was.rate) && v.successes == now.successes
            && (v.reason == Increase ==> now.rate > was.rate) && (v.reason == Decrease ==> now.rate < was.rate)
            && (v.changed <==> v.reason == Increase || v.reason == Decrease || v.reason == DecreaseLatency)
            && (t.calls[i].op == Read ==> now == was)
  {
    assert StepAt(cfg, t, i);
    AlwaysInBounds(cfg, t, i);
    var found := FoundAt(cfg, t, i);
    if CutsAt(cfg, t, i) {
      LoweredBounds(cfg, found.rate, FloorFor(cfg, t.calls[i].op));
    }
  }

  // ------------------------------------------------------------------ slow calls

  /** A success is a breach exactly when enough latencies are known and fewer than 95% of them keep within the limit. */
  lemma {:induction false} BreachExactly(cfg: Config, c: Control, op: Op)
    requires cfg.Valid()
    ensures Breach(cfg, c, op) <==>
            var s := Recorded(cfg, c, op);
            Records(cfg, op) && |s| >= cfg.minSamples && 100 * Within(s, cfg.slo) < 95 * |s|
  {
    var s := Recorded(cfg, c, op);
    if Records(cfg, op) && |s| >= cfg.minSamples {
      PercentileMeaning(s, cfg.slo);
    }
  }

  /** All latencies that were recorded before call `i` since the list was last found expired, newest first. */
  ghost function Known(cfg: Config, t: History, i: nat): seq<real>
    requires |t.stored| == |t.calls| + 1 && i < |t.calls|
  {
    if i == 0 || Gone(t.stored[i].pushed, t.calls[i].now, cfg.ttl) then []
    else if Records(cfg, t.calls[i - 1].op) then [t.calls[i - 1].op.latency] + Known(cfg, t, i - 1)
    else Known(cfg, t, i - 1)
  }

  /** The list holds the newest of them, as many as the ring does. */
  lemma {:induction false} RingExact(cfg: Config, t: History, i: nat)
    requires IsHistory(cfg, t) && i < |t.calls|
    ensures var all := Known(cfg, t, i);
            FoundAt(cfg, t, i).latencies == if |all| <= cfg.ring then all else all[..cfg.ring]
    decreases i
  {
    if i > 0 {
      assert StepAt(cfg, t, i - 1);
      RingExact(cfg, t, i - 1);
      var op, all := t.calls[i - 1].op, Known(cfg, t, i - 1);
      if Records(cfg, op) && |all| > cfg.ring {
        assert ([op.latency] + all)[..cfg.ring] == ([op.latency] + all[..cfg.ring])[..cfg.ring];
      }
    }
  }

  // ------------------------------------------------------------------ the streak

  ghost predicate CongestedAt(cfg: Config, t: History, i: nat)
    requires |t.stored| == |t.calls| + 1 && i < |t.calls|
  {
    t.calls[i].op == Congestion || Breach(cfg, FoundAt(cfg, t, i), t.calls[i].op)
  }

  /** The successes among the first `n` calls since the last congestion, breach or expiry of the hash. */
  ghost function InARow(cfg: Config, t: History, n: nat): nat
    requires |t.stored| == |t.calls| + 1 && n <= |t.calls|
  {
    if n == 0 || CongestedAt(cfg, t, n - 1) then 0
    else
      (if ExpiresAt(cfg, t, n - 1) then 0 else InARow(cfg, t, n - 1)) + (if t.calls[n - 1].op.Success? then 1 else 0)
  }

  /** The streak is what is left of them after full rounds. */
  lemma {:induction false} StreakExact(cfg: Config, t: History, n: nat)
    requires IsHistory(cfg, t) && n <= |t.calls|
    ensures t.stored[n].control.successes == InARow(cfg, t, n) % cfg.after
    decreases n
  {
    if n == 0 {
      NothingBanked(cfg, 0);
    } else {
      StreakExact(cfg, t, n - 1);
      StreakOn(cfg, t, n - 1);
    }
  }

  lemma {:induction false} StreakOn(cfg: Config, t: History, k: nat)
    requires IsHistory(cfg, t) && k < |t.calls|
    requires t.stored[k].control.successes == InARow(cfg, t, k) % cfg.after
    ensures t.stored[k + 1].control.successes == InARow(cfg, t, k + 1) % cfg.after
  {
    FoundWhat(cfg, t, k);
    AlwaysInBounds(cfg, t, k);
    NothingBanked(cfg, 0);
    assert StepAt(cfg, t, k);
    var before := if ExpiresAt(cfg, t, k) then 0 else InARow(cfg, t, k);
    NextBanked(before, cfg.after);
    assert FoundAt(cfg, t, k).successes == before % cfg.after;
  }
}

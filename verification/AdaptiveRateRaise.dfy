/**
  When a decrease raises the rate.  A slow endpoint makes the controller give up only half of its
  rate; after congestion has taken the rate below that, a latency breach brings it up again.
*/
module AdaptiveRateRaise {
  import opened Options
  import opened Reals
  import opened Clocks
  import opened Percentiles
  import opened AdaptiveRates

  ghost predicate RaisesAt(cfg: Config, t: History, i: nat) {
    IsHistory(cfg, t) && i < |t.calls| && CutsAt(cfg, t, i) && t.stored[i + 1].control.rate > FoundAt(cfg, t, i).rate
  }

  ghost predicate CanRaise(cfg: Config) {
    exists t, i: nat :: RaisesAt(cfg, t, i)
  }

  // ------------------------------------------------------------------ it takes a latency breach

  lemma {:induction false} RaiseNeeds(cfg: Config, t: History, i: nat)
    requires RaisesAt(cfg, t, i)
    ensures cfg.minRate < cfg.latencyFloor && cfg.slo > 0.0 && cfg.minSamples <= cfg.ring
  {
    AlwaysInBounds(cfg, t, i);
    assert StepAt(cfg, t, i);
    DecreaseExact(cfg, FoundAt(cfg, t, i), t.calls[i].op, t.calls[i].now);
    assert Breach(cfg, FoundAt(cfg, t, i), t.calls[i].op);
  }

  // ------------------------------------------------------------------ longer histories

  ghost function Last(t: History): Stored
    requires t.stored != []
  {
    t.stored[|t.stored| - 1]
  }

  ghost function Extended(cfg: Config, t: History, op: Op, now: real): History
    requires t.stored != []
  {
    History(t.stored + [Script(cfg, Last(t), op, now).0], t.calls + [Call(op, now)])
  }

  ghost predicate Follows(t: History, now: real) {
    t.calls != [] ==> t.calls[|t.calls| - 1].now <= now
  }

  lemma {:induction false} ExtendedIsHistory(cfg: Config, t: History, op: Op, now: real)
    requires IsHistory(cfg, t) && Follows(t, now)
    ensures IsHistory(cfg, Extended(cfg, t, op, now))
  {
    var u := Extended(cfg, t, op, now);
    forall i | 0 <= i < |u.calls| ensures StepAt(cfg, u, i) {
      if i < |t.calls| {
        assert StepAt(cfg, t, i);
      }
    }
  }

  // ------------------------------------------------------------------ a ring of slow calls

  /** Some latencies, all of them above the limit. */
  ghost predicate Slow(cfg: Config, s: seq<real>) {
    forall i :: 0 <= i < |s| ==> s[i] > cfg.slo
  }

  function SlowCall(cfg: Config): Op {
    Op.Success(cfg.slo + 1.0)
  }

  lemma {:induction false} NoneWithin(cfg: Config, s: seq<real>)
    requires Slow(cfg, s)
    ensures Within(s, cfg.slo) == 0
  {
    if s != [] {
      NoneWithin(cfg, s[..|s| - 1]);
    }
  }

  /** One more slow call keeps the ring slow, and is a breach once there are enough samples. */
  lemma {:induction false} SlowCallBreaches(cfg: Config, c: Control)
    requires cfg.Valid() && cfg.slo > 0.0 && Slow(cfg, c.latencies)
    ensures var s := Recorded(cfg, c, SlowCall(cfg));
            && Slow(cfg, s) && |s| == (if |c.latencies| < cfg.ring then |c.latencies| + 1 else cfg.ring)
            && (|s| >= cfg.minSamples ==> Breach(cfg, c, SlowCall(cfg)))
  {
    var s := Recorded(cfg, c, SlowCall(cfg));
    NoneWithin(cfg, s);
    PercentileMeaning(s, cfg.slo);
  }

  /** Hash and list were written at `now`, the last decrease was at `cut`, and the list is slow and long enough. */
  ghost predicate Ready(cfg: Config, t: History, now: real, cut: real, rate: real) {
    && IsHistory(cfg, t) && t.calls != [] && t.calls[|t.calls| - 1].now == now
    && Last(t).touched == Some(now) && Last(t).pushed == Some(now)
    && Last(t).control.lastDecrease == cut && Last(t).control.rate == rate
    && Slow(cfg, Last(t).control.latencies) && cfg.minSamples <= |Last(t).control.latencies| <= cfg.ring
  }

  /** The first slow calls fill the list. */
  lemma {:induction false} FillsRing(cfg: Config, k: nat) returns (t: History)
    requires cfg.Valid() && cfg.slo > 0.0 && k <= cfg.ring
    ensures IsHistory(cfg, t) && |t.calls| == k && Follows(t, 0.0) && Last(t).control.lastDecrease == 0.0
    ensures k > 0 ==> Last(t).touched == Some(0.0) && Last(t).pushed == Some(0.0) && t.calls[k - 1].now == 0.0
    ensures Slow(cfg, Last(t).control.latencies) && |Last(t).control.latencies| == k
    decreases k
  {
    if k == 0 {
      t := History([Initial(cfg)], []);
    } else {
      var before := FillsRing(cfg, k - 1);
      t := Extended(cfg, before, SlowCall(cfg), 0.0);
      ExtendedIsHistory(cfg, before, SlowCall(cfg), 0.0);
      var found := Found(cfg, Last(before), 0.0);
      assert |found.latencies| == k - 1 && Slow(cfg, found.latencies) && found.lastDecrease == 0.0;
      SlowCallBreaches(cfg, found);
    }
  }

  // ------------------------------------------------------------------ waiting out a refractory period

  /** A slow call within the refractory period changes nothing but the times. */
  lemma {:induction false} Idles(cfg: Config, t: History, now: real, cut: real, rate: real, part: real)
    returns (u: History)
    requires cfg.slo > 0.0 && Ready(cfg, t, now, cut, rate) && 0.0 <= part < cfg.ttl
    requires now + part - cut < cfg.refractory
    ensures Ready(cfg, u, now + part, cut, rate)
  {
    u := Extended(cfg, t, SlowCall(cfg), now + part);
    ExtendedIsHistory(cfg, t, SlowCall(cfg), now + part);
    SlowCallBreaches(cfg, Found(cfg, Last(t), now + part));
  }

  lemma {:induction false} Waits(cfg: Config, t: History, cut: real, rate: real, k: nat, part: real)
    returns (u: History)
    requires cfg.slo > 0.0 && Ready(cfg, t, cut, cut, rate) && 0.0 <= part < cfg.ttl
    requires k > 0 ==> Sum(k, part) < cfg.refractory
    ensures Ready(cfg, u, cut + Sum(k, part), cut, rate)
    decreases k
  {
    if k == 0 {
      u := t;
    } else {
      var before := Waits(cfg, t, cut, rate, k - 1, part);
      u := Idles(cfg, before, cut + Sum(k - 1, part), cut, rate, part);
    }
  }

  /** The rate after congestion. */
  function Step(cfg: Config, rate: real): real {
    Lowered(cfg, rate, cfg.minRate)
  }

  /** Congestion after the refractory period; the list is not written. */
  lemma {:induction false} Drops(cfg: Config, t: History, now: real, cut: real, rate: real, part: real)
    returns (u: History)
    requires Ready(cfg, t, now, cut, rate) && 0.0 <= part < cfg.ttl && now + part - cut >= cfg.refractory
    ensures IsHistory(cfg, u) && u.calls != [] && u.calls[|u.calls| - 1].now == now + part
    ensures Last(u).touched == Some(now + part) && Last(u).pushed == Some(now)
    ensures Last(u).control == Control(Step(cfg, rate), 0, now + part, Last(t).control.latencies)
  {
    u := Extended(cfg, t, Congestion, now + part);
    ExtendedIsHistory(cfg, t, Congestion, now + part);
    assert Found(cfg, Last(t), now + part) == Last(t).control;
  }

  /** A slow call right after it writes the list. */
  lemma {:induction false} Refreshes(cfg: Config, t: History, now: real, before: real, rate: real) returns (u: History)
    requires IsHistory(cfg, t) && t.calls != [] && t.calls[|t.calls| - 1].now == now
    requires cfg.slo > 0.0 && cfg.refractory > 0.0 && 0.0 <= now - before < cfg.ttl
    requires Last(t).touched == Some(now) && Last(t).pushed == Some(before)
    requires Last(t).control.lastDecrease == now && Last(t).control.rate == rate
    requires Slow(cfg, Last(t).control.latencies) && cfg.minSamples <= |Last(t).control.latencies| <= cfg.ring
    ensures Ready(cfg, u, now, now, rate)
  {
    u := Extended(cfg, t, SlowCall(cfg), now);
    ExtendedIsHistory(cfg, t, SlowCall(cfg), now);
    SlowCallBreaches(cfg, Found(cfg, Last(t), now));
  }

  lemma {:induction false} Congests(cfg: Config, t: History, now: real, cut: real, rate: real, part: real)
    returns (u: History)
    requires cfg.slo > 0.0 && Ready(cfg, t, now, cut, rate) && 0.0 <= part < cfg.ttl
    requires now + part - cut >= cfg.refractory && (cfg.refractory == 0.0 ==> part == 0.0)
    ensures Ready(cfg, u, now + part, now + part, Step(cfg, rate))
  {
    u := Drops(cfg, t, now, cut, rate, part);
    if cfg.refractory > 0.0 {
      u := Refreshes(cfg, u, now + part, now, Step(cfg, rate));
    }
  }

  /** A refractory period in parts that keep hash and list, the last of them left. */
  lemma {:induction false} Period(cfg: Config) returns (k: nat, part: real)
    requires cfg.Valid()
    ensures 0.0 <= part < cfg.ttl && Sum(k, part) + part == cfg.refractory
    ensures k > 0 ==> Sum(k, part) < cfg.refractory
    ensures cfg.refractory == 0.0 ==> part == 0.0
  {
    var n: nat;
    n, part := Parts(cfg.refractory, cfg.ttl);
    k := n - 1;
    if part == 0.0 {
      SumIsProduct(n, part);
      k := 0;
    } else {
      SumGrows(0, k, part);
    }
  }

  lemma {:induction false} Descends(cfg: Config, t: History, cut: real, rate: real) returns (u: History, later: real)
    requires cfg.slo > 0.0 && Ready(cfg, t, cut, cut, rate)
    ensures Ready(cfg, u, later, later, Step(cfg, rate))
  {
    var k, part := Period(cfg);
    var waited := Waits(cfg, t, cut, rate, k, part);
    u := Congests(cfg, waited, cut + Sum(k, part), cut, rate, part);
    later := cut + Sum(k, part) + part;
  }

  // ------------------------------------------------------------------ far enough down

  /** What a cut takes away from a rate. */
  function Lost(rate: real, f: real): real {
    rate - Cut(rate, f)
  }

  lemma {:induction false} LostGrows(floor: real, rate: real, f: real)
    requires 0.0 < f < 1.0 && 0.0 < floor <= rate
    ensures 0.0 < Lost(floor, f) <= Lost(rate, f)
  {
    var kept, over := 1.0 - f, rate - floor;
    Positive(floor, kept);
    assert floor * kept == Lost(floor, f);
    if over > 0.0 {
      Positive(over, kept);
      assert over * kept == Lost(rate, f) - Lost(floor, f);
    }
  }

  lemma {:induction false} Positive(a: real, b: real)
    requires a > 0.0 && b > 0.0
    ensures a * b > 0.0
  {
  }

  /** While the rate is above the floor, each step takes away at least this much. */
  function Loss(cfg: Config): real {
    Lost(cfg.latencyFloor, cfg.factor)
  }

  lemma {:induction false} StepLowers(cfg: Config, rate: real)
    requires cfg.Valid() && rate >= cfg.latencyFloor > cfg.minRate
    ensures cfg.minRate <= Step(cfg, rate) && Loss(cfg) > 0.0
    ensures Step(cfg, rate) < cfg.latencyFloor || Step(cfg, rate) <= rate - Loss(cfg)
  {
    LostGrows(cfg.latencyFloor, rate, cfg.factor);
  }

  lemma {:induction false} DescendsBelow(cfg: Config, t: History, cut: real, rate: real, n: nat)
    returns (u: History, later: real, low: real)
    requires cfg.slo > 0.0 && cfg.minRate < cfg.latencyFloor && Ready(cfg, t, cut, cut, rate)
    requires cfg.minRate <= rate < cfg.latencyFloor + Sum(n, Loss(cfg))
    ensures Ready(cfg, u, later, later, low) && low < cfg.latencyFloor
    decreases n
  {
    if rate < cfg.latencyFloor || n == 0 {
      u, later, low := t, cut, rate;
    } else {
      var next, soon := Descends(cfg, t, cut, rate);
      StepLowers(cfg, rate);
      SumGrows(0, n - 1, Loss(cfg));
      u, later, low := DescendsBelow(cfg, next, soon, Step(cfg, rate), n - 1);
    }
  }

  /** From there a slow call, as soon as the refractory period is over, raises the rate. */
  lemma {:induction false} Raises(cfg: Config, t: History, cut: real, rate: real) returns (u: History, i: nat)
    requires cfg.slo > 0.0 && Ready(cfg, t, cut, cut, rate) && rate < cfg.latencyFloor
    ensures RaisesAt(cfg, u, i)
  {
    var k, part := Period(cfg);
    var waited := Waits(cfg, t, cut, rate, k, part);
    var now := cut + Sum(k, part) + part;
    u := Extended(cfg, waited, SlowCall(cfg), now);
    ExtendedIsHistory(cfg, waited, SlowCall(cfg), now);
    var found := Found(cfg, Last(waited), now);
    SlowCallBreaches(cfg, found);
    i := |waited.calls|;
    AlwaysInBounds(cfg, u, i);
    assert FoundAt(cfg, u, i) == found;
    DecreaseExact(cfg, found, SlowCall(cfg), now);
  }

  lemma {:induction false} RaiseReached(cfg: Config)
    requires cfg.Valid() && cfg.minRate < cfg.latencyFloor && cfg.slo > 0.0 && cfg.minSamples <= cfg.ring
    ensures CanRaise(cfg)
  {
    var t := FillsRing(cfg, cfg.minSamples);
    var rate := Last(t).control.rate;
    AlwaysInBounds(cfg, t, |t.calls|);
    StepLowers(cfg, cfg.latencyFloor);
    var n := Archimedes(rate, Loss(cfg));
    var u, later, low := DescendsBelow(cfg, t, 0.0, rate, n);
    var v, i := Raises(cfg, u, later, low);
  }

  /**
    Some history raises the rate on a decrease if and only if the latency floor is above the minimum
    rate and the list of latencies can hold enough samples.
  */
  lemma {:induction false} RaiseExactly(cfg: Config)
    requires cfg.Valid()
    ensures CanRaise(cfg) <==> cfg.minRate < cfg.latencyFloor && cfg.slo > 0.0 && cfg.minSamples <= cfg.ring
  {
    if CanRaise(cfg) {
      var t, i: nat :| RaisesAt(cfg, t, i);
      RaiseNeeds(cfg, t, i);
    }
    if cfg.minRate < cfg.latencyFloor && cfg.slo > 0.0 && cfg.minSamples <= cfg.ring {
      RaiseReached(cfg);
    }
  }
}

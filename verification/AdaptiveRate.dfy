/**
  The AIMD rate controller that all replicas share: additive increase after a streak of successes,
  multiplicative decrease on congestion, at most one decrease per refractory period.
*/
module AdaptiveRates {
  import opened Options
  import opened Reals
  import opened Clocks
  import opened Percentiles

  datatype Config = Config(minRate: real, maxRate: real, factor: real, step: real, after: nat, refractory: real,
                           slo: real, ring: nat, minSamples: nat, latencyFloor: real, ttl: real)
  {
    predicate Valid() {
      && 0.0 < minRate <= latencyFloor <= maxRate && 0.0 < factor < 1.0
      && step > 0.0 && after >= 1 && refractory >= 0.0 && ring >= 1 && minSamples >= 1 && ttl > 0.0
    }
  }

  /** The fields of the hash, and the list of recent latencies, newest first. */
  datatype Control = Control(rate: real, successes: nat, lastDecrease: real, latencies: seq<real>)

  /** What is stored, with the times from which the expiry of the hash and of the list count. */
  datatype Stored = Stored(control: Control, touched: Option<real>, pushed: Option<real>)

  datatype Op = Read | Success(latency: real) | Congestion

  datatype Reason = Nothing | Refractory | Decrease | DecreaseLatency | AtFloor | Increase

  /** The rate in thousandths and the percentile are rounded; the percentile is -1 when there is none. */
  datatype Verdict = Verdict(milli: int, changed: bool, reason: Reason, p95: int, successes: nat)

  // ------------------------------------------------------------------ the control law

  /** The latencies after an operation; they are recorded for successes only. */
  predicate Records(cfg: Config, op: Op) {
    op.Success? && op.latency >= 0.0 && cfg.slo > 0.0
  }

  function Recorded(cfg: Config, c: Control, op: Op): seq<real> {
    if Records(cfg, op) then
      var all := [op.latency] + c.latencies;
      if |all| <= cfg.ring then all else all[..cfg.ring]
    else c.latencies
  }

  /** The percentile, once there are enough samples. */
  function Measured(cfg: Config, c: Control, op: Op): real {
    var s := Recorded(cfg, c, op);
    if Records(cfg, op) && s != [] && |s| >= cfg.minSamples then P95(s) else -1.0
  }

  /** Too many of the recent calls were slow. */
  predicate Breach(cfg: Config, c: Control, op: Op) {
    Measured(cfg, c, op) >= 0.0 && cfg.slo > 0.0 && Measured(cfg, c, op) > cfg.slo
  }

  predicate Congested(cfg: Config, c: Control, op: Op) {
    op == Congestion || Breach(cfg, c, op)
  }

  function Cut(rate: real, factor: real): real {
    rate * factor
  }

  /** The decreased rate, not below a floor. */
  function Lowered(cfg: Config, rate: real, floor: real): real {
    Max(Cut(rate, cfg.factor), floor)
  }

  /** A decrease is due: congestion, and the last decrease long enough ago. */
  predicate Cuts(cfg: Config, c: Control, op: Op, now: real) {
    Congested(cfg, c, op) && now - c.lastDecrease >= cfg.refractory
  }

  function FloorFor(cfg: Config, op: Op): real {
    if op == Congestion then cfg.minRate else cfg.latencyFloor
  }

  /** The streak after a success. */
  function Banked(cfg: Config, successes: nat): nat {
    if successes + 1 >= cfg.after then 0 else successes + 1
  }

  /** What the script makes of the values it finds. */
  function Law(cfg: Config, c: Control, op: Op, now: real): (Control, bool, Reason) {
    var latencies := Recorded(cfg, c, op);
    if Cuts(cfg, c, op, now) then
      var rate := Lowered(cfg, c.rate, FloorFor(cfg, op));
      (Control(rate, 0, now, latencies), rate != c.rate,
       if rate == c.rate then AtFloor else if op == Congestion then Decrease else DecreaseLatency)
    else if Congested(cfg, c, op) then
      (Control(c.rate, 0, c.lastDecrease, latencies), false, Refractory)
    else if op.Success? && c.successes + 1 >= cfg.after && c.rate < cfg.maxRate then
      (Control(Min(c.rate + cfg.step, cfg.maxRate), 0, c.lastDecrease, latencies), true, Increase)
    else
      (Control(c.rate, if op.Success? then Banked(cfg, c.successes) else c.successes, c.lastDecrease, latencies),
       false, Nothing)
  }

  predicate Gone(since: Option<real>, now: real, ttl: real) {
    since.None? || now - since.value >= ttl
  }

  /** The values that a run at time `now` finds; an expired hash starts at the advertised rate. */
  function Found(cfg: Config, s: Stored, now: real): Control {
    var latencies := if Gone(s.pushed, now, cfg.ttl) then [] else s.control.latencies;
    if Gone(s.touched, now, cfg.ttl) then Control(cfg.maxRate, 0, 0.0, latencies)
    else s.control.(latencies := latencies)
  }

  function Rounded(x: real): int {
    (x + 0.5).Floor
  }

  /** One run of the script. */
  function Script(cfg: Config, s: Stored, op: Op, now: real): (Stored, Verdict) {
    var found := Found(cfg, s, now);
    var (c, changed, reason) := Law(cfg, found, op, now);
    (Stored(c, Some(now), if Records(cfg, op) then Some(now) else s.pushed),
     Verdict(Rounded(c.rate * 1000.0), changed, reason, Rounded(Measured(cfg, found, op)), c.successes))
  }

  function Initial(cfg: Config): Stored {
    Stored(Control(cfg.maxRate, 0, 0.0, []), None, None)
  }

  class AdaptiveRate {
    const cfg: Config
    var rate: real
    var successes: nat
    var lastDecrease: real
    var latencies: seq<real>
    var touched: Option<real>
    var pushed: Option<real>

    ghost function Value(): Stored
      reads this
    {
      Stored(Control(rate, successes, lastDecrease, latencies), touched, pushed)
    }

    constructor (cfg: Config)
      ensures this.cfg == cfg && Value() == Initial(cfg)
    {
      this.cfg := cfg;
      rate, successes, lastDecrease, latencies := cfg.maxRate, 0, 0.0, [];
      touched, pushed := None, None;
    }

    /** Reads the hash and the list, as far as they have not expired. */
    method Load(now: real)
      modifies this
      ensures Value().control == Found(cfg, old(Value()), now) && touched == old(touched) && pushed == old(pushed)
    {
      if Gone(touched, now, cfg.ttl) {
        rate, successes, lastDecrease := cfg.maxRate, 0, 0.0;
      }
      if Gone(pushed, now, cfg.ttl) {
        latencies := [];
      }
    }

    /** Records a latency and takes the percentile. */
    method Measure(op: Op, now: real) returns (p95: real)
      modifies this`latencies, this`pushed
      ensures latencies == Recorded(cfg, old(Value().control), op) && p95 == Measured(cfg, old(Value().control), op)
      ensures pushed == if Records(cfg, op) then Some(now) else old(pushed)
    {
      p95 := -1.0;
      if op.Success? && op.latency >= 0.0 && cfg.slo > 0.0 {
        latencies := [op.latency] + latencies;
        if |latencies| > cfg.ring {
          latencies := latencies[..cfg.ring];
        }
        pushed := Some(now);
        if latencies != [] && |latencies| >= cfg.minSamples {
          p95 := P95(latencies);
        }
      }
    }

    method Run(op: Op, now: real) returns (v: Verdict)
      modifies this
      ensures (Value(), v) == Script(cfg, old(Value()), op, now)
    {
      Load(now);
      ghost var found := Value().control;
      var p95 := Measure(op, now);
      var congested, changed, reason := op == Congestion, false, Nothing;
      if congested || (p95 >= 0.0 && cfg.slo > 0.0 && p95 > cfg.slo) {
        successes := 0;
        if now - lastDecrease < cfg.refractory {
          reason := Refractory;
        } else {
          var lower := Lowered(cfg, rate, if congested then cfg.minRate else cfg.latencyFloor);
          if lower != rate {
            rate, changed, reason := lower, true, if congested then Decrease else DecreaseLatency;
          } else {
            reason := AtFloor;
          }
          lastDecrease := now;
        }
      } else if op.Success? {
        successes := successes + 1;
        if successes >= cfg.after {
          successes := 0;
          if rate < cfg.maxRate {
            rate, changed, reason := Min(rate + cfg.step, cfg.maxRate), true, Increase;
          }
        }
      }
      touched := Some(now);
      assert (Value().control, changed, reason) == Law(cfg, found, op, now);
      return Verdict(Rounded(rate * 1000.0), changed, reason, Rounded(p95), successes);
    }
  }

  // ------------------------------------------------------------------ one run of the script

  predicate InBounds(cfg: Config, c: Control) {
    cfg.minRate <= c.rate <= cfg.maxRate && c.successes < cfg.after
  }

  lemma {:induction false} CutBounds(rate: real, f: real)
    requires 0.0 < f < 1.0 && rate > 0.0
    ensures 0.0 < Cut(rate, f) < rate
  {
    var d := rate * (1.0 - f);
    assert d > 0.0 && rate * f == rate - d;
  }

  lemma {:induction false} CutMonotone(a: real, b: real, f: real)
    requires a >= b && f > 0.0
    ensures Cut(a, f) >= Cut(b, f)
  {
    var d := (a - b) * f;
    assert d >= 0.0 && a * f == b * f + d;
  }

  lemma {:induction false} LoweredBounds(cfg: Config, rate: real, floor: real)
    requires cfg.Valid() && rate > 0.0
    ensures floor <= Lowered(cfg, rate, floor) <= Max(rate, floor)
    ensures Lowered(cfg, rate, floor) >= Cut(rate, cfg.factor)
    ensures Lowered(cfg, rate, floor) > rate <==> floor > rate
  {
    CutBounds(rate, cfg.factor);
  }

  lemma {:induction false} BoundsKept(cfg: Config, s: Stored, op: Op, now: real)
    requires cfg.Valid() && InBounds(cfg, s.control)
    ensures InBounds(cfg, Found(cfg, s, now)) && InBounds(cfg, Script(cfg, s, op, now).0.control)
  {
    var found := Found(cfg, s, now);
    if Cuts(cfg, found, op, now) {
      LoweredBounds(cfg, found.rate, FloorFor(cfg, op));
    }
  }

  /** Congestion never raises the rate; a slow endpoint does, exactly when the rate is below the latency floor. */
  lemma {:induction false} DecreaseExact(cfg: Config, c: Control, op: Op, now: real)
    requires cfg.Valid() && InBounds(cfg, c) && Cuts(cfg, c, op, now)
    ensures Law(cfg, c, op, now).0.rate > c.rate <==> op != Congestion && c.rate < cfg.latencyFloor
  {
    LoweredBounds(cfg, c.rate, FloorFor(cfg, op));
  }

  // ------------------------------------------------------------------ histories

  datatype History = History(stored: seq<Stored>, calls: seq<Call<Op>>)

  ghost predicate StepAt(cfg: Config, t: History, i: nat)
    requires |t.stored| == |t.calls| + 1 && i < |t.calls|
  {
    t.stored[i + 1] == Script(cfg, t.stored[i], t.calls[i].op, t.calls[i].now).0
  }

  ghost predicate IsHistory(cfg: Config, t: History) {
    && cfg.Valid() && |t.stored| == |t.calls| + 1 && t.stored[0] == Initial(cfg)
    && Timely(t.calls)
    && forall i :: 0 <= i < |t.calls| ==> StepAt(cfg, t, i)
  }

  /** The values that call `i` finds. */
  function FoundAt(cfg: Config, t: History, i: nat): Control
    requires |t.stored| == |t.calls| + 1 && i < |t.calls|
  {
    Found(cfg, t.stored[i], t.calls[i].now)
  }

  /** Call `i` finds the hash expired. */
  predicate ExpiresAt(cfg: Config, t: History, i: nat)
    requires |t.stored| == |t.calls| + 1 && i < |t.calls|
  {
    i > 0 && t.calls[i].now - t.calls[i - 1].now >= cfg.ttl
  }

  /** The hash does not expire in calls `i` to `j - 1`. */
  ghost predicate Kept(cfg: Config, t: History, i: nat, j: nat)
    requires |t.stored| == |t.calls| + 1 && j <= |t.calls|
    decreases j
  {
    i >= j || (Kept(cfg, t, i, j - 1) && !ExpiresAt(cfg, t, j - 1))
  }

  /** The rate stays between its limits. */
  lemma {:induction false} AlwaysInBounds(cfg: Config, t: History, n: nat)
    requires IsHistory(cfg, t) && n < |t.stored|
    ensures InBounds(cfg, t.stored[n].control)
    ensures n < |t.calls| ==> InBounds(cfg, FoundAt(cfg, t, n))
    decreases n
  {
    if n > 0 {
      AlwaysInBounds(cfg, t, n - 1);
      assert StepAt(cfg, t, n - 1);
      BoundsKept(cfg, t.stored[n - 1], t.calls[n - 1].op, t.calls[n - 1].now);
    }
    if n < |t.calls| {
      BoundsKept(cfg, t.stored[n], t.calls[n].op, t.calls[n].now);
    }
  }

  /** What a call finds is what the call before it left, unless the hash has expired. */
  lemma {:induction false} FoundWhat(cfg: Config, t: History, i: nat)
    requires IsHistory(cfg, t) && i < |t.calls|
    ensures var c, found := t.stored[i].control, FoundAt(cfg, t, i);
            if ExpiresAt(cfg, t, i)
            then found.rate == cfg.maxRate && found.successes == 0 && found.lastDecrease == 0.0
            else found.rate == c.rate && found.successes == c.successes && found.lastDecrease == c.lastDecrease
  {
    if i > 0 {
      assert StepAt(cfg, t, i - 1);
    }
  }

  // ------------------------------------------------------------------ how fast the rate can fall

  ghost predicate CutsAt(cfg: Config, t: History, i: nat)
    requires |t.stored| == |t.calls| + 1 && i < |t.calls|
  {
    Cuts(cfg, FoundAt(cfg, t, i), t.calls[i].op, t.calls[i].now)
  }

  ghost function Count(hit: nat -> bool, i: nat, j: nat): nat
    requires i <= j
    decreases j
  {
    if i == j then 0 else Count(hit, i, j - 1) + (if hit(j - 1) then 1 else 0)
  }

  ghost function CutsIn(cfg: Config, t: History): nat -> bool
    requires |t.stored| == |t.calls| + 1
  {
    (k: nat) => k < |t.calls| && CutsAt(cfg, t, k)
  }

  /** The decreases among calls `i` to `j - 1`. */
  ghost function CutCount(cfg: Config, t: History, i: nat, j: nat): nat
    requires |t.stored| == |t.calls| + 1 && i <= j <= |t.calls|
  {
    Count(CutsIn(cfg, t), i, j)
  }

  lemma {:induction false} LastDecreaseAt(cfg: Config, t: History, i: nat)
    requires IsHistory(cfg, t) && i < |t.calls|
    ensures t.stored[i + 1].control.lastDecrease ==
            if CutsAt(cfg, t, i) then t.calls[i].now else FoundAt(cfg, t, i).lastDecrease
    ensures CutsAt(cfg, t, i) ==> t.calls[i].now - FoundAt(cfg, t, i).lastDecrease >= cfg.refractory
  {
    assert StepAt(cfg, t, i);
  }

  /** A decrease is remembered until the hash expires. */
  lemma {:induction false} CutRemembered(cfg: Config, t: History, i: nat, j: nat)
    requires IsHistory(cfg, t) && i < j < |t.calls| && CutsAt(cfg, t, i)
    ensures FoundAt(cfg, t, j).lastDecrease >= t.calls[i].now ||
            (t.calls[j].now - t.calls[i].now >= cfg.ttl && !Kept(cfg, t, i + 1, j + 1))
    decreases j
  {
    LastDecreaseAt(cfg, t, j - 1);
    FoundWhat(cfg, t, j);
    ClockGrows(t.calls, i, j - 1);
    ClockGrows(t.calls, j - 1, j);
    if j > i + 1 {
      CutRemembered(cfg, t, i, j - 1);
    }
  }

  /** Any two decreases are a refractory period apart, if the hash outlives that period or was kept. */
  lemma {:induction false} CutsApart(cfg: Config, t: History, i: nat, j: nat)
    requires IsHistory(cfg, t) && i < j < |t.calls| && CutsAt(cfg, t, i) && CutsAt(cfg, t, j)
    requires cfg.ttl >= cfg.refractory || Kept(cfg, t, i + 1, j + 1)
    ensures t.calls[j].now - t.calls[i].now >= cfg.refractory
  {
    CutRemembered(cfg, t, i, j);
    LastDecreaseAt(cfg, t, j);
  }

  ghost predicate AlwaysApart(cfg: Config) {
    forall t, i: nat, j: nat :: TwoCuts(cfg, t, i, j) ==> t.calls[j].now - t.calls[i].now >= cfg.refractory
  }

  ghost predicate TwoCuts(cfg: Config, t: History, i: nat, j: nat) {
    IsHistory(cfg, t) && i < j < |t.calls| && CutsAt(cfg, t, i) && CutsAt(cfg, t, j)
  }

  /** That holds on all histories if and only if the hash outlives the refractory period. */
  lemma {:induction false} ApartExactly(cfg: Config)
    requires cfg.Valid()
    ensures AlwaysApart(cfg) <==> cfg.ttl >= cfg.refractory
  {
    if cfg.ttl >= cfg.refractory {
      forall t, i: nat, j: nat | TwoCuts(cfg, t, i, j) ensures t.calls[j].now - t.calls[i].now >= cfg.refractory {
        CutsApart(cfg, t, i, j);
      }
    } else {
      ForgottenCut(cfg);
    }
  }

  /** Congestion, and congestion again when the hash has just expired. */
  lemma {:induction false} ForgottenCut(cfg: Config)
    requires cfg.Valid() && cfg.ttl < cfg.refractory
    ensures !AlwaysApart(cfg)
  {
    var first, second := Call(Congestion, cfg.refractory), Call(Congestion, cfg.refractory + cfg.ttl);
    var s1 := Script(cfg, Initial(cfg), Congestion, first.now).0;
    var s2 := Script(cfg, s1, Congestion, second.now).0;
    var t := History([Initial(cfg), s1, s2], [first, second]);
    assert StepAt(cfg, t, 0) && StepAt(cfg, t, 1);
    assert CutsAt(cfg, t, 0) && CutsAt(cfg, t, 1);
    assert TwoCuts(cfg, t, 0, 1);
  }

  /** Events that are `x` apart leave a time of `x` for each one but the first. */
  lemma {:induction false} SpacedCount(hit: nat -> bool, now: nat -> real, i: nat, j: nat, x: real) returns (last: nat)
    requires i < j && Count(hit, i, j) > 0
    requires forall a: nat, b: nat :: i <= a <= b < j ==> now(a) <= now(b)
    requires forall a: nat, b: nat :: i <= a < b < j && hit(a) && hit(b) ==> now(b) - now(a) >= x
    ensures i <= last < j && hit(last) && Sum(Count(hit, i, j) - 1, x) <= now(last) - now(i)
    decreases j
  {
    if Count(hit, i, j - 1) > 0 {
      last := SpacedCount(hit, now, i, j - 1, x);
      if hit(j - 1) {
        assert now(j - 1) - now(last) >= x;
        last := j - 1;
      }
    } else {
      last := j - 1;
    }
  }

  /** A rate after `n` decreases by the factor. */
  ghost function CutTimes(rate: real, f: real, n: nat): real {
    if n == 0 then rate else Cut(CutTimes(rate, f, n - 1), f)
  }

  lemma {:induction false} CutTimesFalls(rate: real, f: real, m: nat, n: nat)
    requires 0.0 < f < 1.0 && rate > 0.0 && m <= n
    ensures 0.0 < CutTimes(rate, f, n) <= CutTimes(rate, f, m)
    decreases n
  {
    if m < n {
      CutTimesFalls(rate, f, m, n - 1);
      CutBounds(CutTimes(rate, f, n - 1), f);
    } else if n > 0 {
      CutTimesFalls(rate, f, n - 1, n - 1);
      CutBounds(CutTimes(rate, f, n - 1), f);
    }
  }

  lemma {:induction false} CutTimesMonotone(a: real, b: real, f: real, n: nat)
    requires a >= b && f > 0.0
    ensures CutTimes(a, f, n) >= CutTimes(b, f, n)
  {
    if n > 0 {
      CutTimesMonotone(a, b, f, n - 1);
      CutMonotone(CutTimes(a, f, n - 1), CutTimes(b, f, n - 1), f);
    }
  }

  /** One call takes away at most the factor, and only if it is a decrease. */
  lemma {:induction false} FallAt(cfg: Config, t: History, i: nat)
    requires IsHistory(cfg, t) && i < |t.calls|
    ensures FoundAt(cfg, t, i).rate >= t.stored[i].control.rate > 0.0
    ensures t.stored[i + 1].control.rate >=
            if CutsAt(cfg, t, i) then Cut(FoundAt(cfg, t, i).rate, cfg.factor) else FoundAt(cfg, t, i).rate
  {
    AlwaysInBounds(cfg, t, i);
    assert StepAt(cfg, t, i);
    var found := FoundAt(cfg, t, i);
    if CutsAt(cfg, t, i) {
      LoweredBounds(cfg, found.rate, FloorFor(cfg, t.calls[i].op));
    }
  }

  /** So do several calls, from what the first of them finds. */
  lemma {:induction false} FallsPerCut(cfg: Config, t: History, i: nat, j: nat)
    requires IsHistory(cfg, t) && i < j <= |t.calls|
    ensures t.stored[j].control.rate >= CutTimes(FoundAt(cfg, t, i).rate, cfg.factor, CutCount(cfg, t, i, j))
    decreases j
  {
    FallAt(cfg, t, j - 1);
    if i < j - 1 {
      FallsPerCut(cfg, t, i, j - 1);
      CutMonotone(FoundAt(cfg, t, j - 1).rate,
                  CutTimes(FoundAt(cfg, t, i).rate, cfg.factor, CutCount(cfg, t, i, j - 1)), cfg.factor);
    } else {
      assert CutCount(cfg, t, i, j - 1) == 0;
      assert CutTimes(FoundAt(cfg, t, i).rate, cfg.factor, 0) == FoundAt(cfg, t, i).rate;
    }
  }

  lemma {:induction false} BoundedCount(hit: nat -> bool, now: nat -> real, i: nat, j: nat, x: real, periods: nat)
    requires i < j && x >= 0.0 && now(j - 1) - now(i) < Sum(periods + 1, x)
    requires forall a: nat, b: nat :: i <= a <= b < j ==> now(a) <= now(b)
    requires forall a: nat, b: nat :: i <= a < b < j && hit(a) && hit(b) ==> now(b) - now(a) >= x
    ensures Count(hit, i, j) <= periods + 1
  {
    var n := Count(hit, i, j);
    if n > 0 {
      var last := SpacedCount(hit, now, i, j, x);
      if n - 1 >= periods + 1 {
        SumGrows(periods + 1, n - 1, x);
      }
    }
  }

  lemma {:induction false} KeptWithin(cfg: Config, t: History, i: nat, j: nat, a: nat, b: nat)
    requires |t.stored| == |t.calls| + 1 && i <= a && b <= j <= |t.calls| && Kept(cfg, t, i, j)
    ensures Kept(cfg, t, a, b)
    decreases j
  {
    if b < j {
      if i < j {
        KeptWithin(cfg, t, i, j - 1, a, b);
      }
    } else if a < b {
      KeptWithin(cfg, t, i, j - 1, a, b - 1);
    }
  }

  lemma {:induction false} CutsInSpan(cfg: Config, t: History, i: nat, j: nat, periods: nat)
    requires IsHistory(cfg, t) && i < j <= |t.calls| && (cfg.ttl >= cfg.refractory || Kept(cfg, t, i + 1, j))
    requires t.calls[j - 1].now - t.calls[i].now < Sum(periods + 1, cfg.refractory)
    ensures CutCount(cfg, t, i, j) <= periods + 1
  {
    var hit := CutsIn(cfg, t);
    var now := (k: nat) => if k < |t.calls| then t.calls[k].now else 0.0;
    forall a: nat, b: nat | i <= a <= b < j
      ensures now(a) <= now(b) && (a < b && hit(a) && hit(b) ==> now(b) - now(a) >= cfg.refractory)
    {
      ClockGrows(t.calls, a, b);
      if a < b && hit(a) && hit(b) {
        if cfg.ttl < cfg.refractory {
          KeptWithin(cfg, t, i + 1, j, a + 1, b + 1);
        }
        CutsApart(cfg, t, a, b);
      }
    }
    BoundedCount(hit, now, i, j, cfg.refractory, periods);
  }

  /** The last call before `j` that found the hash expired, or call `i`. */
  lemma {:induction false} LastExpiry(cfg: Config, t: History, i: nat, j: nat) returns (e: nat)
    requires IsHistory(cfg, t) && i < j <= |t.calls|
    ensures i <= e < j && (e == i || ExpiresAt(cfg, t, e)) && Kept(cfg, t, e + 1, j)
    decreases j
  {
    if i == j - 1 || ExpiresAt(cfg, t, j - 1) {
      e := j - 1;
    } else {
      e := LastExpiry(cfg, t, i, j - 1);
    }
  }

  /**
    In a span of `periods` refractory periods the rate is cut at most `periods + 1` times; a hash that
    expires meanwhile only brings the rate back to its maximum.
  */
  lemma {:induction false} FallsSlowly(cfg: Config, t: History, i: nat, j: nat, periods: nat)
    requires IsHistory(cfg, t) && i < j <= |t.calls|
    requires t.calls[j - 1].now - t.calls[i].now < Sum(periods + 1, cfg.refractory)
    ensures t.stored[j].control.rate >= CutTimes(t.stored[i].control.rate, cfg.factor, periods + 1)
  {
    var e := LastExpiry(cfg, t, i, j);
    ClockGrows(t.calls, i, e);
    CutsInSpan(cfg, t, e, j, periods);
    FallsPerCut(cfg, t, e, j);
    FallAt(cfg, t, i);
    AlwaysInBounds(cfg, t, i);
    FoundWhat(cfg, t, e);
    var high, low := FoundAt(cfg, t, e).rate, t.stored[i].control.rate;
    CutTimesMonotone(high, low, cfg.factor, CutCount(cfg, t, e, j));
    CutTimesFalls(low, cfg.factor, CutCount(cfg, t, e, j), periods + 1);
  }

  // ------------------------------------------------------------------ how fast it recovers

  /** Calls `i` to `j - 1` are successes of an endpoint that is not slow. */
  ghost predicate Healthy(cfg: Config, t: History, i: nat, j: nat)
    requires |t.stored| == |t.calls| + 1 && j <= |t.calls|
  {
    forall k: nat :: i <= k < j ==> HealthyAt(cfg, t, k)
  }

  ghost predicate HealthyAt(cfg: Config, t: History, k: nat)
    requires |t.stored| == |t.calls| + 1 && k < |t.calls|
  {
    t.calls[k].op.Success? && !Breach(cfg, FoundAt(cfg, t, k), t.calls[k].op)
  }

  lemma {:induction false} HealthyStep(cfg: Config, t: History, k: nat)
    requires IsHistory(cfg, t) && k < |t.calls| && HealthyAt(cfg, t, k)
    ensures var c, d := FoundAt(cfg, t, k), t.stored[k + 1].control;
            if c.successes + 1 >= cfg.after then d.successes == 0 && d.rate == Min(c.rate + cfg.step, cfg.maxRate)
            else d.successes == c.successes + 1 && d.rate == c.rate
    ensures FoundAt(cfg, t, k).rate == cfg.maxRate ==> t.stored[k + 1].control.rate == cfg.maxRate
  {
    AlwaysInBounds(cfg, t, k);
    assert StepAt(cfg, t, k);
  }

  /** The state after a streak, exactly: one step for every full round of successes, up to the maximum. */
  ghost predicate Climbs(cfg: Config, before: Control, after: Control, n: nat)
    requires cfg.Valid()
  {
    var banked := before.successes + n;
    && after.successes == banked % cfg.after
    && after.rate == Min(before.rate + Climbed(cfg, banked), cfg.maxRate)
  }

  /** `n` healthy calls from call `i` on; `kept` tells that the hash did not expire meanwhile. */
  ghost predicate Streak(cfg: Config, before: Control, after: Control, n: nat, kept: bool)
    requires cfg.Valid()
  {
    if kept then Climbs(cfg, before, after, n) else after.rate == cfg.maxRate
  }

  lemma {:induction false} StreakStep(cfg: Config, t: History, before: Control, n: nat, kept: bool, k: nat)
    requires IsHistory(cfg, t) && k < |t.calls| && HealthyAt(cfg, t, k)
    requires Streak(cfg, before, t.stored[k].control, n, kept)
    ensures Streak(cfg, before, t.stored[k + 1].control, n + 1, kept && !ExpiresAt(cfg, t, k))
  {
    FoundWhat(cfg, t, k);
    HealthyStep(cfg, t, k);
    AlwaysInBounds(cfg, t, k);
    ClimbsOn(cfg, before.successes + n);
  }

  /** After a streak the state is as above; if the hash expired meanwhile, the rate is at its maximum. */
  lemma {:induction false} RecoversExactly(cfg: Config, t: History, i: nat, n: nat)
    requires IsHistory(cfg, t) && i + n <= |t.calls| && Healthy(cfg, t, i, i + n)
    ensures Streak(cfg, t.stored[i].control, t.stored[i + n].control, n, Kept(cfg, t, i, i + n))
    decreases n
  {
    if n == 0 {
      AlwaysInBounds(cfg, t, i);
      NothingBanked(cfg, t.stored[i].control.successes);
    } else {
      RecoversExactly(cfg, t, i, n - 1);
      assert HealthyAt(cfg, t, i + n - 1);
      StreakStep(cfg, t, t.stored[i].control, n - 1, Kept(cfg, t, i, i + n - 1), i + n - 1);
    }
  }

  /** The rate gained for a number of successes in a row. */
  ghost function Climbed(cfg: Config, banked: nat): real
    requires cfg.Valid()
  {
    Sum(banked / cfg.after, cfg.step)
  }

  lemma {:induction false} NothingBanked(cfg: Config, c: nat)
    requires cfg.Valid() && c < cfg.after
    ensures Climbed(cfg, c) == 0.0 && c % cfg.after == c
  {
    Division(c, cfg.after, 0, c);
  }

  lemma {:induction false} ClimbsOn(cfg: Config, b: nat)
    requires cfg.Valid()
    ensures if b % cfg.after + 1 >= cfg.after then
              (b + 1) % cfg.after == 0 && Climbed(cfg, b + 1) == Climbed(cfg, b) + cfg.step
            else
              (b + 1) % cfg.after == b % cfg.after + 1 && Climbed(cfg, b + 1) == Climbed(cfg, b)
    ensures cfg.step > 0.0
  {
    NextBanked(b, cfg.after);
  }

  lemma {:induction false} NextBanked(b: nat, after: nat)
    requires after >= 1
    ensures b % after + 1 < after ==> (b + 1) % after == b % after + 1 && (b + 1) / after == b / after
    ensures b % after + 1 >= after ==> (b + 1) % after == 0 && (b + 1) / after == b / after + 1
  {
    var q, r := b / after, b % after;
    assert b == q * after + r;
    if r + 1 < after {
      Division(b + 1, after, q, r + 1);
    } else {
      assert (q + 1) * after == q * after + after;
      Division(b + 1, after, q + 1, 0);
    }
  }

  lemma {:induction false} Multiple(k: int, d: nat)
    requires k != 0
    ensures k * d >= d || k * d + d <= 0
  {
    if k > 0 {
      assert (k - 1) * d >= 0;
    } else {
      assert (-k - 1) * d >= 0;
    }
  }

  lemma {:induction false} Division(b: nat, d: nat, q: nat, r: nat)
    requires d >= 1 && b == q * d + r && r < d
    ensures b / d == q && b % d == r
  {
    var q', r' := b / d, b % d;
    assert (q - q') * d == r' - r;
    if q != q' {
      Multiple(q - q', d);
    }
  }

  /** Enough rounds of successes to cover the distance restore the maximum, whatever expires meanwhile. */
  lemma {:induction false} RecoversFully(cfg: Config, t: History, i: nat, rounds: nat)
    requires IsHistory(cfg, t) && i + cfg.after * rounds <= |t.calls|
    requires Healthy(cfg, t, i, i + cfg.after * rounds)
    requires Sum(rounds, cfg.step) >= cfg.maxRate - t.stored[i].control.rate
    ensures t.stored[i + cfg.after * rounds].control.rate == cfg.maxRate
  {
    var n := cfg.after * rounds;
    AlwaysInBounds(cfg, t, i);
    RecoversExactly(cfg, t, i, n);
    Division(t.stored[i].control.successes + n, cfg.after, rounds, t.stored[i].control.successes);
  }
}

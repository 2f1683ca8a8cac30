/** The circuit breaker that all replicas share, one script run per operation; times in milliseconds. */
module CircuitBreakers {
  import opened Reals
  import opened Clocks

  datatype Mode = Closed | Open | HalfOpen

  datatype Op = Allow | Success | Failure | Peek

  datatype Config = Config(window: real, minVolume: nat, ratio: real, cooldown: real,
                           maxProbes: nat, probeSuccesses: nat, ttl: real)
  {
    predicate Valid() {
      0.0 < ratio <= 1.0 && minVolume >= 1 && maxProbes >= 1 && probeSuccesses >= 1
    }
  }

  /** The stored hash; `touched` is the time of the last script run, from which its expiry counts. */
  datatype Hash =
    | Missing
    | Hash(mode: Mode, windowStart: real, failures: nat, successes: nat,
           openedAt: real, probes: nat, probeOk: nat, touched: real)

  datatype Verdict = Verdict(allowed: bool, mode: Mode, retryAfter: int, failures: nat, successes: nat)

  /** The hash as a run at time `now` finds it: gone when it has not been touched for its time to live. */
  function Found(cfg: Config, h: Hash, now: real): Hash {
    if h.Hash? && now - h.touched >= cfg.ttl then Missing else h
  }

  /** The hash brought up to date: a new window, or an elapsed cooldown. */
  function Loaded(cfg: Config, h: Hash, now: real): (r: Hash)
    ensures r.Hash?
  {
    var g := if h.Missing? then Hash(Closed, now, 0, 0, 0.0, 0, 0, now) else h.(touched := now);
    if g.mode == Closed && now - g.windowStart >= cfg.window then
      g.(windowStart := now, failures := 0, successes := 0)
    else if g.mode == Open && now - g.openedAt >= cfg.cooldown then
      g.(mode := HalfOpen, probes := 0, probeOk := 0)
    else g
  }

  function Opened(g: Hash, now: real): Hash
    requires g.Hash?
  {
    g.(mode := Open, openedAt := now, probes := 0, probeOk := 0)
  }

  /** Enough outcomes, and enough of them failures. */
  predicate Trips(cfg: Config, failures: nat, successes: nat)
    requires failures > 0
  {
    failures + successes >= cfg.minVolume && failures as real / (failures + successes) as real >= cfg.ratio
  }

  /** The hash after the operation, whether it is allowed, and when to retry. */
  function Operate(cfg: Config, g: Hash, op: Op, now: real): (Hash, bool, real)
    requires g.Hash?
  {
    var left := Ceil(cfg.cooldown - (now - g.openedAt)) as real;
    match op
    case Allow =>
      if g.mode == Open then (g, false, if left < 0.0 then 0.0 else left)
      else if g.mode == HalfOpen then
        if g.probes < cfg.maxProbes then (g.(probes := g.probes + 1), true, 0.0)
        else (g, false, Ceil(cfg.cooldown / 4.0) as real)
      else (g, true, 0.0)
    case Peek =>
      if g.mode == Open then (g, false, if left < 0.0 then 0.0 else left)
      else (g, g.mode == Closed || g.probes < cfg.maxProbes, 0.0)
    case Success =>
      if g.mode == HalfOpen then
        if g.probeOk + 1 >= cfg.probeSuccesses then
          (Hash(Closed, now, 0, 0, g.openedAt, 0, 0, g.touched), true, 0.0)
        else
          (g.(probeOk := g.probeOk + 1, probes := if g.probes > 0 then g.probes - 1 else 0), true, 0.0)
      else (g.(successes := g.successes + 1), true, 0.0)
    case Failure =>
      if g.mode == HalfOpen then (Opened(g, now), false, cfg.cooldown)
      else
        var h := g.(failures := g.failures + 1);
        if Trips(cfg, h.failures, h.successes) then (Opened(h, now), false, cfg.cooldown) else (h, false, 0.0)
  }

  /** One run of the script. */
  function Script(cfg: Config, h: Hash, op: Op, now: real): (Hash, Verdict) {
    var (g, allowed, retry) := Operate(cfg, Loaded(cfg, Found(cfg, h, now), now), op, now);
    (g, Verdict(allowed, g.mode, retry.Floor, g.failures, g.successes))
  }

  class CircuitBreaker {
    const cfg: Config
    var stored: Hash

    constructor (cfg: Config)
      ensures this.cfg == cfg && stored == Missing
    {
      this.cfg := cfg;
      stored := Missing;
    }

    method Run(op: Op, now: real) returns (v: Verdict)
      modifies this
      ensures (stored, v) == Script(cfg, old(stored), op, now)
    {
      var mode, windowStart, failures, successes := Closed, now, 0, 0;
      var openedAt, probes, probeOk := 0.0, 0, 0;
      if stored.Hash? && now - stored.touched < cfg.ttl {
        mode, windowStart, failures, successes := stored.mode, stored.windowStart, stored.failures, stored.successes;
        openedAt, probes, probeOk := stored.openedAt, stored.probes, stored.probeOk;
      }
      if mode == Closed && now - windowStart >= cfg.window {
        windowStart, failures, successes := now, 0, 0;
      }
      if mode == Open && now - openedAt >= cfg.cooldown {
        mode, probes, probeOk := HalfOpen, 0, 0;
      }
      ghost var loaded := Hash(mode, windowStart, failures, successes, openedAt, probes, probeOk, now);
      assert loaded == Loaded(cfg, Found(cfg, stored, now), now);
      var allowed, retry := false, 0.0;
      match op {
        case Allow =>
          if mode == Open {
            retry := Ceil(cfg.cooldown - (now - openedAt)) as real;
            if retry < 0.0 { retry := 0.0; }
          } else if mode == HalfOpen {
            if probes < cfg.maxProbes {
              probes, allowed := probes + 1, true;
            } else {
              retry := Ceil(cfg.cooldown / 4.0) as real;
            }
          } else {
            allowed := true;
          }
        case Peek =>
          if mode == Open {
            retry := Ceil(cfg.cooldown - (now - openedAt)) as real;
            if retry < 0.0 { retry := 0.0; }
          } else if mode == HalfOpen {
            if probes < cfg.maxProbes { allowed := true; }
          } else {
            allowed := true;
          }
        case Success =>
          if mode == HalfOpen {
            probeOk := probeOk + 1;
            if probes > 0 { probes := probes - 1; }
            if probeOk >= cfg.probeSuccesses {
              mode, windowStart, failures, successes, probes, probeOk := Closed, now, 0, 0, 0, 0;
            }
          } else {
            successes := successes + 1;
          }
          allowed := true;
        case Failure =>
          if mode == HalfOpen {
            mode, openedAt, probes, probeOk, retry := Open, now, 0, 0, cfg.cooldown;
          } else {
            failures := failures + 1;
            if Trips(cfg, failures, successes) {
              mode, openedAt, probes, probeOk, retry := Open, now, 0, 0, cfg.cooldown;
            }
          }
      }
      stored := Hash(mode, windowStart, failures, successes, openedAt, probes, probeOk, now);
      assert (stored, allowed, retry) == Operate(cfg, loaded, op, now);
      return Verdict(allowed, mode, retry.Floor, failures, successes);
    }
  }

  // ------------------------------------------------------------------ runs

  /** The stored hash before each run of the script and at the end. */
  datatype History = History(hashes: seq<Hash>, calls: seq<Call<Op>>)

  ghost predicate StepAt(cfg: Config, t: History, i: nat)
    requires |t.hashes| == |t.calls| + 1 && i < |t.calls|
  {
    t.hashes[i + 1] == Script(cfg, t.hashes[i], t.calls[i].op, t.calls[i].now).0
  }

  ghost predicate IsHistory(cfg: Config, t: History) {
    && cfg.Valid() && |t.hashes| == |t.calls| + 1 && t.hashes[0] == Missing
    && Timely(t.calls)
    && forall i :: 0 <= i < |t.calls| ==> StepAt(cfg, t, i)
  }

  /** The hash on which call `i` operates. */
  function LoadedAt(cfg: Config, t: History, i: nat): (r: Hash)
    requires |t.hashes| == |t.calls| + 1 && i < |t.calls|
    ensures r.Hash?
  {
    Loaded(cfg, Found(cfg, t.hashes[i], t.calls[i].now), t.calls[i].now)
  }

  predicate Admits(cfg: Config, t: History, i: nat)
    requires |t.hashes| == |t.calls| + 1 && i < |t.calls|
  {
    t.calls[i].op == Allow && Script(cfg, t.hashes[i], Allow, t.calls[i].now).1.allowed
  }

  /** Call `i` opens the breaker, or restarts the cooldown of an open one. */
  predicate Opens(cfg: Config, t: History, i: nat)
    requires |t.hashes| == |t.calls| + 1 && i < |t.calls|
  {
    t.calls[i].op == Failure && t.hashes[i + 1].Hash? && t.hashes[i + 1].mode == Open &&
    var g := LoadedAt(cfg, t, i);
    (g.mode == HalfOpen || Trips(cfg, g.failures + 1, g.successes))
  }

  lemma {:induction false} Touched(cfg: Config, t: History, i: nat)
    requires IsHistory(cfg, t) && i < |t.calls|
    ensures t.hashes[i + 1].Hash? && t.hashes[i + 1].touched == t.calls[i].now
  {
    assert StepAt(cfg, t, i);
  }

  // ------------------------------------------------------------------ the cooldown

  /** Until the cooldown has passed, the breaker stays open. */
  lemma {:induction false} StaysOpen(cfg: Config, t: History, i: nat, j: nat)
    requires IsHistory(cfg, t) && cfg.ttl >= cfg.cooldown && i < j < |t.calls| && Opens(cfg, t, i)
    requires t.calls[j].now - t.calls[i].now < cfg.cooldown
    ensures t.hashes[j].Hash? && t.hashes[j].mode == Open && t.hashes[j].openedAt >= t.calls[i].now
    decreases j
  {
    ClockGrows(t.calls, j - 1, j);
    assert StepAt(cfg, t, j - 1);
    if j > i + 1 {
      StaysOpen(cfg, t, i, j - 1);
      ClockGrows(t.calls, i, j - 2);
      Touched(cfg, t, j - 2);
      ClockGrows(t.calls, i, j - 1);
    }
  }

  /** No call is admitted within the cooldown after an opening. */
  lemma {:induction false} CooldownHolds(cfg: Config, t: History, i: nat, j: nat)
    requires IsHistory(cfg, t) && cfg.ttl >= cfg.cooldown && i < j < |t.calls| && Opens(cfg, t, i)
    requires t.calls[j].now - t.calls[i].now < cfg.cooldown
    ensures !Admits(cfg, t, j)
  {
    StaysOpen(cfg, t, i, j);
    Touched(cfg, t, j - 1);
    ClockGrows(t.calls, i, j - 1);
  }

  ghost predicate CooldownAlways(cfg: Config) {
    forall t, i: nat, j: nat :: OpenedBefore(cfg, t, i, j) ==> !Admits(cfg, t, j)
  }

  /** Call `i` opens the breaker and call `j` comes within the cooldown. */
  ghost predicate OpenedBefore(cfg: Config, t: History, i: nat, j: nat) {
    IsHistory(cfg, t) && i < j < |t.calls| && Opens(cfg, t, i) && t.calls[j].now - t.calls[i].now < cfg.cooldown
  }

  /** The cooldown holds on all histories if and only if the hash outlives it. */
  lemma {:induction false} CooldownExactly(cfg: Config)
    requires cfg.Valid() && cfg.window > 0.0 && cfg.cooldown > 0.0 && cfg.ttl > 0.0
    ensures CooldownAlways(cfg) <==> cfg.ttl >= cfg.cooldown
  {
    if cfg.ttl >= cfg.cooldown {
      forall t, i: nat, j: nat | OpenedBefore(cfg, t, i, j) ensures !Admits(cfg, t, j) {
        CooldownHolds(cfg, t, i, j);
      }
    } else {
      ForgottenOpening(cfg);
    }
  }

  /** The hash after `k` failures at time 0, up to the one that opens the breaker. */
  function Failing(cfg: Config, k: nat): Hash {
    if k == 0 then Missing else Hash(if k < cfg.minVolume then Closed else Open, 0.0, k, 0, 0.0, 0, 0, 0.0)
  }

  lemma {:induction false} FailsOn(cfg: Config, k: nat)
    requires cfg.Valid() && cfg.window > 0.0 && cfg.ttl > 0.0 && k < cfg.minVolume
    ensures Script(cfg, Failing(cfg, k), Failure, 0.0).0 == Failing(cfg, k + 1)
  {
    assert (k + 1) as real / (k + 1) as real == 1.0;
  }

  /** The breaker opens, and a call comes when its hash has just expired. */
  lemma {:induction false} ForgetfulHistory(cfg: Config) returns (t: History)
    requires cfg.Valid() && cfg.window > 0.0 && 0.0 < cfg.ttl < cfg.cooldown
    ensures IsHistory(cfg, t) && |t.calls| == cfg.minVolume + 1
    ensures t.hashes[cfg.minVolume - 1] == Failing(cfg, cfg.minVolume - 1)
    ensures t.hashes[cfg.minVolume] == Failing(cfg, cfg.minVolume)
    ensures t.calls[cfg.minVolume - 1] == Call(Failure, 0.0) && t.calls[cfg.minVolume] == Call(Allow, cfg.ttl)
  {
    var n := cfg.minVolume;
    var after := Script(cfg, Failing(cfg, n), Allow, cfg.ttl).0;
    t := History(seq(n + 2, k requires 0 <= k < n + 2 => if k <= n then Failing(cfg, k) else after),
                 seq(n + 1, k => if k < n then Call(Failure, 0.0) else Call(Allow, cfg.ttl)));
    forall i | 0 <= i < |t.calls| ensures StepAt(cfg, t, i) {
      if i < n {
        FailsOn(cfg, i);
      }
    }
  }

  /** That call is let through within the cooldown. */
  lemma {:induction false} ForgottenOpening(cfg: Config)
    requires cfg.Valid() && cfg.window > 0.0 && 0.0 < cfg.ttl < cfg.cooldown
    ensures !CooldownAlways(cfg)
  {
    var t := ForgetfulHistory(cfg);
    var n := cfg.minVolume;
    assert (n - 1 + 1) as real / (n - 1 + 1) as real == 1.0;
    assert Opens(cfg, t, n - 1);
    assert Admits(cfg, t, n);
    assert OpenedBefore(cfg, t, n - 1, n);
  }

  // ------------------------------------------------------------------ probing

  /** Calls `i` to `j - 1` belong to one half-open episode, which begins with call `i`. */
  ghost predicate Episode(cfg: Config, t: History, i: nat, j: nat)
    requires |t.hashes| == |t.calls| + 1 && j <= |t.calls|
  {
    && i < j && t.hashes[i].Hash? && t.hashes[i].mode == Open && LoadedAt(cfg, t, i).mode == HalfOpen
    && forall k :: i < k < j ==>
         LoadedAt(cfg, t, k).mode == HalfOpen && t.hashes[k].Hash? && t.hashes[k].mode == HalfOpen
  }

  ghost function Admitted(cfg: Config, t: History, i: nat, j: nat): nat
    requires |t.hashes| == |t.calls| + 1 && i <= j <= |t.calls|
    decreases j
  {
    if i == j then 0 else Admitted(cfg, t, i, j - 1) + (if Admits(cfg, t, j - 1) then 1 else 0)
  }

  /** What is admitted and not yet answered for is counted in the hash. */
  ghost predicate ProbesFit(cfg: Config, h: Hash, admitted: nat) {
    h.Hash? && h.mode == HalfOpen ==>
      admitted <= h.probes + h.probeOk && h.probes <= cfg.maxProbes && h.probeOk < cfg.probeSuccesses
  }

  lemma {:induction false} OperationFits(cfg: Config, g: Hash, op: Op, now: real, admitted: nat)
    requires cfg.Valid() && g.Hash? && g.mode == HalfOpen && ProbesFit(cfg, g, admitted)
    ensures var (h, allowed, _) := Operate(cfg, g, op, now);
            var more := admitted + (if op == Allow && allowed then 1 else 0);
            ProbesFit(cfg, h, more) && more <= cfg.maxProbes + cfg.probeSuccesses - 1
  {
  }

  lemma {:induction false} EpisodeFits(cfg: Config, t: History, i: nat, j: nat)
    requires IsHistory(cfg, t) && j <= |t.calls| && Episode(cfg, t, i, j)
    ensures ProbesFit(cfg, t.hashes[j], Admitted(cfg, t, i, j))
    ensures Admitted(cfg, t, i, j) <= cfg.maxProbes + cfg.probeSuccesses - 1
    decreases j
  {
    assert StepAt(cfg, t, j - 1);
    var g := LoadedAt(cfg, t, j - 1);
    if j - 1 > i {
      EpisodeFits(cfg, t, i, j - 1);
      assert LoadedAt(cfg, t, j - 1).mode == HalfOpen;
    }
    OperationFits(cfg, g, t.calls[j - 1].op, t.calls[j - 1].now, Admitted(cfg, t, i, j - 1));
  }

  // ------------------------------------------------------------------ tripping

  ghost function Count(t: History, op: Op, s: nat, n: nat): nat
    requires s <= n <= |t.calls|
    decreases n
  {
    if s == n then 0 else Count(t, op, s, n - 1) + (if t.calls[n - 1].op == op then 1 else 0)
  }

  /** While closed, the counters count the outcomes reported since some call of the current window. */
  ghost predicate Counts(t: History, h: Hash, s: nat, n: nat)
    requires s <= n <= |t.calls| && h.Hash?
  {
    && h.failures == Count(t, Failure, s, n) && h.successes == Count(t, Success, s, n)
    && (s < n ==> h.windowStart <= t.calls[s].now)
  }

  /** The same for the hash on which call `n` operates. */
  lemma {:induction false} LoadedCounts(cfg: Config, t: History, n: nat) returns (s: nat)
    requires IsHistory(cfg, t) && n < |t.calls| && LoadedAt(cfg, t, n).mode == Closed
    ensures s <= n && Counts(t, LoadedAt(cfg, t, n), s, n)
    ensures LoadedAt(cfg, t, n).windowStart <= t.calls[n].now
    ensures cfg.window > 0.0 ==> t.calls[n].now - LoadedAt(cfg, t, n).windowStart < cfg.window
    decreases n, 0
  {
    s := n;
    if n > 0 {
      Touched(cfg, t, n - 1);
      ClockGrows(t.calls, n - 1, n);
      if t.hashes[n].mode == Closed && Found(cfg, t.hashes[n], t.calls[n].now).Hash? {
        var since := ClosedCounts(cfg, t, n);
        if LoadedAt(cfg, t, n) == t.hashes[n].(touched := t.calls[n].now) {
          s := since;
        }
      }
    }
  }

  lemma {:induction false} ClosedCounts(cfg: Config, t: History, n: nat) returns (s: nat)
    requires IsHistory(cfg, t) && 0 < n <= |t.calls| && t.hashes[n].Hash? && t.hashes[n].mode == Closed
    ensures s <= n && Counts(t, t.hashes[n], s, n)
    ensures t.hashes[n].windowStart <= t.calls[n - 1].now
    decreases n - 1, 1
  {
    assert StepAt(cfg, t, n - 1);
    if LoadedAt(cfg, t, n - 1).mode == Closed {
      s := LoadedCounts(cfg, t, n - 1);
    } else {
      s := n;
    }
  }

  /**
    A closed breaker opens only on evidence from one window: among the calls since some call `s`,
    all within the window, there are enough outcomes and the failures reach the ratio.
  */
  lemma {:induction false} TripsOnEvidence(cfg: Config, t: History, i: nat) returns (s: nat)
    requires IsHistory(cfg, t) && cfg.window > 0.0 && i < |t.calls|
    requires LoadedAt(cfg, t, i).mode == Closed && t.hashes[i + 1].Hash? && t.hashes[i + 1].mode == Open
    ensures s <= i && t.calls[i].now - t.calls[s].now < cfg.window
    ensures var failures, all := Count(t, Failure, s, i + 1), Count(t, Failure, s, i + 1) + Count(t, Success, s, i + 1);
            all >= cfg.minVolume && all > 0 && failures as real / all as real >= cfg.ratio
  {
    assert StepAt(cfg, t, i);
    s := LoadedCounts(cfg, t, i);
  }

  /** A caller that was refused by an open breaker and waits as told finds the cooldown over. */
  lemma {:induction false} RetryIsEnough(cfg: Config, h: Hash, now: real, later: real)
    requires Script(cfg, h, Allow, now).1.mode == Open
    requires later >= now + Script(cfg, h, Allow, now).1.retryAfter as real
    ensures Script(cfg, Script(cfg, h, Allow, now).0, Allow, later).1.mode != Open
  {
  }
}

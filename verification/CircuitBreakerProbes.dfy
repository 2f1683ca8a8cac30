/** The bound on the calls that a half-open breaker admits is the least one: a history reaches it. */
module CircuitBreakerProbes {
  import opened Reals
  import opened Clocks
  import opened CircuitBreakers

  ghost predicate Enforced(cfg: Config) {
    cfg.Valid() && cfg.window > 0.0 && cfg.cooldown > 0.0 && cfg.ttl > 0.0
  }

  // ------------------------------------------------------------------ longer histories

  ghost function Last(t: History): Hash
    requires t.hashes != []
  {
    t.hashes[|t.hashes| - 1]
  }

  ghost function Extended(cfg: Config, t: History, op: Op, now: real): History
    requires t.hashes != []
  {
    History(t.hashes + [Script(cfg, Last(t), op, now).0], t.calls + [Call(op, now)])
  }

  ghost predicate EndsAt(t: History, now: real) {
    t.calls != [] && t.calls[|t.calls| - 1].now == now
  }

  lemma {:induction false} ExtendedIsHistory(cfg: Config, t: History, op: Op, before: real, now: real)
    requires IsHistory(cfg, t) && (t.calls == [] || EndsAt(t, before)) && before <= now
    ensures IsHistory(cfg, Extended(cfg, t, op, now)) && EndsAt(Extended(cfg, t, op, now), now)
  {
    var u := Extended(cfg, t, op, now);
    forall i | 0 <= i < |u.calls| ensures StepAt(cfg, u, i) {
      if i < |t.calls| {
        assert StepAt(cfg, t, i);
      }
    }
  }

  lemma {:induction false} SameAdmitted(cfg: Config, t: History, op: Op, now: real, i: nat, j: nat)
    requires IsHistory(cfg, t) && i <= j <= |t.calls|
    ensures Admitted(cfg, Extended(cfg, t, op, now), i, j) == Admitted(cfg, t, i, j)
    decreases j
  {
    if i < j {
      SameAdmitted(cfg, t, op, now, i, j - 1);
    }
  }

  // ------------------------------------------------------------------ up to the end of the cooldown

  lemma {:induction false} Fails(cfg: Config, k: nat) returns (t: History)
    requires Enforced(cfg) && k <= cfg.minVolume
    ensures IsHistory(cfg, t) && Last(t) == Failing(cfg, k) && (t.calls == [] || EndsAt(t, 0.0))
    ensures k > 0 ==> EndsAt(t, 0.0)
  {
    if k == 0 {
      t := History([Missing], []);
    } else {
      var before := Fails(cfg, k - 1);
      FailsOn(cfg, k - 1);
      ExtendedIsHistory(cfg, before, Failure, 0.0, 0.0);
      t := Extended(cfg, before, Failure, 0.0);
    }
  }

  function Opened(cfg: Config, touched: real): Hash {
    Hash(Open, 0.0, cfg.minVolume, 0, 0.0, 0, 0, touched)
  }

  /** Looking at an open breaker keeps its hash. */
  lemma {:induction false} Waits(cfg: Config, k: nat, part: real) returns (t: History)
    requires Enforced(cfg) && 0.0 <= part < cfg.ttl && (k > 0 ==> Sum(k, part) < cfg.cooldown)
    ensures IsHistory(cfg, t) && Last(t) == Opened(cfg, Sum(k, part)) && EndsAt(t, Sum(k, part))
  {
    if k == 0 {
      t := Fails(cfg, cfg.minVolume);
    } else {
      var before := Waits(cfg, k - 1, part);
      ExtendedIsHistory(cfg, before, Peek, Sum(k - 1, part), Sum(k, part));
      t := Extended(cfg, before, Peek, Sum(k, part));
    }
  }

  /** A time in parts that are shorter than the time to live, the last of them left. */
  lemma {:induction false} Cooldown(cfg: Config) returns (k: nat, part: real)
    requires Enforced(cfg)
    ensures 0.0 < part < cfg.ttl && Sum(k, part) + part == cfg.cooldown && (k > 0 ==> Sum(k, part) < cfg.cooldown)
  {
    var n: nat;
    n, part := Parts(cfg.cooldown, cfg.ttl);
    SumIsProduct(n, part);
    k := n - 1;
  }

  // ------------------------------------------------------------------ the episode

  function Probed(cfg: Config, probes: nat, ok: nat): Hash {
    Hash(HalfOpen, 0.0, cfg.minVolume, 0, 0.0, probes, ok, cfg.cooldown)
  }

  ghost predicate Probing(cfg: Config, t: History, i: nat, probes: nat, ok: nat, admitted: nat) {
    && IsHistory(cfg, t) && EndsAt(t, cfg.cooldown) && Last(t) == Probed(cfg, probes, ok)
    && Episode(cfg, t, i, |t.calls|) && Admitted(cfg, t, i, |t.calls|) == admitted
  }

  /** The first call after the cooldown. */
  lemma {:induction false} FirstProbe(cfg: Config) returns (t: History, i: nat)
    requires Enforced(cfg)
    ensures Probing(cfg, t, i, 1, 0, 1)
  {
    var k, part := Cooldown(cfg);
    var before := Waits(cfg, k, part);
    ExtendedIsHistory(cfg, before, Allow, Sum(k, part), cfg.cooldown);
    t := Extended(cfg, before, Allow, cfg.cooldown);
    i := |before.calls|;
    assert Admitted(cfg, t, i, i) == 0;
  }

  lemma {:induction false} EpisodeGoesOn(cfg: Config, t: History, op: Op, i: nat)
    requires IsHistory(cfg, t) && Episode(cfg, t, i, |t.calls|) && EndsAt(t, cfg.cooldown) && Enforced(cfg)
    requires Last(t).Hash? && Last(t).mode == HalfOpen && Last(t).touched == cfg.cooldown
    ensures Episode(cfg, Extended(cfg, t, op, cfg.cooldown), i, |t.calls| + 1)
  {
    var u := Extended(cfg, t, op, cfg.cooldown);
    forall k | i < k < |t.calls| + 1
      ensures LoadedAt(cfg, u, k).mode == HalfOpen && u.hashes[k].Hash? && u.hashes[k].mode == HalfOpen
    {
      if k < |t.calls| {
        assert LoadedAt(cfg, u, k) == LoadedAt(cfg, t, k);
      }
    }
    assert LoadedAt(cfg, u, i) == LoadedAt(cfg, t, i);
  }

  lemma {:induction false} ProbesOnce(cfg: Config, t: History, i: nat, probes: nat, ok: nat, admitted: nat)
    returns (u: History)
    requires Enforced(cfg) && Probing(cfg, t, i, probes, ok, admitted) && probes < cfg.maxProbes
    ensures Probing(cfg, u, i, probes + 1, ok, admitted + 1)
  {
    u := Extended(cfg, t, Allow, cfg.cooldown);
    ExtendedIsHistory(cfg, t, Allow, cfg.cooldown, cfg.cooldown);
    EpisodeGoesOn(cfg, t, Allow, i);
    SameAdmitted(cfg, t, Allow, cfg.cooldown, i, |t.calls|);
  }

  lemma {:induction false} Answers(cfg: Config, t: History, i: nat, probes: nat, ok: nat, admitted: nat)
    returns (u: History)
    requires Enforced(cfg) && Probing(cfg, t, i, probes, ok, admitted) && probes > 0 && ok + 1 < cfg.probeSuccesses
    ensures Probing(cfg, u, i, probes - 1, ok + 1, admitted)
  {
    u := Extended(cfg, t, Success, cfg.cooldown);
    ExtendedIsHistory(cfg, t, Success, cfg.cooldown, cfg.cooldown);
    EpisodeGoesOn(cfg, t, Success, i);
    SameAdmitted(cfg, t, Success, cfg.cooldown, i, |t.calls|);
  }

  /** All slots are taken. */
  lemma {:induction false} FillsSlots(cfg: Config, n: nat) returns (t: History, i: nat)
    requires Enforced(cfg) && 1 <= n <= cfg.maxProbes
    ensures Probing(cfg, t, i, n, 0, n)
  {
    if n == 1 {
      t, i := FirstProbe(cfg);
    } else {
      var before: History;
      before, i := FillsSlots(cfg, n - 1);
      t := ProbesOnce(cfg, before, i, n - 1, 0, n - 1);
    }
  }

  /** Each success but the last frees a slot for one more. */
  lemma {:induction false} Refills(cfg: Config, n: nat) returns (t: History, i: nat)
    requires Enforced(cfg) && n < cfg.probeSuccesses
    ensures Probing(cfg, t, i, cfg.maxProbes, n, cfg.maxProbes + n)
  {
    if n == 0 {
      t, i := FillsSlots(cfg, cfg.maxProbes);
    } else {
      var before: History;
      before, i := Refills(cfg, n - 1);
      var answered := Answers(cfg, before, i, cfg.maxProbes, n - 1, cfg.maxProbes + n - 1);
      t := ProbesOnce(cfg, answered, i, cfg.maxProbes - 1, n, cfg.maxProbes + n - 1);
    }
  }

  ghost predicate AdmitsAtMost(cfg: Config, bound: nat) {
    forall t, i: nat, j: nat :: IsHistory(cfg, t) && j <= |t.calls| && Episode(cfg, t, i, j) ==>
      Admitted(cfg, t, i, j) <= bound
  }

  /** The least bound on the calls admitted in a half-open episode. */
  lemma {:induction false} ProbesExact(cfg: Config, bound: nat)
    requires Enforced(cfg)
    ensures AdmitsAtMost(cfg, bound) <==> bound >= cfg.maxProbes + cfg.probeSuccesses - 1
  {
    if bound >= cfg.maxProbes + cfg.probeSuccesses - 1 {
      forall t, i: nat, j: nat | IsHistory(cfg, t) && j <= |t.calls| && Episode(cfg, t, i, j)
        ensures Admitted(cfg, t, i, j) <= bound
      {
        EpisodeFits(cfg, t, i, j);
      }
    } else {
      var t, i := Refills(cfg, cfg.probeSuccesses - 1);
    }
  }
}

/**
  When the breaker opens and closes, exactly, in terms of the calls and their times.  The windows of a
  closed breaker follow one another; each starts with the first call after the one before has run out.
*/
module CircuitBreakerWindows {
  import opened Clocks
  import opened CircuitBreakers

  /** The first call that a window counts, and the time at which it started. */
  datatype Window = Window(first: nat, start: real)

  /**
    The window of call `i`, for a breaker that is closed.  A hash that is gone starts a window, and so
    does the success that closes a half-open breaker.
  */
  ghost function WindowAt(cfg: Config, t: History, i: nat): (w: Window)
    requires |t.hashes| == |t.calls| + 1 && i < |t.calls|
    ensures w.first <= i
  {
    if i == 0 || t.calls[i].now - t.calls[i - 1].now >= cfg.ttl then Window(i, t.calls[i].now)
    else
      var w := if LoadedAt(cfg, t, i - 1).mode == Closed then WindowAt(cfg, t, i - 1)
               else Window(i, t.calls[i - 1].now);
      if t.calls[i].now - w.start >= cfg.window then Window(i, t.calls[i].now) else w
  }

  /** The counters of a closed breaker are the outcomes that were reported in the window. */
  ghost predicate CountsWindow(t: History, g: Hash, w: Window, n: nat)
    requires w.first <= n <= |t.calls| && g.Hash?
  {
    && g.windowStart == w.start
    && g.failures == Count(t, Failure, w.first, n) && g.successes == Count(t, Success, w.first, n)
  }

  /** What call `i` leaves, if it leaves the breaker closed. */
  lemma {:induction false} WindowAfter(cfg: Config, t: History, i: nat)
    requires IsHistory(cfg, t) && i < |t.calls| && t.hashes[i + 1].Hash? && t.hashes[i + 1].mode == Closed
    requires LoadedAt(cfg, t, i).mode == Closed ==> CountsWindow(t, LoadedAt(cfg, t, i), WindowAt(cfg, t, i), i)
    ensures var w := if LoadedAt(cfg, t, i).mode == Closed then WindowAt(cfg, t, i)
                     else Window(i + 1, t.calls[i].now);
            CountsWindow(t, t.hashes[i + 1], w, i + 1)
  {
    assert StepAt(cfg, t, i);
  }

  lemma {:induction false} WindowCounts(cfg: Config, t: History, i: nat)
    requires IsHistory(cfg, t) && i < |t.calls| && LoadedAt(cfg, t, i).mode == Closed
    ensures CountsWindow(t, LoadedAt(cfg, t, i), WindowAt(cfg, t, i), i)
    decreases i
  {
    if i > 0 {
      Touched(cfg, t, i - 1);
      if t.calls[i].now - t.calls[i - 1].now < cfg.ttl {
        if LoadedAt(cfg, t, i - 1).mode == Closed {
          WindowCounts(cfg, t, i - 1);
        }
        WindowAfter(cfg, t, i - 1);
      }
    }
  }

  /** Enough outcomes from call `s` on, and enough of them failures. */
  ghost predicate Evidence(cfg: Config, t: History, s: nat, n: nat)
    requires s <= n <= |t.calls|
  {
    var failures, all := Count(t, Failure, s, n), Count(t, Failure, s, n) + Count(t, Success, s, n);
    all >= cfg.minVolume && all > 0 && failures as real / all as real >= cfg.ratio
  }

  ghost function VerdictAt(cfg: Config, t: History, i: nat): Verdict
    requires |t.hashes| == |t.calls| + 1 && i < |t.calls|
  {
    Script(cfg, t.hashes[i], t.calls[i].op, t.calls[i].now).1
  }

  /** A failure opens a closed breaker if and only if the outcomes of its window are evidence; they are reported. */
  lemma {:induction false} TripsExactly(cfg: Config, t: History, i: nat)
    requires IsHistory(cfg, t) && i < |t.calls| && LoadedAt(cfg, t, i).mode == Closed && t.calls[i].op == Failure
    ensures var s, v := WindowAt(cfg, t, i).first, VerdictAt(cfg, t, i);
            && (t.hashes[i + 1].Hash? && t.hashes[i + 1].mode == Open <==> Evidence(cfg, t, s, i + 1))
            && (v.mode == Open <==> Evidence(cfg, t, s, i + 1)) && !v.allowed
            && v.failures == Count(t, Failure, s, i + 1) && v.successes == Count(t, Success, s, i + 1)
  {
    assert StepAt(cfg, t, i);
    WindowCounts(cfg, t, i);
  }

  /** Nothing but a failure opens a closed breaker, which lets every call pass. */
  lemma {:induction false} StaysClosed(cfg: Config, t: History, i: nat)
    requires IsHistory(cfg, t) && i < |t.calls| && LoadedAt(cfg, t, i).mode == Closed && t.calls[i].op != Failure
    ensures t.hashes[i + 1].Hash? && t.hashes[i + 1].mode == Closed && VerdictAt(cfg, t, i).allowed
  {
    assert StepAt(cfg, t, i);
  }

  // ------------------------------------------------------------------ half-open

  /** While an episode lasts, the successes reported in it are counted, and they are too few to close the breaker. */
  lemma {:induction false} EpisodeCounts(cfg: Config, t: History, i: nat, j: nat)
    requires IsHistory(cfg, t) && j < |t.calls| && Episode(cfg, t, i, j + 1)
    ensures LoadedAt(cfg, t, j).probeOk == Count(t, Success, i, j)
    decreases j
  {
    if i < j {
      assert LoadedAt(cfg, t, j).mode == HalfOpen && t.hashes[j].mode == HalfOpen;
      EpisodeCounts(cfg, t, i, j - 1);
      assert StepAt(cfg, t, j - 1);
    }
  }

  /** An episode ends with its first failure, which opens the breaker, or with enough successes, which close it. */
  lemma {:induction false} EpisodeEndsExactly(cfg: Config, t: History, i: nat, j: nat)
    requires IsHistory(cfg, t) && j < |t.calls| && Episode(cfg, t, i, j + 1)
    ensures t.hashes[j + 1].Hash?
    ensures t.hashes[j + 1].mode == Open <==> t.calls[j].op == Failure
    ensures t.hashes[j + 1].mode == Closed <==>
            t.calls[j].op == Success && Count(t, Success, i, j + 1) >= cfg.probeSuccesses
  {
    EpisodeCounts(cfg, t, i, j);
    assert StepAt(cfg, t, j);
  }

  // ------------------------------------------------------------------ when to retry

  /** A caller that comes back a millisecond before it was told to still finds the breaker open. */
  lemma {:induction false} RetryIsLeast(cfg: Config, h: Hash, now: real, later: real)
    requires Script(cfg, h, Allow, now).1.mode == Open && now <= later < now + cfg.ttl
    requires later <= now + Script(cfg, h, Allow, now).1.retryAfter as real - 1.0
    ensures Script(cfg, Script(cfg, h, Allow, now).0, Allow, later).1.mode == Open
  {
  }

  /** A caller for whom there is no probe left is told the fourth part of the cooldown, in whole milliseconds. */
  lemma {:induction false} ProbesRetry(cfg: Config, h: Hash, now: real)
    requires Script(cfg, h, Allow, now).1.mode == HalfOpen && !Script(cfg, h, Allow, now).1.allowed
    ensures var r := Script(cfg, h, Allow, now).1.retryAfter as real;
            4.0 * (r - 1.0) < cfg.cooldown <= 4.0 * r
  {
  }

  /** A look tells what a call at the same time would be told, and does not change what it will be told. */
  lemma {:induction false} PeekForesees(cfg: Config, h: Hash, now: real)
    requires cfg.ttl > 0.0 && cfg.window > 0.0
    ensures var looked := Script(cfg, h, Peek, now);
            && looked.1.allowed == Script(cfg, h, Allow, now).1.allowed
            && Script(cfg, looked.0, Allow, now) == Script(cfg, h, Allow, now)
  {
  }
}

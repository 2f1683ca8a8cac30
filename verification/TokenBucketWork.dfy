/**
  The bucket gives away no more and no less than it promises.  The balance follows burst and rate
  exactly; so the wait of a call is the shortest one after which burst and rates cover it, together
  with all that was granted since any earlier call, and a call is refused only when that is too long.
*/
module TokenBucketWork {
  import opened Reals
  import opened TokenBuckets

  /** Call `k` finds no hash: there was none yet, or it has expired since the call before. */
  ghost predicate FindsNone(st: Setting, run: Run, k: nat)
    requires k < |run.calls|
  {
    k == 0 || run.calls[k].now - run.calls[k - 1].now >= st.ttl
  }

  /** The balance that call `k` finds. */
  ghost function Balance(st: Setting, run: Run, k: nat): real
    requires IsRun(st, run) && k < |run.calls|
  {
    Refilled(st.burst, Found(run.buckets[k], run.calls[k].now, st.ttl), run.calls[k].now, run.calls[k].rate).tokens
  }

  lemma {:induction false} RefillIsExact(burst: real, b: Bucket, now: real, rate: real, ttl: real)
    requires b.Bucket? && b.ts <= now && b.tokens <= burst
    ensures Refilled(burst, Found(b, now, ttl), now, rate) ==
            Bucket(if now - b.ts >= ttl then burst else Min(burst, b.tokens + Earned(now - b.ts, rate)), now)
  {
    if now == b.ts {
      NothingEarned(b.ts, now, rate);
    }
  }

  lemma {:induction false} SpendIsExact(full: Bucket, c: Call)
    requires ValidCall(c) && full.Bucket?
    ensures var (now, r) := Spend(full, c);
            && now == full.(tokens := full.tokens - (if r.granted then c.cost else 0.0))
            && r.milli == (now.tokens * 1000.0).Floor
  {
  }

  /** Call `k` leaves what it finds, less what it is granted. */
  lemma {:induction false} BalanceAfter(st: Setting, run: Run, k: nat)
    requires IsRun(st, run) && k < |run.calls|
    ensures run.buckets[k + 1] == Bucket(Balance(st, run, k) - CostAt(st, run, k), run.calls[k].now)
    ensures ResultAt(st, run, k).milli == (TokensAfter(run, k) * 1000.0).Floor
  {
    BalanceAlongRun(st, run, k + 1);
    assert StepAt(st, run, k);
    var c := run.calls[k];
    SpendIsExact(Refilled(st.burst, Found(run.buckets[k], c.now, st.ttl), c.now, c.rate), c);
  }

  /** A full bucket at first and after an expiry; else what was left and what has been earned, up to the burst. */
  lemma {:induction false} ExactBalance(st: Setting, run: Run, k: nat)
    requires IsRun(st, run) && k < |run.calls|
    ensures FindsNone(st, run, k) ==> Balance(st, run, k) == st.burst
    ensures !FindsNone(st, run, k) ==>
              && run.buckets[k].Bucket?
              && Balance(st, run, k) == Min(st.burst, TokensAfter(run, k - 1) +
                                            Earned(run.calls[k].now - run.calls[k - 1].now, run.calls[k].rate))
  {
    BalanceAlongRun(st, run, k);
    assert StepAt(st, run, k);
    if k > 0 {
      RefillIsExact(st.burst, run.buckets[k], run.calls[k].now, run.calls[k].rate, st.ttl);
    }
  }

  // ------------------------------------------------------------------ since an earlier call

  /** What the rates earn from call `i` to call `j`. */
  ghost function Supply(run: Run, i: nat, j: nat): real
    requires i <= j < |run.calls|
  {
    if i == j then 0.0
    else Supply(run, i, j - 1) + Earned(run.calls[j].now - run.calls[j - 1].now, run.calls[j].rate)
  }

  /** The hash is kept from call `i` to call `j`. */
  ghost predicate Kept(st: Setting, run: Run, i: nat, j: nat)
    requires i <= j < |run.calls|
  {
    i == j || (Kept(st, run, i, j - 1) && run.calls[j].now - run.calls[j - 1].now < st.ttl)
  }

  /** What burst and rates allow from call `i` on, less what was granted. */
  ghost function Room(st: Setting, run: Run, i: nat, k: nat): real
    requires IsRun(st, run) && i <= k < |run.calls|
  {
    st.burst + Supply(run, i, k) - (Granted(st, run, k) - Granted(st, run, i))
  }

  lemma {:induction false} RoomNext(st: Setting, run: Run, i: nat, k: nat)
    requires IsRun(st, run) && i < k < |run.calls|
    ensures Room(st, run, i, k) == Room(st, run, i, k - 1) - CostAt(st, run, k - 1) +
                                   Earned(run.calls[k].now - run.calls[k - 1].now, run.calls[k].rate)
  {
    assert Granted(st, run, k) == Granted(st, run, k - 1) + CostAt(st, run, k - 1);
  }

  /** From one call to the next. */
  lemma {:induction false} BalanceNext(st: Setting, run: Run, k: nat)
    requires IsRun(st, run) && k < |run.calls|
    ensures FindsNone(st, run, k) ==> Balance(st, run, k) == st.burst
    ensures !FindsNone(st, run, k) ==>
              Balance(st, run, k) == Min(st.burst, Balance(st, run, k - 1) - CostAt(st, run, k - 1) +
                                         Earned(run.calls[k].now - run.calls[k - 1].now, run.calls[k].rate))
  {
    ExactBalance(st, run, k);
    if k > 0 {
      BalanceAfter(st, run, k - 1);
    }
  }

  /** The bucket is not short of room. */
  lemma {:induction false} BalanceWithinRoom(st: Setting, run: Run, i: nat, k: nat)
    requires IsRun(st, run) && i <= k < |run.calls| && Kept(st, run, i, k)
    ensures Balance(st, run, k) <= Room(st, run, i, k)
    decreases k
  {
    BalanceNext(st, run, k);
    if i < k {
      BalanceWithinRoom(st, run, i, k - 1);
      RoomNext(st, run, i, k);
    }
  }

  /** And since some call it has had just that. */
  lemma {:induction false} BalanceIsRoom(st: Setting, run: Run, k: nat) returns (i: nat)
    requires IsRun(st, run) && k < |run.calls|
    ensures i <= k && Kept(st, run, i, k) && Balance(st, run, k) == Room(st, run, i, k)
    decreases k
  {
    BalanceNext(st, run, k);
    if Balance(st, run, k) == st.burst {
      i := k;
    } else {
      i := BalanceIsRoom(st, run, k - 1);
      RoomNext(st, run, i, k);
    }
  }

  // ------------------------------------------------------------------ waits and refusals

  /** From call `i` on, the grants and call `k` take more than burst and rates allow until `w` after call `k`. */
  ghost predicate Exceeds(st: Setting, run: Run, i: nat, k: nat, w: int)
    requires IsRun(st, run) && i <= k < |run.calls|
  {
    && Kept(st, run, i, k)
    && Granted(st, run, k) - Granted(st, run, i) + run.calls[k].cost >
       st.burst + Supply(run, i, k) + Earned(w as real, run.calls[k].rate)
  }

  /** After a wait of `w` burst and rates cover call `k`, whichever call one counts from. */
  ghost predicate Covered(st: Setting, run: Run, k: nat, w: int)
    requires IsRun(st, run) && k < |run.calls|
  {
    forall i: nat :: i <= k ==> !Exceeds(st, run, i, k, w)
  }

  lemma {:induction false} CoveredByBalance(st: Setting, run: Run, k: nat, w: int)
    requires IsRun(st, run) && k < |run.calls|
    ensures Covered(st, run, k, w) <==> run.calls[k].cost <= Balance(st, run, k) + Earned(w as real, run.calls[k].rate)
  {
    if run.calls[k].cost <= Balance(st, run, k) + Earned(w as real, run.calls[k].rate) {
      forall i: nat | i <= k ensures !Exceeds(st, run, i, k, w) {
        if Kept(st, run, i, k) {
          BalanceWithinRoom(st, run, i, k);
        }
      }
    } else {
      var i := BalanceIsRoom(st, run, k);
      assert Exceeds(st, run, i, k, w);
    }
  }

  /** The whole milliseconds that a call is ready to wait. */
  function Patience(c: Call): int {
    if c.maxWait < 0.0 then 0 else c.maxWait.Floor
  }

  /** The wait on a bucket that is up to date. */
  lemma {:induction false} SpendWaits(full: Bucket, c: Call)
    requires ValidCall(c) && full.Bucket?
    ensures var r := Spend(full, c).1;
            && r.wait >= 0 && c.cost <= full.tokens + Earned(r.wait as real, c.rate)
            && (r.wait > 0 ==> c.cost > full.tokens + Earned(r.wait as real - 1.0, c.rate))
            && (r.granted <==> r.wait <= Patience(c))
  {
    var need := c.cost - full.tokens;
    if need > 0.0 {
      WaitIsTight(need, c.rate);
      WaitIsPositive(need, c.rate);
    } else {
      NothingEarned(0.0, 0.0, c.rate);
    }
  }

  /** The wait that a call is told is the least number of milliseconds after which it is covered. */
  lemma {:induction false} WaitIsLeast(st: Setting, run: Run, k: nat)
    requires IsRun(st, run) && k < |run.calls|
    ensures var r := ResultAt(st, run, k);
            && r.wait >= 0 && Covered(st, run, k, r.wait) && (r.wait > 0 ==> !Covered(st, run, k, r.wait - 1))
            && (r.granted <==> r.wait <= Patience(run.calls[k]))
  {
    assert StepAt(st, run, k);
    var c, w := run.calls[k], ResultAt(st, run, k).wait;
    SpendWaits(Refilled(st.burst, Found(run.buckets[k], c.now, st.ttl), c.now, c.rate), c);
    CoveredByBalance(st, run, k, w);
    CoveredByBalance(st, run, k, w - 1);
  }

  lemma {:induction false} CoveredLater(st: Setting, run: Run, k: nat, v: int, w: int)
    requires IsRun(st, run) && k < |run.calls| && Covered(st, run, k, v) && v <= w
    ensures Covered(st, run, k, w)
  {
    assert StepAt(st, run, k);
    CoveredByBalance(st, run, k, v);
    CoveredByBalance(st, run, k, w);
    MoreTime(v as real, w as real, run.calls[k].rate);
  }

  /**
    A call is refused if and only if, from some earlier call or the call itself on and with the hash kept
    since, the grants and the call take more than burst and rates allow by the end of its longest wait.
  */
  lemma {:induction false} RefusedExactly(st: Setting, run: Run, k: nat)
    requires IsRun(st, run) && k < |run.calls|
    ensures !ResultAt(st, run, k).granted <==>
            exists i: nat :: i <= k && Exceeds(st, run, i, k, Patience(run.calls[k]))
  {
    var wait, most := ResultAt(st, run, k).wait, Patience(run.calls[k]);
    WaitIsLeast(st, run, k);
    if wait <= most {
      CoveredLater(st, run, k, wait, most);
    } else if Covered(st, run, k, most) {
      CoveredLater(st, run, k, most, wait - 1);
    }
  }

  /** At a constant rate the supply is what that rate earns in the time between the calls. */
  lemma {:induction false} SteadySupply(st: Setting, run: Run, i: nat, k: nat)
    requires IsRun(st, run) && st.Steady() && i <= k < |run.calls|
    ensures Supply(run, i, k) == (run.calls[k].now - run.calls[i].now) * st.maxRate / 1000.0
    decreases k
  {
    if i < k {
      SteadySupply(st, run, i, k - 1);
      assert StepAt(st, run, k);
      EarnedInTurn(run.calls[i].now, run.calls[k - 1].now, run.calls[k].now, st.maxRate);
    } else {
      NothingEarned(run.calls[i].now, run.calls[k].now, st.maxRate);
    }
  }
}

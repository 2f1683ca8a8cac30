/**
  Which jobs are admitted, exactly, in terms of the depths that the offers see and their times; and what
  each counter counts.
*/
module AdmissionDecisions {
  import opened Admission

  function DepthAt(run: Run, i: nat): nat
    requires i < |run.states|
  {
    |run.states[i].entries|
  }

  /** Offer `i` does not fit below the high mark. */
  predicate Overflows(m: Marks, run: Run, i: nat)
    requires i < |run.actions| < |run.states|
  {
    run.actions[i].Offer? && DepthAt(run, i) + run.actions[i].pages > m.high
  }

  /** Offer `i` comes a time to live or more after the one before it. */
  predicate Forgets(ttl: real, run: Run, i: nat)
    requires i < |run.actions| < |run.states|
  {
    run.actions[i].Offer? && run.states[i].hash.Hash? && run.actions[i].now - run.states[i].hash.touched >= ttl
  }

  /** An offer that sees the queue above the low mark, and in time. */
  predicate KeepsShedding(m: Marks, ttl: real, run: Run, i: nat)
    requires i < |run.actions| < |run.states|
  {
    run.actions[i].Offer? ==> DepthAt(run, i) > m.low && !Forgets(ttl, run, i)
  }

  /** Offer `j` did not fit, and no offer since has seen the low mark or a forgotten hash. */
  ghost predicate ShedsSince(m: Marks, ttl: real, run: Run, j: nat, i: nat)
    requires i <= |run.actions| < |run.states|
  {
    j < i && Overflows(m, run, j) && forall k: nat :: j < k < i ==> KeepsShedding(m, ttl, run, k)
  }

  ghost predicate Sheds(m: Marks, ttl: real, run: Run, i: nat)
    requires i <= |run.actions| < |run.states|
  {
    exists j: nat :: ShedsSince(m, ttl, run, j, i)
  }

  lemma {:induction false} ShedsNext(m: Marks, ttl: real, run: Run, i: nat)
    requires i < |run.actions| < |run.states|
    ensures Sheds(m, ttl, run, i + 1) <==>
            Overflows(m, run, i) || (Sheds(m, ttl, run, i) && KeepsShedding(m, ttl, run, i))
  {
    if Overflows(m, run, i) {
      assert ShedsSince(m, ttl, run, i, i + 1);
    } else if Sheds(m, ttl, run, i + 1) {
      var j: nat :| ShedsSince(m, ttl, run, j, i + 1);
      assert ShedsSince(m, ttl, run, j, i);
    } else if Sheds(m, ttl, run, i) && KeepsShedding(m, ttl, run, i) {
      var j: nat :| ShedsSince(m, ttl, run, j, i);
      assert ShedsSince(m, ttl, run, j, i + 1);
    }
  }

  /** The flag says just that. */
  lemma {:induction false} FlagNext(m: Marks, ttl: real, run: Run, i: nat)
    requires IsRun(m, ttl, run) && i < |run.actions|
    ensures Shedding(run.states[i + 1]) <==>
            Overflows(m, run, i) || (Shedding(run.states[i]) && KeepsShedding(m, ttl, run, i))
  {
  }

  lemma {:induction false} FlagExactly(m: Marks, ttl: real, run: Run, n: nat)
    requires IsRun(m, ttl, run) && n <= |run.actions|
    ensures Shedding(run.states[n]) <==> Sheds(m, ttl, run, n)
    decreases n
  {
    if n > 0 {
      FlagExactly(m, ttl, run, n - 1);
      FlagNext(m, ttl, run, n - 1);
      ShedsNext(m, ttl, run, n - 1);
    }
  }

  /**
    A job is refused if and only if it does not fit below the high mark, or the queue is above the low mark
    and has been so, at every offer and with no pause of a time to live, since an offer that did not fit.
  */
  lemma {:induction false} RefusedExactly(m: Marks, ttl: real, run: Run, i: nat)
    requires IsRun(m, ttl, run) && i < |run.actions| && run.actions[i].Offer?
    ensures !AdmitsAt(m, ttl, run, i) <==>
            Overflows(m, run, i) || (Sheds(m, ttl, run, i) && KeepsShedding(m, ttl, run, i))
  {
    FlagExactly(m, ttl, run, i);
  }

  // ------------------------------------------------------------------ the counters

  /** The jobs among the first `n` actions that were admitted, or refused, and their pages. */
  ghost function Jobs(m: Marks, ttl: real, run: Run, admitted: bool, n: nat): nat
    requires n <= |run.actions| && |run.states| == |run.actions| + 1
  {
    if n == 0 then 0
    else Jobs(m, ttl, run, admitted, n - 1) + (if Decided(m, ttl, run, admitted, n - 1) then 1 else 0)
  }

  ghost function Pages(m: Marks, ttl: real, run: Run, admitted: bool, n: nat): nat
    requires n <= |run.actions| && |run.states| == |run.actions| + 1
  {
    if n == 0 then 0
    else Pages(m, ttl, run, admitted, n - 1) +
         (if Decided(m, ttl, run, admitted, n - 1) then run.actions[n - 1].pages else 0)
  }

  ghost predicate Decided(m: Marks, ttl: real, run: Run, admitted: bool, i: nat)
    requires i < |run.actions| && |run.states| == |run.actions| + 1
  {
    run.actions[i].Offer? && (AdmitsAt(m, ttl, run, i) <==> admitted)
  }

  /** With offers less than the time to live apart, each counter counts what its name says. */
  lemma {:induction false} CountersExact(m: Marks, ttl: real, run: Run, n: nat)
    requires IsRun(m, ttl, run) && Paced(run, ttl) && n <= |run.actions|
    ensures var g := Counters(run.states[n]);
            && g.admittedJobs == Jobs(m, ttl, run, true, n) && g.admittedPages == Pages(m, ttl, run, true, n)
            && g.shedJobs == Jobs(m, ttl, run, false, n) && g.shedPages == Pages(m, ttl, run, false, n)
    decreases n
  {
    if n > 0 {
      CountersExact(m, ttl, run, n - 1);
    }
  }
}

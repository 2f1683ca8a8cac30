/** Admission at the edge: a Schmitt trigger on the depth of the queue, with every refusal counted. */
module Admission {
  import opened Sets

  datatype Marks = Marks(high: nat, low: nat)

  /** The fields of the hash. */
  datatype Gate = Gate(shedding: bool, admittedJobs: nat, admittedPages: nat, shedJobs: nat, shedPages: nat,
                       trips: nat, recoveries: nat)

  /** The hash in the store; `touched` is the time of the last script run, from which its expiry counts. */
  datatype Hash = Missing | Hash(gate: Gate, touched: real)

  function NewGate(): Gate {
    Gate(false, 0, 0, 0, 0, 0, 0)
  }

  /** The fields that a run at time `now` finds: those of a new hash when the old one has expired. */
  function Found(h: Hash, now: real, ttl: real): Gate {
    if h.Missing? || now - h.touched >= ttl then NewGate() else h.gate
  }

  /** The decision on fields as found: the fields afterwards, and whether the job is admitted. */
  function Evaluate(m: Marks, g: Gate, depth: nat, pages: nat): (Gate, bool) {
    var recovers := g.shedding && depth <= m.low;
    var shedding := g.shedding && !recovers;
    var admitted := !shedding && depth + pages <= m.high;
    var trips := !shedding && !admitted;
    (Gate(shedding || trips,
          g.admittedJobs + (if admitted then 1 else 0), g.admittedPages + (if admitted then pages else 0),
          g.shedJobs + (if admitted then 0 else 1), g.shedPages + (if admitted then 0 else pages),
          g.trips + (if trips then 1 else 0), g.recoveries + (if recovers then 1 else 0)),
     admitted)
  }

  /** One run of the script. */
  function Script(m: Marks, ttl: real, h: Hash, depth: nat, pages: nat, now: real): (Hash, bool) {
    var (gate, admitted) := Evaluate(m, Found(h, now, ttl), depth, pages);
    (Hash(gate, now), admitted)
  }

  class AdmissionGate {
    const marks: Marks
    const ttl: real
    var stored: Hash

    constructor (marks: Marks, ttl: real)
      ensures this.marks == marks && this.ttl == ttl && stored == Missing
    {
      this.marks, this.ttl := marks, ttl;
      stored := Missing;
    }

    method Decide(depth: nat, pages: nat, now: real) returns (admitted: bool)
      modifies this
      ensures (stored, admitted) == Script(marks, ttl, old(stored), depth, pages, now)
    {
      var gate := NewGate();
      if stored.Hash? && now - stored.touched < ttl {
        gate := stored.gate;
      }
      var shedding := gate.shedding;
      if shedding && depth <= marks.low {
        shedding := false;
        gate := gate.(recoveries := gate.recoveries + 1);
      }
      admitted := false;
      if !shedding {
        if depth + pages <= marks.high {
          admitted := true;
        } else {
          shedding := true;
          gate := gate.(trips := gate.trips + 1);
        }
      }
      if admitted {
        gate := gate.(admittedJobs := gate.admittedJobs + 1, admittedPages := gate.admittedPages + pages);
      } else {
        gate := gate.(shedJobs := gate.shedJobs + 1, shedPages := gate.shedPages + pages);
      }
      stored := Hash(gate.(shedding := shedding), now);
    }
  }

  /** The queue entries, each with the page it is for; pages below `unused` have been handed out. */
  datatype State = State(hash: Hash, entries: map<nat, nat>, next: nat, unused: nat)

  datatype Action =
    | Offer(pages: nat, now: real)   // evaluation, job creation and enqueueing, under one lock
    | Requeue(e: nat)                // the replacement is published; the original stays until it is acknowledged
    | Ack(e: nat)

  function Enqueued(entries: map<nat, nat>, next: nat, unused: nat, pages: nat): (r: map<nat, nat>)
    ensures forall e :: e in entries && e < next ==> e in r && r[e] == entries[e]
    ensures forall e :: e in r ==> (e in entries && r[e] == entries[e]) ||
                                   (next <= e < next + pages && unused <= r[e] < unused + pages)
  {
    if pages == 0 then entries
    else Enqueued(entries, next, unused, pages - 1)[next + pages - 1 := unused + pages - 1]
  }

  function Next(m: Marks, ttl: real, s: State, a: Action): State {
    match a
    case Offer(pages, now) =>
      var (hash, admitted) := Script(m, ttl, s.hash, |s.entries|, pages, now);
      if admitted then State(hash, Enqueued(s.entries, s.next, s.unused, pages), s.next + pages, s.unused + pages)
      else s.(hash := hash)
    case Requeue(e) =>
      if e in s.entries then s.(entries := s.entries[s.next := s.entries[e]], next := s.next + 1) else s
    case Ack(e) =>
      s.(entries := s.entries - {e})
  }

  function Initial(): State {
    State(Missing, map[], 0, 0)
  }

  // ------------------------------------------------------------------ the watermark

  /** The pages that hold an entry which has not been settled. */
  ghost function Held(entries: map<nat, nat>): set<nat> {
    set e | e in entries :: entries[e]
  }

  lemma {:induction false} HeldAtMostDepth(entries: map<nat, nat>)
    ensures |Held(entries)| <= |entries|
  {
    if entries != map[] {
      var e :| e in entries;
      var rest := entries - {e};
      HeldAtMostDepth(rest);
      assert entries == rest[e := entries[e]];
      assert Held(entries) == Held(rest) + {entries[e]};
    } else {
      assert Held(entries) == {};
    }
  }

  ghost function Range(from: nat, n: nat): (r: set<nat>)
    ensures |r| == n && forall x :: x in r <==> from <= x < from + n
  {
    if n == 0 then {} else Range(from, n - 1) + {from + n - 1}
  }

  /** Only an admitted job adds pages, and then no more than the watermark allows. */
  lemma {:induction false} StepKeepsMark(m: Marks, ttl: real, s: State, a: Action)
    requires |Held(s.entries)| <= m.high
    ensures |Held(Next(m, ttl, s, a).entries)| <= m.high
  {
    var now := Next(m, ttl, s, a);
    if a.Offer? && Script(m, ttl, s.hash, |s.entries|, a.pages, a.now).1 {
      HeldAtMostDepth(s.entries);
      var more := Held(s.entries) + Range(s.unused, a.pages);
      SubsetSize(Held(now.entries), more);
      assert |more| <= |Held(s.entries)| + a.pages;
    } else {
      SubsetSize(Held(now.entries), Held(s.entries));
    }
  }

  datatype Run = Run(states: seq<State>, actions: seq<Action>)

  /** A job has at least one page. */
  ghost predicate IsRun(m: Marks, ttl: real, run: Run) {
    && |run.states| == |run.actions| + 1 && run.states[0] == Initial()
    && forall i :: 0 <= i < |run.actions| ==>
         && (run.actions[i].Offer? ==> run.actions[i].pages >= 1)
         && run.states[i + 1] == Next(m, ttl, run.states[i], run.actions[i])
  }

  /** Across any mix of offers, requeues and acknowledgements the pages held never exceed the high mark. */
  lemma {:induction false} HeldWithinMark(m: Marks, ttl: real, run: Run, n: nat)
    requires IsRun(m, ttl, run) && n < |run.states|
    ensures |Held(run.states[n].entries)| <= m.high
    decreases n
  {
    if n == 0 {
      assert Held(run.states[0].entries) == {};
    } else {
      HeldWithinMark(m, ttl, run, n - 1);
      StepKeepsMark(m, ttl, run.states[n - 1], run.actions[n - 1]);
    }
  }

  // ------------------------------------------------------------------ hysteresis

  /** Each offer follows the one before it within less than `gap`. */
  ghost predicate Paced(run: Run, gap: real)
    requires |run.states| == |run.actions| + 1
  {
    forall i :: 0 <= i < |run.actions| && run.actions[i].Offer? && run.states[i].hash.Hash? ==>
      0.0 <= run.actions[i].now - run.states[i].hash.touched < gap
  }

  predicate Shedding(s: State) {
    s.hash.Hash? && s.hash.gate.shedding
  }

  ghost predicate AdmitsAt(m: Marks, ttl: real, run: Run, i: nat)
    requires |run.states| == |run.actions| + 1 && i < |run.actions|
  {
    var s, a := run.states[i], run.actions[i];
    a.Offer? && Script(m, ttl, s.hash, |s.entries|, a.pages, a.now).1
  }

  /** An evaluation between `i` and `j` saw the depth at or below the low mark. */
  ghost predicate SawLow(m: Marks, run: Run, i: nat, j: nat)
    requires |run.states| == |run.actions| + 1 && j < |run.actions|
  {
    exists k :: i <= k <= j && run.actions[k].Offer? && |run.states[k].entries| <= m.low
  }

  lemma {:induction false} StaysShedding(m: Marks, ttl: real, run: Run, i: nat, j: nat)
    requires IsRun(m, ttl, run) && Paced(run, ttl) && i <= j <= |run.actions| && Shedding(run.states[i])
    requires forall k :: i <= k < j && run.actions[k].Offer? ==> |run.states[k].entries| > m.low
    ensures Shedding(run.states[j])
    decreases j
  {
    if i < j {
      StaysShedding(m, ttl, run, i, j - 1);
    }
  }

  /** Once shedding, nothing is admitted until an evaluation sees the depth at or below the low mark. */
  lemma {:induction false} NothingUntilLow(m: Marks, ttl: real, run: Run, i: nat, j: nat)
    requires IsRun(m, ttl, run) && Paced(run, ttl) && i <= j < |run.actions|
    requires Shedding(run.states[i]) && AdmitsAt(m, ttl, run, j)
    ensures SawLow(m, run, i, j)
  {
    if forall k :: i <= k < j && run.actions[k].Offer? ==> |run.states[k].entries| > m.low {
      StaysShedding(m, ttl, run, i, j);
    }
  }

  /** After shedding at `i` a job is admitted at `j`, with offers less than `gap` apart throughout. */
  ghost predicate Readmits(m: Marks, ttl: real, gap: real, run: Run, i: nat, j: nat) {
    && IsRun(m, ttl, run) && Paced(run, gap) && i <= j < |run.actions|
    && Shedding(run.states[i]) && AdmitsAt(m, ttl, run, j)
  }

  /** Hysteresis on all runs whose offers are less than `gap` apart. */
  ghost predicate HysteresisHolds(m: Marks, ttl: real, gap: real) {
    forall run, i: nat, j: nat :: Readmits(m, ttl, gap, run, i, j) ==> SawLow(m, run, i, j)
  }

  /**
    It holds exactly when the offers come fast enough to keep the hash, or the marks are so close
    that no job fits above the low one.
  */
  lemma {:induction false} HysteresisExactly(m: Marks, ttl: real, gap: real)
    requires ttl > 0.0
    ensures HysteresisHolds(m, ttl, gap) <==> gap <= ttl || m.high <= m.low + 1
  {
    if gap <= ttl || m.high <= m.low + 1 {
      forall run, i: nat, j: nat | Readmits(m, ttl, gap, run, i, j) ensures SawLow(m, run, i, j) {
        if gap <= ttl {
          NothingUntilLow(m, ttl, run, i, j);
        } else {
          assert |run.states[j].entries| + 1 <= m.high;
        }
      }
    } else {
      ForgottenTrip(m, ttl, gap);
    }
  }

  // A run of one-page jobs: they fill the queue, trip the gate, and some are done before the hash has expired.

  ghost function Last(run: Run): State
    requires run.states != []
  {
    run.states[|run.states| - 1]
  }

  ghost function Extended(m: Marks, ttl: real, run: Run, a: Action): Run
    requires run.states != []
  {
    Run(run.states + [Next(m, ttl, Last(run), a)], run.actions + [a])
  }

  /** A run whose hash, if there is one, was touched at time 0. */
  ghost predicate AtZero(m: Marks, ttl: real, gap: real, run: Run) {
    IsRun(m, ttl, run) && Paced(run, gap) && (Last(run).hash.Hash? ==> Last(run).hash.touched == 0.0)
  }

  lemma {:induction false} ExtendedIsRun(m: Marks, ttl: real, gap: real, run: Run, a: Action)
    requires AtZero(m, ttl, gap, run) && (a.Offer? ==> a.pages >= 1 && 0.0 <= a.now < gap)
    ensures IsRun(m, ttl, Extended(m, ttl, run, a)) && Paced(Extended(m, ttl, run, a), gap)
  {
  }

  /** The entries are those with the ids from `low` to `high`. */
  ghost predicate Between(s: State, low: nat, high: nat) {
    s.next == high && |s.entries| == high - low && forall e :: e in s.entries <==> low <= e < high
  }

  /** One more page. */
  lemma {:induction false} OfferOne(m: Marks, ttl: real, s: State, n: nat)
    requires ttl > 0.0 && Between(s, 0, n) && !Shedding(s) && (s.hash.Hash? ==> s.hash.touched == 0.0)
    ensures var t := Next(m, ttl, s, Offer(1, 0.0));
            && t.hash.Hash? && t.hash.touched == 0.0 && Shedding(t) == (n + 1 > m.high)
            && (if n + 1 > m.high then Between(t, 0, n) else Between(t, 0, n + 1))
  {
    assert Enqueued(s.entries, s.next, s.unused, 1) == s.entries[s.next := s.unused];
  }

  lemma {:induction false} Fills(m: Marks, ttl: real, gap: real, n: nat) returns (run: Run)
    requires ttl > 0.0 && gap > 0.0 && n <= m.high
    ensures AtZero(m, ttl, gap, run) && !Shedding(Last(run)) && Between(Last(run), 0, n)
  {
    if n == 0 {
      run := Run([Initial()], []);
    } else {
      var before := Fills(m, ttl, gap, n - 1);
      OfferOne(m, ttl, Last(before), n - 1);
      ExtendedIsRun(m, ttl, gap, before, Offer(1, 0.0));
      run := Extended(m, ttl, before, Offer(1, 0.0));
    }
  }

  lemma {:induction false} Trips(m: Marks, ttl: real, gap: real) returns (run: Run)
    requires ttl > 0.0 && gap > 0.0
    ensures AtZero(m, ttl, gap, run) && Shedding(Last(run)) && Between(Last(run), 0, m.high)
  {
    var full := Fills(m, ttl, gap, m.high);
    OfferOne(m, ttl, Last(full), m.high);
    ExtendedIsRun(m, ttl, gap, full, Offer(1, 0.0));
    run := Extended(m, ttl, full, Offer(1, 0.0));
  }

  /** From action `i` on only acknowledgements. */
  ghost predicate OnlyAcks(run: Run, i: nat) {
    forall k :: i <= k < |run.actions| ==> run.actions[k].Ack?
  }

  /** The first `k` entries are done. */
  lemma {:induction false} Drains(m: Marks, ttl: real, gap: real, k: nat) returns (run: Run, i: nat)
    requires ttl > 0.0 && gap > 0.0 && k <= m.high
    ensures AtZero(m, ttl, gap, run) && Last(run).hash.Hash? && Between(Last(run), k, m.high)
    ensures i <= |run.actions| && Shedding(run.states[i]) && OnlyAcks(run, i)
  {
    if k == 0 {
      run := Trips(m, ttl, gap);
      i := |run.actions|;
    } else {
      var before: Run;
      before, i := Drains(m, ttl, gap, k - 1);
      ExtendedIsRun(m, ttl, gap, before, Ack(k - 1));
      run := Extended(m, ttl, before, Ack(k - 1));
      assert Last(run).entries == Last(before).entries - {k - 1};
    }
  }

  /** When the hash has expired, one more page is admitted above the low mark. */
  lemma {:induction false} ForgottenTrip(m: Marks, ttl: real, gap: real)
    requires ttl > 0.0 && gap > ttl && m.high >= m.low + 2
    ensures !HysteresisHolds(m, ttl, gap)
  {
    var before, i := Drains(m, ttl, gap, m.high - m.low - 1);
    var late, j := Offer(1, ttl), |before.actions|;
    ExtendedIsRun(m, ttl, gap, before, late);
    var run := Extended(m, ttl, before, late);
    assert run.states[i] == before.states[i] && run.states[j] == Last(before);
    assert AdmitsAt(m, ttl, run, j);
    assert !SawLow(m, run, i, j);
    assert Readmits(m, ttl, gap, run, i, j);
  }

  // ------------------------------------------------------------------ every offer is counted

  ghost function OfferedJobs(actions: seq<Action>, n: nat): nat
    requires n <= |actions|
  {
    if n == 0 then 0 else OfferedJobs(actions, n - 1) + (if actions[n - 1].Offer? then 1 else 0)
  }

  ghost function OfferedPages(actions: seq<Action>, n: nat): nat
    requires n <= |actions|
  {
    if n == 0 then 0 else OfferedPages(actions, n - 1) + (if actions[n - 1].Offer? then actions[n - 1].pages else 0)
  }

  /** The counters of a state; a hash that was never written counts nothing. */
  function Counters(s: State): Gate {
    if s.hash.Missing? then NewGate() else s.hash.gate
  }

  /** Admitted and shed make up all offers so far, in jobs and in pages. */
  ghost predicate Accounted(run: Run, n: nat)
    requires n < |run.states| == |run.actions| + 1
  {
    var g := Counters(run.states[n]);
    && g.admittedJobs + g.shedJobs == OfferedJobs(run.actions, n)
    && g.admittedPages + g.shedPages == OfferedPages(run.actions, n)
  }

  /** One action, on a hash that is kept. */
  lemma {:induction false} ActionAccounted(m: Marks, ttl: real, s: State, a: Action)
    requires a.Offer? && s.hash.Hash? ==> a.now - s.hash.touched < ttl
    ensures var g, now := Counters(s), Counters(Next(m, ttl, s, a));
            && now.admittedJobs + now.shedJobs == g.admittedJobs + g.shedJobs + (if a.Offer? then 1 else 0)
            && now.admittedPages + now.shedPages == g.admittedPages + g.shedPages + (if a.Offer? then a.pages else 0)
  {
  }

  lemma {:induction false} OffersAccounted(m: Marks, ttl: real, run: Run, n: nat)
    requires IsRun(m, ttl, run) && Paced(run, ttl) && n < |run.states|
    ensures Accounted(run, n)
    decreases n
  {
    if n > 0 {
      OffersAccounted(m, ttl, run, n - 1);
      ActionAccounted(m, ttl, run.states[n - 1], run.actions[n - 1]);
    }
  }

  /** Trips and recoveries alternate within the life of a hash, whatever the pace. */
  lemma {:induction false} TripsAlternate(m: Marks, ttl: real, run: Run, n: nat)
    requires IsRun(m, ttl, run) && n < |run.states|
    ensures var g := Counters(run.states[n]); g.trips == g.recoveries + (if g.shedding then 1 else 0)
    decreases n
  {
    if n > 0 {
      TripsAlternate(m, ttl, run, n - 1);
    }
  }

  ghost predicate AccountingHolds(m: Marks, ttl: real, gap: real) {
    forall run, n: nat :: IsRun(m, ttl, run) && Paced(run, gap) && n < |run.states| ==> Accounted(run, n)
  }

  /** The counters count all offers on all runs exactly when the offers come fast enough to keep the hash. */
  lemma {:induction false} AccountingExactly(m: Marks, ttl: real, gap: real)
    requires ttl > 0.0
    ensures AccountingHolds(m, ttl, gap) <==> gap <= ttl
  {
    if gap <= ttl {
      forall run, n: nat | IsRun(m, ttl, run) && Paced(run, gap) && n < |run.states| ensures Accounted(run, n) {
        OffersAccounted(m, ttl, run, n);
      }
    } else {
      ForgottenOffer(m, ttl, gap);
    }
  }

  /** Two offers, of which the second finds the hash expired. */
  lemma {:induction false} ForgottenOffer(m: Marks, ttl: real, gap: real)
    requires ttl > 0.0 && gap > ttl
    ensures !AccountingHolds(m, ttl, gap)
  {
    var early, late := Offer(1, 0.0), Offer(1, ttl);
    var s1 := Next(m, ttl, Initial(), early);
    var s2 := Next(m, ttl, s1, late);
    var run := Run([Initial(), s1, s2], [early, late]);
    assert IsRun(m, ttl, run) && Paced(run, gap);
    assert OfferedJobs(run.actions, 1) == 1;
    assert !Accounted(run, 2);
  }
}

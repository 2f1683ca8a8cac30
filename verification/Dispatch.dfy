/** The worker's dispatch loop: how many tasks it holds at once. */
module Dispatch {
  import opened Naturals
  import opened Options

  datatype Settings = Settings(concurrency: nat, prefetch: nat, reserve: nat)
  {
    predicate Valid() { concurrency >= 1 && prefetch >= 1 }
  }

  /** The tasks in flight, by the lane they came from. */
  datatype State = State(lead: nat, main: nat)
  {
    function Resident(): nat { lead + main }
  }

  /** What the lanes hold at the first reads and after the wait; `waits` tells that a wait is asked for. */
  datatype World = World(lead: nat, main: nat, leadLater: nat, mainLater: nat, waits: bool, leadWaits: bool)

  /** `XREADGROUP` of one stream; a count of 0 is no limit. */
  function Entries(count: nat, available: nat): nat {
    if count == 0 then available else Min(count, available)
  }

  /** The tasks read from the lead lane and from the main lane. */
  function ReadLanes(leadCount: nat, mainCount: nat, cap: Option<nat>, w: World): (nat, nat) {
    var lead := if leadCount > 0 then Entries(leadCount, w.lead) else 0;
    var budget := if cap.None? then mainCount else if cap.value <= lead then 0 else Min(mainCount, cap.value - lead);
    if budget == 0 then
      if lead > 0 || !w.leadWaits then (lead, 0) else (Entries(leadCount, w.leadLater), 0)
    else
      var main := Entries(budget, w.main);
      if lead > 0 || main > 0 || !w.waits then (lead, main)
      else
        // The one read that watches both lanes; its count holds for each of them.
        var share := if budget / 2 >= 1 then budget / 2 else 1;
        (Entries(share, w.leadLater), Entries(share, w.mainLater))
  }

  function LeadReserve(l: Settings): nat {
    Min(l.reserve, if l.concurrency >= 1 then l.concurrency - 1 else 0)
  }

  function LeadBudget(l: Settings, s: State): nat {
    if LeadReserve(l) > s.lead then LeadReserve(l) - s.lead else 0
  }

  /** One round of the loop that has capacity left. */
  function Read(l: Settings, s: State, w: World): (nat, nat)
    requires s.Resident() < l.concurrency
  {
    var capacity := l.concurrency - s.Resident();
    if LeadReserve(l) == 0 then
      var count := Min(l.prefetch, capacity);
      ReadLanes(count, count, Some(count), w.(leadWaits := false))
    else
      var lead := LeadBudget(l, s);
      ReadLanes(Min(lead, capacity), Min(l.prefetch, if lead <= capacity then capacity - lead else 0), None, w)
  }

  datatype Action =
    | Resume(lead: nat, main: nat)     // the pending entries of an earlier incarnation, read at the start
    | Round(w: World)
    | Finish(lead: nat, main: nat)     // tasks that ended

  /** What `read_own_pending` returns for the whole budget. */
  function OwnPending(l: Settings, lead: nat, main: nat): State {
    var taken := Entries(l.concurrency, lead);
    State(taken, if taken < l.concurrency then Entries(l.concurrency - taken, main) else 0)
  }

  function Next(l: Settings, s: State, a: Action): State {
    match a
    case Resume(lead, main) => if s == State(0, 0) then OwnPending(l, lead, main) else s
    case Round(w) =>
      if s.Resident() < l.concurrency then
        var (lead, main) := Read(l, s, w);
        State(s.lead + lead, s.main + main)
      else s
    case Finish(lead, main) =>
      State(if lead <= s.lead then s.lead - lead else 0, if main <= s.main then s.main - main else 0)
  }

  // ------------------------------------------------------------------ the bound

  /** One slot is left and the reservation is used up: the read that waits on both lanes may bring two. */
  predicate LastSlot(l: Settings, s: State) {
    s.Resident() + 1 == l.concurrency && LeadBudget(l, s) == 0
  }

  lemma {:induction false} LanesFit(leadCount: nat, mainCount: nat, cap: Option<nat>, w: World)
    requires leadCount > 0 || mainCount > 0
    requires cap.Some? ==> leadCount == mainCount == cap.value && !w.leadWaits
    ensures var (lead, main) := ReadLanes(leadCount, mainCount, cap, w);
            lead + main <= if cap.Some? then (if mainCount == 1 then 2 else mainCount)
                           else (if leadCount == 0 && mainCount == 1 then 2 else leadCount + mainCount)
  {
  }

  lemma {:induction false} ReadWithoutReserve(l: Settings, s: State, w: World)
    requires l.Valid() && s.Resident() < l.concurrency && LeadReserve(l) == 0
    ensures Read(l, s, w).0 + Read(l, s, w).1 <= l.concurrency - s.Resident() + (if LastSlot(l, s) then 1 else 0)
  {
    var count := Min(l.prefetch, l.concurrency - s.Resident());
    LanesFit(count, count, Some(count), w.(leadWaits := false));
  }

  lemma {:induction false} ReadWithReserve(l: Settings, s: State, w: World)
    requires l.Valid() && s.Resident() < l.concurrency && LeadReserve(l) > 0
    ensures Read(l, s, w).0 + Read(l, s, w).1 <= l.concurrency - s.Resident() + (if LastSlot(l, s) then 1 else 0)
  {
    var capacity, lead := l.concurrency - s.Resident(), LeadBudget(l, s);
    LanesFit(Min(lead, capacity), Min(l.prefetch, if lead <= capacity then capacity - lead else 0), None, w);
  }

  lemma {:induction false} RoundBound(l: Settings, s: State, w: World)
    requires l.Valid() && s.Resident() < l.concurrency
    ensures Next(l, s, Round(w)).Resident() <= l.concurrency + (if LastSlot(l, s) then 1 else 0)
  {
    if LeadReserve(l) == 0 {
      ReadWithoutReserve(l, s, w);
    } else {
      ReadWithReserve(l, s, w);
    }
    var (lead, main) := Read(l, s, w);
    assert Next(l, s, Round(w)) == State(s.lead + lead, s.main + main);
  }

  /** A round brings the worker over its limit exactly from the last slot, and then by one. */
  lemma {:induction false} RoundExact(l: Settings, s: State)
    requires l.Valid() && s.Resident() < l.concurrency
    ensures forall w :: Next(l, s, Round(w)).Resident() <= l.concurrency + 1
    ensures (exists w :: Next(l, s, Round(w)).Resident() > l.concurrency) <==> LastSlot(l, s)
  {
    forall w ensures Next(l, s, Round(w)).Resident() <= l.concurrency + (if LastSlot(l, s) then 1 else 0) {
      RoundBound(l, s, w);
    }
    if LastSlot(l, s) {
      assert Next(l, s, Round(World(0, 0, 1, 1, true, false))).Resident() == l.concurrency + 1;
    }
  }

  /** A round fills the worker up when both lanes hold enough and the prefetch does not limit it. */
  lemma {:induction false} RoundFills(l: Settings, s: State, w: World)
    requires l.Valid() && s.Resident() < l.concurrency <= l.prefetch
    requires w.lead >= l.concurrency && w.main >= l.concurrency
    ensures Next(l, s, Round(w)).Resident() == l.concurrency
  {
  }

  /** Whatever the lanes hold, a round does not fill the slots that are reserved for the lead lane from the other. */
  lemma {:induction false} RoundKeepsReserve(l: Settings, s: State, w: World)
    requires l.Valid()
    ensures Next(l, s, Round(w)).main <= Max(s.main, l.concurrency - LeadReserve(l))
  {
  }

  /** And the reservation does not shut the other lane out. */
  lemma {:induction false} MainIsServed(l: Settings, w: World)
    requires l.Valid() && l.concurrency >= 2 && l.reserve >= 1 && w.main >= 1
    ensures Next(l, State(0, 0), Round(w)).main >= 1
  {
    var lead := LeadReserve(l);
    assert 1 <= lead < l.concurrency;
    LanesServeMain(Min(lead, l.concurrency), Min(l.prefetch, l.concurrency - lead), w);
  }

  lemma {:induction false} LanesServeMain(leadCount: nat, mainCount: nat, w: World)
    requires mainCount >= 1 && w.main >= 1
    ensures ReadLanes(leadCount, mainCount, None, w).1 >= 1
  {
  }

  lemma {:induction false} StepBounded(l: Settings, s: State, a: Action)
    requires l.Valid() && s.Resident() <= l.concurrency + 1
    ensures Next(l, s, a).Resident() <= l.concurrency + 1
  {
    if a.Round? && s.Resident() < l.concurrency {
      RoundExact(l, s);
    }
  }

  ghost predicate IsRun(l: Settings, states: seq<State>, actions: seq<Action>) {
    && |states| == |actions| + 1 && states[0] == State(0, 0)
    && forall i :: 0 <= i < |actions| ==> StepAt(l, states, actions, i)
  }

  ghost predicate StepAt(l: Settings, states: seq<State>, actions: seq<Action>, i: nat)
    requires |states| == |actions| + 1 && i < |actions|
  {
    states[i + 1] == Next(l, states[i], actions[i])
  }

  /** However reads and completions interleave, at most one task more than the limit is resident. */
  lemma {:induction false} ResidentBounded(l: Settings, states: seq<State>, actions: seq<Action>, n: nat)
    requires l.Valid() && IsRun(l, states, actions) && n < |states|
    ensures states[n].Resident() <= l.concurrency + 1
    decreases n
  {
    if n > 0 {
      ResidentBounded(l, states, actions, n - 1);
      NextBounded(l, states, actions, n - 1);
    }
  }

  lemma {:induction false} NextBounded(l: Settings, states: seq<State>, actions: seq<Action>, i: nat)
    requires l.Valid() && IsRun(l, states, actions) && i < |actions|
    requires states[i].Resident() <= l.concurrency + 1
    ensures states[i + 1].Resident() <= l.concurrency + 1
  {
    assert StepAt(l, states, actions, i);
    StepBounded(l, states[i], actions[i]);
  }

  // ------------------------------------------------------------------ it is reached

  ghost predicate Reached(l: Settings, s: State) {
    exists states, actions :: IsRun(l, states, actions) && states[|actions|] == s
  }

  lemma {:induction false} ReachedNext(l: Settings, s: State, a: Action)
    requires Reached(l, s)
    ensures Reached(l, Next(l, s, a))
  {
    var states, actions :| IsRun(l, states, actions) && states[|actions|] == s;
    var longer, more := states + [Next(l, s, a)], actions + [a];
    forall i | 0 <= i < |more| ensures StepAt(l, longer, more, i) {
      if i < |actions| {
        assert StepAt(l, states, actions, i);
      }
    }
    assert IsRun(l, longer, more) && longer[|more|] == Next(l, s, a);
  }

  /** The reservation is filled first, and then the main lane up to the last slot but one. */
  lemma {:induction false} Fills(l: Settings, main: nat)
    requires l.Valid() && LeadReserve(l) + main < l.concurrency
    ensures Reached(l, State(LeadReserve(l), main))
    decreases main
  {
    var r := LeadReserve(l);
    if main > 0 {
      Fills(l, main - 1);
      ReachedNext(l, State(r, main - 1), Round(World(0, 1, 0, 0, false, false)));
    } else {
      assert IsRun(l, [State(0, 0)], []);
      assert Reached(l, State(0, 0));
      if r > 0 {
        ReachedNext(l, State(0, 0), Round(World(r, 0, 0, 0, false, false)));
      }
    }
  }

  /** In every configuration the least bound on resident tasks is one above the configured one. */
  lemma {:induction false} BoundExact(l: Settings, bound: nat)
    requires l.Valid()
    ensures (forall s :: Reached(l, s) ==> s.Resident() <= bound) <==> bound >= l.concurrency + 1
  {
    if bound >= l.concurrency + 1 {
      forall s | Reached(l, s) ensures s.Resident() <= bound {
        var states, actions :| IsRun(l, states, actions) && states[|actions|] == s;
        ResidentBounded(l, states, actions, |actions|);
      }
    } else {
      var r := LeadReserve(l);
      var s := State(r, l.concurrency - 1 - r);
      Fills(l, s.main);
      ReachedNext(l, s, Round(World(0, 0, 1, 1, true, false)));
    }
  }
}

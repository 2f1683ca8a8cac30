/**
  How a page is lost.  The branch that loses it is a final layout attempt that finds no capacity
  after another handler has moved the page on: `FinalSaturation` says in which page states that
  branch still ends in a terminal state, and the run below shows that the bad states are reached
  as soon as workers crash and a second attempt exists.
*/
module ZeroDropLoss {
  import opened PageStates
  import opened ZeroDrop
  import opened ZeroDropProof
  import opened ZeroDropLimits

  /** A final layout attempt without capacity, run to its acknowledgement with nobody interfering. */
  function FinalSaturation(cfg: Config, st: PageState): (end: PageState)
    ensures Terminal(end) <==> st != LayoutDone && st != VlmRunning
  {
    var (s1, pc1) := Local(cfg, CallLayout(true), st, Saturates);
    var (s2, pc2) := Local(cfg, pc1, s1, Saturates);
    var (s3, pc3) := Local(cfg, pc2, s2, Saturates);
    if pc3.Ack? then s3 else Local(cfg, pc3, s3, Saturates).0
  }

  // ------------------------------------------------------------------ reachable states

  ghost predicate Reaches(cfg: Config, s: State, t: State) {
    exists states, actions :: RunBetween(cfg, s, states, actions, t)
  }

  ghost predicate RunBetween(cfg: Config, s: State, states: seq<State>, actions: seq<Action>, t: State) {
    IsRun(cfg, states, actions) && states[0] == s && states[|actions|] == t
  }

  lemma {:induction false} ReachesItself(cfg: Config, s: State)
    ensures Reaches(cfg, s, s)
  {
    assert RunBetween(cfg, s, [s], [], s);
  }

  lemma {:induction false} Then(cfg: Config, s: State, t: State, a: Action)
    requires Reaches(cfg, s, t) && WellTyped(t) && Enabled(cfg, t, a)
    ensures Reaches(cfg, s, Apply(cfg, t, a))
  {
    var states, actions :| RunBetween(cfg, s, states, actions, t);
    var u := Apply(cfg, t, a);
    var longer, more := states + [u], actions + [a];
    forall i | 0 <= i < |more| ensures RunStep(cfg, longer, more, i) {
      if i < |actions| {
        assert RunStep(cfg, states, actions, i);
      }
    }
    assert RunBetween(cfg, s, longer, more, u);
  }

  // ------------------------------------------------------------------ the losing run

  /** A state of one page. */
  function One(st: PageState, entries: map<nat, Entry>, live: map<nat, Pc>, next: nat): State {
    State(map[0 := st], entries, live, next)
  }

  /** Up to `n` commands of one handler in a row, none of them a settlement. */
  ghost function Play(cfg: Config, st: PageState, pc: Pc, outcome: Outcome, n: nat): (PageState, Pc)
    decreases n
  {
    if n == 0 || pc.Requeue? || pc.Ack? || !PcOk(pc) then (st, pc) else
      var (now, next) := Local(cfg, pc, st, outcome);
      Play(cfg, now, next, outcome, n - 1)
  }

  /** Maps of one and two keys under the updates of the run. */
  lemma {:induction false} TwoKeys<T>(x: nat, a: T, y: nat, b: T)
    requires x != y
    ensures map[x := a][y := b] == map[x := a, y := b] && map[y := b][x := a] == map[x := a, y := b]
    ensures map[x := a, y := b] - {x} == map[y := b] && map[x := a, y := b] - {y} == map[x := a]
  {
  }

  lemma {:induction false} Replaced<T>(x: nat, a: T, y: nat, b: T, c: T)
    requires x != y
    ensures map[x := a, y := b][x := c] == map[x := c, y := b]
    ensures map[x := a, y := b][y := c] == map[x := a, y := c]
  {
  }

  /** `V` holds of well-typed states only, and keeps holding whatever the system does. */
  ghost predicate Closed(cfg: Config, V: State -> bool) {
    && (forall t :: V(t) ==> WellTyped(t))
    && (forall t, a :: V(t) && Enabled(cfg, t, a) ==> V(Apply(cfg, t, a)))
  }

  lemma {:induction false} Next(V: State -> bool, cfg: Config, t: State, a: Action)
    requires Closed(cfg, V) && V(t) && Enabled(cfg, t, a)
    ensures WellTyped(t) && V(Apply(cfg, t, a))
  {
  }

  lemma {:induction false} Commands(V: State -> bool, cfg: Config, t: State, e: nat, outcome: Outcome)
    requires Closed(cfg, V)
    requires V(t) && t.pages.Keys == {0} && e in t.live && !t.live[e].Requeue? && !t.live[e].Ack?
    ensures var (now, next) := Local(cfg, t.live[e], t.pages[0], outcome);
            V(One(now, t.entries, t.live[e := next], t.next))
  {
    Next(V, cfg, t, Step(e, outcome));
    var (now, next) := Local(cfg, t.live[e], t.pages[0], outcome);
    assert Apply(cfg, t, Step(e, outcome)) == One(now, t.entries, t.live[e := next], t.next);
  }

  lemma {:induction false} Plays(V: State -> bool, cfg: Config, t: State, e: nat, outcome: Outcome, n: nat)
    requires Closed(cfg, V)
    requires V(t) && t.pages.Keys == {0} && e in t.live
    ensures var (st, pc) := Play(cfg, t.pages[0], t.live[e], outcome, n);
            V(One(st, t.entries, t.live[e := pc], t.next))
    decreases n
  {
    var pc := t.live[e];
    if n == 0 || pc.Requeue? || pc.Ack? {
      assert t == One(t.pages[0], t.entries, t.live[e := pc], t.next);
    } else {
      Commands(V, cfg, t, e, outcome);
      var (now, next) := Local(cfg, pc, t.pages[0], outcome);
      Plays(V, cfg, One(now, t.entries, t.live[e := next], t.next), e, outcome, n - 1);
      var (st, last) := Play(cfg, now, next, outcome, n - 1);
      assert t.live[e := next][e := last] == t.live[e := last];
    }
  }

  lemma {:induction false} Acknowledges(V: State -> bool, cfg: Config, t: State, e: nat)
    requires Closed(cfg, V)
    requires V(t) && e in t.live && t.live[e].Ack?
    ensures V(State(t.pages, t.entries - {e}, t.live - {e}, t.next))
  {
    Next(V, cfg, t, Step(e, Succeeds));
    assert Apply(cfg, t, Step(e, Succeeds)) == State(t.pages, t.entries - {e}, t.live - {e}, t.next);
  }

  lemma {:induction false} Requeues(V: State -> bool, cfg: Config, t: State, e: nat, again: Entry)
    requires Closed(cfg, V)
    requires V(t) && e in t.live && t.live[e].Requeue? && e in t.entries
    requires again == Again(t.entries[e], t.live[e].charged)
    ensures V(State(t.pages, t.entries[t.next := again], t.live[e := Ack], t.next + 1))
  {
    Next(V, cfg, t, Step(e, Succeeds));
    assert Apply(cfg, t, Step(e, Succeeds)) == State(t.pages, t.entries[t.next := again], t.live[e := Ack], t.next + 1);
  }

  /** A delivery followed by `n` commands. */
  lemma {:induction false} Delivers(
    V: State -> bool, cfg: Config, t: State, e: nat, final: bool, outcome: Outcome, n: nat)
    requires Closed(cfg, V)
    requires V(t) && t.pages.Keys == {0} && Enabled(cfg, t, Deliver(e, final))
    ensures var (st, pc) := Play(cfg, t.pages[0], Start(false, final), outcome, n);
            V(One(st, t.entries[e := t.entries[e].(delivered := true)], t.live[e := pc], t.next))
  {
    Next(V, cfg, t, Deliver(e, final));
    var u := Apply(cfg, t, Deliver(e, final));
    Plays(V, cfg, u, e, outcome, n);
    var (st, pc) := Play(cfg, t.pages[0], Start(false, final), outcome, n);
    assert u.live[e := pc] == t.live[e := pc];
  }

  /** A recovery of an entry of a crashed handler, followed by `n` commands. */
  lemma {:induction false} Recovers(V: State -> bool, cfg: Config, t: State, e: nat, outcome: Outcome, n: nat)
    requires Closed(cfg, V)
    requires V(t) && t.pages.Keys == {0} && Enabled(cfg, t, Recover(e, true))
    ensures var (st, pc) := Play(cfg, t.pages[0], Start(true, true), outcome, n);
            V(One(st, t.entries, t.live[e := pc], t.next))
  {
    Next(V, cfg, t, Recover(e, true));
    var u := Apply(cfg, t, Recover(e, true));
    Plays(V, cfg, u, e, outcome, n);
    var (st, pc) := Play(cfg, t.pages[0], Start(true, true), outcome, n);
    assert u.live[e := pc] == t.live[e := pc];
  }

  /** A first attempt without capacity hands its claim back. */
  lemma {:induction false} FirstAttempt(cfg: Config)
    ensures Play(cfg, Pending, Start(false, false), Saturates, 5) == (Pending, Requeue(true))
  {
  }

  lemma {:induction false} SecondAttempt(cfg: Config)
    ensures Play(cfg, Pending, Start(false, true), Succeeds, 2) == (LayoutRunning, CallLayout(true))
  {
  }

  /** What the recovered handler does once its layout is committed. */
  function AfterLayout(cfg: Config): Pc {
    if cfg.handoff then Requeue(false) else ClaimVlm(true)
  }

  /** A recovered entry rolls back the claim it finds, whoever holds it, and commits the layout. */
  lemma {:induction false} RecoveredAttempt(cfg: Config)
    ensures Play(cfg, LayoutRunning, Start(true, true), Succeeds, 7) == (LayoutDone, AfterLayout(cfg))
  {
    assert Play(cfg, Pending, ReclaimReread(true), Succeeds, 4) == (LayoutDone, AfterLayout(cfg));
  }

  /** The final layout attempt finds no capacity, hands back the VLM claim and cannot fail the page. */
  lemma {:induction false} FinalAttempt(cfg: Config)
    ensures Play(cfg, VlmRunning, CallLayout(true), Saturates, 4) == (LayoutDone, Ack)
  {
  }

  lemma {:induction false} VlmAttempt(cfg: Config)
    ensures Play(cfg, LayoutDone, ClaimVlm(true), Succeeds, 1) == (VlmRunning, CallVlm(true))
    ensures Play(cfg, LayoutDone, Start(false, true), Succeeds, 2) == (VlmRunning, CallVlm(true))
    ensures Play(cfg, LayoutDone, CallVlm(true), Succeeds, 2) == (LayoutDone, Ack)
  {
  }

  lemma {:induction false} SaturatesOnce(V: State -> bool, cfg: Config)
    requires Closed(cfg, V) && V(Fresh(1))
    requires cfg.maxRequeues >= 2
    ensures V(One(Pending, map[0 := Entry(0, 0, true)], map[0 := Requeue(true)], 1))
  {
    var s := Fresh(1);
    FirstAttempt(cfg);
    Delivers(V, cfg, s, 0, false, Saturates, 5);
    assert s.entries[0 := s.entries[0].(delivered := true)] == map[0 := Entry(0, 0, true)];
    assert s.live[0 := Requeue(true)] == map[0 := Requeue(true)];
  }

  function Twice(delivered: bool): map<nat, Entry> {
    map[0 := Entry(0, 0, true), 1 := Entry(0, 1, delivered)]
  }

  /** The first handler publishes the replacement and crashes before it acknowledges its own entry. */
  lemma {:induction false} LeavesTwoEntries(V: State -> bool, cfg: Config)
    requires Closed(cfg, V) && V(Fresh(1))
    requires cfg.canCrash && cfg.maxRequeues >= 2
    ensures V(One(Pending, Twice(false), map[], 2))
  {
    SaturatesOnce(V, cfg);
    var t := One(Pending, map[0 := Entry(0, 0, true)], map[0 := Requeue(true)], 1);
    Requeues(V, cfg, t, 0, Entry(0, 1, false));
    assert t.entries[1 := Entry(0, 1, false)] == Twice(false);
    var u := One(Pending, Twice(false), t.live[0 := Ack], 2);
    Next(V, cfg, u, Crash(0));
    assert u.live - {0} == map[];
  }

  /** The second entry is on its final layout call. */
  lemma {:induction false} TakesSecond(V: State -> bool, cfg: Config)
    requires Closed(cfg, V) && V(Fresh(1))
    requires cfg.canCrash && cfg.maxRequeues >= 2
    ensures V(One(LayoutRunning, Twice(true), map[1 := CallLayout(true)], 2))
  {
    LeavesTwoEntries(V, cfg);
    var t := One(Pending, Twice(false), map[], 2);
    SecondAttempt(cfg);
    Delivers(V, cfg, t, 1, true, Succeeds, 2);
    assert t.entries[1 := t.entries[1].(delivered := true)] == Twice(true);
    assert t.live[1 := CallLayout(true)] == map[1 := CallLayout(true)];
  }

  /** Meanwhile the first is recovered, rolls the page back and commits a layout of its own. */
  lemma {:induction false} RecoversFirst(V: State -> bool, cfg: Config)
    requires Closed(cfg, V) && V(Fresh(1))
    requires cfg.canCrash && cfg.maxRequeues >= 2
    ensures V(One(LayoutDone, Twice(true), map[0 := AfterLayout(cfg), 1 := CallLayout(true)], 2))
  {
    TakesSecond(V, cfg);
    RecoveredAttempt(cfg);
    Recovers(V, cfg, One(LayoutRunning, Twice(true), map[1 := CallLayout(true)], 2), 0, Succeeds, 7);
    TwoKeys(0, AfterLayout(cfg), 1, CallLayout(true));
  }

  /** The entry under which the VLM runs, the entries left by then, and the next fresh entry. */
  function VlmEntry(cfg: Config): nat {
    if cfg.handoff then 2 else 0
  }

  function Rivals(cfg: Config, delivered: bool): map<nat, Entry> {
    map[1 := Entry(0, 1, true), VlmEntry(cfg) := Entry(0, 0, delivered)]
  }

  function Unused(cfg: Config): nat {
    if cfg.handoff then 3 else 2
  }

  /** With a handoff the page goes through the queue once more. */
  lemma {:induction false} PublishesVlmTask(V: State -> bool, cfg: Config)
    requires Closed(cfg, V) && V(Fresh(1))
    requires cfg.canCrash && cfg.maxRequeues >= 2 && cfg.handoff
    ensures V(One(LayoutDone, Twice(true)[2 := Entry(0, 0, false)], map[0 := Ack, 1 := CallLayout(true)], 3))
  {
    RecoversFirst(V, cfg);
    var t := One(LayoutDone, Twice(true), map[0 := Requeue(false), 1 := CallLayout(true)], 2);
    Requeues(V, cfg, t, 0, Entry(0, 0, false));
    assert t.live[0 := Ack] == map[0 := Ack, 1 := CallLayout(true)];
  }

  lemma {:induction false} HandsOff(V: State -> bool, cfg: Config)
    requires Closed(cfg, V) && V(Fresh(1))
    requires cfg.canCrash && cfg.maxRequeues >= 2 && cfg.handoff
    ensures V(One(LayoutDone, Rivals(cfg, false), map[1 := CallLayout(true)], 3))
  {
    PublishesVlmTask(V, cfg);
    var u := One(LayoutDone, Twice(true)[2 := Entry(0, 0, false)], map[0 := Ack, 1 := CallLayout(true)], 3);
    Acknowledges(V, cfg, u, 0);
    HandedOff(cfg);
    TwoKeys(0, Ack, 1, CallLayout(true));
  }

  lemma {:induction false} HandedOff(cfg: Config)
    requires cfg.handoff
    ensures Twice(true)[2 := Entry(0, 0, false)] - {0} == Rivals(cfg, false)
  {
  }

  lemma {:induction false} TaskTaken(cfg: Config)
    requires cfg.handoff
    ensures 2 in Rivals(cfg, false) && Rivals(cfg, false)[2] == Entry(0, 0, false)
    ensures Rivals(cfg, false)[2 := Entry(0, 0, true)] == Rivals(cfg, true)
  {
  }

  lemma {:induction false} StartsVlmAfterHandoff(V: State -> bool, cfg: Config)
    requires Closed(cfg, V) && V(Fresh(1))
    requires cfg.canCrash && cfg.maxRequeues >= 2 && cfg.handoff
    ensures V(One(VlmRunning, Rivals(cfg, true), map[1 := CallLayout(true), 2 := CallVlm(true)], 3))
  {
    HandsOff(V, cfg);
    var t := One(LayoutDone, Rivals(cfg, false), map[1 := CallLayout(true)], 3);
    VlmAttempt(cfg);
    TaskTaken(cfg);
    Delivers(V, cfg, t, 2, true, Succeeds, 2);
    TwoKeys(1, CallLayout(true), 2, CallVlm(true));
  }

  lemma {:induction false} StartsVlmAtOnce(V: State -> bool, cfg: Config)
    requires Closed(cfg, V) && V(Fresh(1))
    requires cfg.canCrash && cfg.maxRequeues >= 2 && !cfg.handoff
    ensures V(One(VlmRunning, Twice(true), map[0 := CallVlm(true), 1 := CallLayout(true)], 2))
  {
    RecoversFirst(V, cfg);
    VlmAttempt(cfg);
    Plays(V, cfg, One(LayoutDone, Twice(true), map[0 := AfterLayout(cfg), 1 := CallLayout(true)], 2), 0, Succeeds, 1);
    Replaced(0, AfterLayout(cfg), 1, CallLayout(true), CallVlm(true));
  }

  lemma {:induction false} SameWithoutHandoff(cfg: Config)
    requires !cfg.handoff
    ensures Twice(true) == Rivals(cfg, true)
    ensures map[0 := CallVlm(true), 1 := CallLayout(true)] == map[1 := CallLayout(true), VlmEntry(cfg) := CallVlm(true)]
  {
  }

  lemma {:induction false} StartsVlm(V: State -> bool, cfg: Config)
    requires Closed(cfg, V) && V(Fresh(1))
    requires cfg.canCrash && cfg.maxRequeues >= 2
    ensures V(One(VlmRunning, Rivals(cfg, true),
                  map[1 := CallLayout(true), VlmEntry(cfg) := CallVlm(true)], Unused(cfg)))
  {
    if cfg.handoff {
      StartsVlmAfterHandoff(V, cfg);
    } else {
      StartsVlmAtOnce(V, cfg);
      SameWithoutHandoff(cfg);
    }
  }

  /** The final layout attempt gives up on a page it cannot fail. */
  lemma {:induction false} HandsBackTheOthersClaim(V: State -> bool, cfg: Config)
    requires Closed(cfg, V) && V(Fresh(1))
    requires cfg.canCrash && cfg.maxRequeues >= 2
    ensures V(One(LayoutDone, Rivals(cfg, true), map[1 := Ack, VlmEntry(cfg) := CallVlm(true)], Unused(cfg)))
  {
    var v := VlmEntry(cfg);
    StartsVlm(V, cfg);
    FinalAttempt(cfg);
    var t := One(VlmRunning, Rivals(cfg, true), map[1 := CallLayout(true), v := CallVlm(true)], Unused(cfg));
    Plays(V, cfg, t, 1, Saturates, 4);
    Replaced(1, CallLayout(true), v, CallVlm(true), Ack);
  }

  /** And the VLM result is rejected too. */
  lemma {:induction false} BothStandDown(V: State -> bool, cfg: Config)
    requires Closed(cfg, V) && V(Fresh(1))
    requires cfg.canCrash && cfg.maxRequeues >= 2
    ensures V(One(LayoutDone, Rivals(cfg, true), map[1 := Ack, VlmEntry(cfg) := Ack], Unused(cfg)))
  {
    var v := VlmEntry(cfg);
    HandsBackTheOthersClaim(V, cfg);
    VlmAttempt(cfg);
    Plays(V, cfg, One(LayoutDone, Rivals(cfg, true), map[1 := Ack, v := CallVlm(true)], Unused(cfg)), v, Succeeds, 2);
    Replaced(1, Ack, v, CallVlm(true), Ack);
  }

  lemma {:induction false} FirstAcknowledgement(V: State -> bool, cfg: Config)
    requires Closed(cfg, V) && V(Fresh(1))
    requires cfg.canCrash && cfg.maxRequeues >= 2
    ensures V(One(LayoutDone, map[VlmEntry(cfg) := Entry(0, 0, true)], map[VlmEntry(cfg) := Ack], Unused(cfg)))
  {
    var v := VlmEntry(cfg);
    BothStandDown(V, cfg);
    Acknowledges(V, cfg, One(LayoutDone, Rivals(cfg, true), map[1 := Ack, v := Ack], Unused(cfg)), 1);
    TwoKeys(1, Entry(0, 1, true), v, Entry(0, 0, true));
    TwoKeys(1, Ack, v, Ack);
  }

  /** The page ends up with its layout result, no queue entry and no handler. */
  lemma {:induction false} PageIsLost(V: State -> bool, cfg: Config)
    requires Closed(cfg, V) && V(Fresh(1))
    requires cfg.canCrash && cfg.maxRequeues >= 2
    ensures V(One(LayoutDone, map[], map[], Unused(cfg)))
  {
    var v := VlmEntry(cfg);
    FirstAcknowledgement(V, cfg);
    var t := One(LayoutDone, map[v := Entry(0, 0, true)], map[v := Ack], Unused(cfg));
    Acknowledges(V, cfg, t, v);
    assert t.entries - {v} == map[] && t.live - {v} == map[];
  }

  // ------------------------------------------------------------------ exactly when nothing is lost

  ghost predicate Visited(cfg: Config, t: State) {
    Reaches(cfg, Fresh(1), t) && WellTyped(t)
  }

  lemma {:induction false} LostIsReached(cfg: Config)
    requires cfg.canCrash && cfg.maxRequeues >= 2
    ensures Reaches(cfg, Fresh(1), One(LayoutDone, map[], map[], Unused(cfg)))
  {
    var V := (t: State) => Visited(cfg, t);
    forall t, a | V(t) && Enabled(cfg, t, a) ensures V(Apply(cfg, t, a)) {
      Then(cfg, Fresh(1), t, a);
      StepWellTyped(cfg, t, a);
    }
    ReachesItself(cfg, Fresh(1));
    PageIsLost(V, cfg);
  }

  ghost predicate ZeroDropHolds(cfg: Config) {
    forall pages, t :: Reaches(cfg, Fresh(pages), t) ==> NothingDropped(t)
  }

  lemma {:induction false} LosslessReaches(cfg: Config, pages: nat, t: State)
    requires Lossless(cfg) && Reaches(cfg, Fresh(pages), t)
    ensures NothingDropped(t)
  {
    var states, actions :| RunBetween(cfg, Fresh(pages), states, actions, t);
    RunOrderly(cfg, pages, states, actions, |actions|);
    SafeDropsNothing(t);
  }

  /**
    Over all numbers of pages and all interleavings, no page is ever left without an entry exactly
    when workers do not crash or the requeue limit makes every first attempt final.
  */
  lemma {:induction false} ZeroDropExactly(cfg: Config)
    ensures ZeroDropHolds(cfg) <==> !cfg.canCrash || cfg.maxRequeues <= 1
  {
    if Lossless(cfg) {
      forall pages, t | Reaches(cfg, Fresh(pages), t) ensures NothingDropped(t) {
        LosslessReaches(cfg, pages, t);
      }
    } else {
      LostIsReached(cfg);
      var lost := One(LayoutDone, map[], map[], Unused(cfg));
      assert lost.pages[0] == LayoutDone;
      assert !NothingDropped(lost);
    }
  }
}

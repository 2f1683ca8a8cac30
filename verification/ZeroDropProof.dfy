/**
  No page is dropped, as long as no handler on a final layout attempt rolls back a VLM claim.

  For every page that is not terminal there is a responsible entry.  A successful compare-and-set
  makes the caller's entry responsible, a requeue by the responsible handler passes the duty on to
  the new entry, and a handler that stands down and acknowledges is never the responsible one.
*/
module ZeroDropProof {
  import opened PageStates
  import opened ZeroDrop

  /** What the next command of the responsible handler says about the page. */
  ghost predicate Expects(pc: Pc, st: PageState) {
    match pc
    case Start(reclaim, _) => reclaim || !Running(st)
    case ReclaimRead(_) => true
    case ReclaimCas(from, _) => st == from
    case ReclaimReread(_) => !Running(st)
    case ClaimLayout(_) => st == Pending
    case CallLayout(_) => st == LayoutRunning
    case CommitLayout(_) => st == LayoutRunning
    case FailLayout => st == LayoutRunning
    case ClaimVlm(_) => st == LayoutDone
    case CallVlm(_) => st == VlmRunning
    case CommitDone => st == VlmRunning
    case Degrade => st == VlmRunning
    case ReleaseRead(final) => final ==> st == LayoutRunning
    case ReleaseCas(from, final) => st == from && (final ==> from == LayoutRunning)
    case GiveUp => st == Pending
    case Requeue(_) => !Running(st)
    case Ack => false
    case ReapRead(_) => true
    case ForceRead => true
    case ForceCas(target) => target in Transitions(st)
  }

  /** Entry `e` will see page `p` through, if its handler is left alone. */
  ghost predicate Responsible(s: State, p: nat, e: nat)
    requires p in s.pages
  {
    && e in s.entries && s.entries[e].page == p
    && (!s.entries[e].delivered ==> !Running(s.pages[p]))
    && (e in s.live ==> Expects(s.live[e], s.pages[p]))
  }

  ghost predicate Covered(s: State, p: nat)
    requires p in s.pages
  {
    Terminal(s.pages[p]) || exists e :: Responsible(s, p, e)
  }

  ghost predicate Safe(s: State) {
    WellTyped(s) && forall p :: p in s.pages ==> Covered(s, p)
  }

  lemma {:induction false} SafeDropsNothing(s: State)
    requires Safe(s)
    ensures NothingDropped(s)
  {
    forall p | p in s.pages && !Terminal(s.pages[p]) ensures exists e :: e in s.entries && s.entries[e].page == p {
      assert Covered(s, p);
      var e :| Responsible(s, p, e);
    }
  }

  // ------------------------------------------------------------------ the branch that must not be taken

  /**
    The command that can lose a page: on its final attempt a handler found no layout capacity, and
    hands back a claim that is not its own layout claim but a VLM claim.
  */
  ghost predicate RollsBackVlm(s: State, a: Action) {
    a.Step? && a.e in s.live && a.e in s.entries && s.entries[a.e].page in s.pages &&
    s.live[a.e] == ReleaseCas(VlmRunning, true) && s.pages[s.entries[a.e].page] == VlmRunning
  }

  // ------------------------------------------------------------------ one command

  /** The responsible handler stays responsible, hands over, or has made the page terminal. */
  lemma {:induction false} ResponsibleMoves(cfg: Config, pc: Pc, st: PageState, outcome: Outcome)
    requires !pc.Requeue? && !pc.Ack? && PcOk(pc)
    requires !Terminal(st) && Expects(pc, st)
    ensures var (now, next) := Local(cfg, pc, st, outcome); Terminal(now) || Expects(next, now)
  {
  }

  /** A handler that changes the page becomes responsible or makes the page terminal. */
  lemma {:induction false} ChangerTakesOver(cfg: Config, pc: Pc, st: PageState, outcome: Outcome)
    requires !pc.Requeue? && !pc.Ack? && PcOk(pc)
    requires !(pc == ReleaseCas(VlmRunning, true) && st == VlmRunning)
    requires Local(cfg, pc, st, outcome).0 != st
    ensures var (now, next) := Local(cfg, pc, st, outcome); Terminal(now) || Expects(next, now)
  {
  }

  /** The commands change a page as the transition script does, and only along the table. */
  lemma {:induction false} CommandFollowsTable(cfg: Config, pc: Pc, st: PageState, outcome: Outcome)
    requires !pc.Requeue? && !pc.Ack? && PcOk(pc)
    ensures var now := Local(cfg, pc, st, outcome).0; now == st || now in Transitions(st)
  {
  }

  lemma {:induction false} SwapIsScript(job: Job, page: nat, to: PageState, allowed: set<PageState>)
    requires page in job.pages
    ensures var (now, r) := Cas(job, page, to, allowed);
            var (st, ok) := Swap(job.pages[page], to, allowed);
            now.pages == job.pages[page := st] && r.ok == ok
  {
  }

  lemma {:induction false} TerminalUnchanged(cfg: Config, pc: Pc, st: PageState, outcome: Outcome)
    requires !pc.Requeue? && !pc.Ack? && PcOk(pc)
    requires Terminal(st)
    ensures Local(cfg, pc, st, outcome).0 == st
  {
  }

  lemma {:induction false} LocalOk(cfg: Config, pc: Pc, st: PageState, outcome: Outcome)
    requires !pc.Requeue? && !pc.Ack? && PcOk(pc)
    ensures PcOk(Local(cfg, pc, st, outcome).1)
  {
  }

  lemma {:induction false} StepWellTyped(cfg: Config, s: State, a: Action)
    requires WellTyped(s) && Enabled(cfg, s, a)
    ensures WellTyped(Apply(cfg, s, a))
    ensures Apply(cfg, s, a).pages.Keys == s.pages.Keys
  {
    if a.Step? && !s.live[a.e].Requeue? && !s.live[a.e].Ack? {
      LocalOk(cfg, s.live[a.e], s.pages[s.entries[a.e].page], a.outcome);
    }
  }

  // ------------------------------------------------------------------ every step keeps coverage

  /** A command of the handler of `e` on its page. */
  lemma {:induction false} CommandKeepsCover(cfg: Config, s: State, e: nat, outcome: Outcome, p: nat)
    requires Safe(s) && e in s.live && !s.live[e].Ack? && !s.live[e].Requeue?
    requires !RollsBackVlm(s, Step(e, outcome))
    requires p in s.pages
    ensures p in Apply(cfg, s, Step(e, outcome)).pages && Covered(Apply(cfg, s, Step(e, outcome)), p)
  {
    var now := Apply(cfg, s, Step(e, outcome));
    var q, pc := s.entries[e].page, s.live[e];
    assert Covered(s, p);
    if p != q {
      if !Terminal(s.pages[p]) {
        var r :| Responsible(s, p, r);
        assert Responsible(now, p, r);
      }
    } else if Terminal(s.pages[p]) {
      TerminalUnchanged(cfg, pc, s.pages[p], outcome);
    } else if now.pages[p] != s.pages[p] {
      ChangerTakesOver(cfg, pc, s.pages[p], outcome);
      if !Terminal(now.pages[p]) {
        assert Responsible(now, p, e);
      }
    } else {
      var r :| Responsible(s, p, r);
      if r == e {
        ResponsibleMoves(cfg, pc, s.pages[p], outcome);
      }
      assert Responsible(now, p, r);
    }
  }

  /** The responsible entry stays responsible, unless it is replaced. */
  lemma {:induction false} ResponsibleSettles(cfg: Config, s: State, a: Action, p: nat, r: nat)
    requires WellTyped(s) && Enabled(cfg, s, a)
    requires a.Step? ==> s.live[a.e].Ack? || s.live[a.e].Requeue?
    requires p in s.pages && !Terminal(s.pages[p]) && Responsible(s, p, r)
    ensures Responsible(Apply(cfg, s, a), p, if a.Step? && a.e == r then s.next else r)
  {
  }

  /** A requeue, an acknowledgement, a delivery, a recovery, a claim or a crash. */
  lemma {:induction false} SettlementKeepsCover(cfg: Config, s: State, a: Action, p: nat)
    requires Safe(s) && Enabled(cfg, s, a)
    requires a.Step? ==> s.live[a.e].Ack? || s.live[a.e].Requeue?
    requires p in s.pages
    ensures Apply(cfg, s, a).pages == s.pages && Covered(Apply(cfg, s, a), p)
  {
    var now := Apply(cfg, s, a);
    assert Covered(s, p);
    if !Terminal(s.pages[p]) {
      var r :| Responsible(s, p, r);
      ResponsibleSettles(cfg, s, a, p, r);
    }
  }

  lemma {:induction false} StepKeepsSafe(cfg: Config, s: State, a: Action)
    requires Safe(s) && Enabled(cfg, s, a) && !RollsBackVlm(s, a)
    ensures Safe(Apply(cfg, s, a))
  {
    StepWellTyped(cfg, s, a);
    var now := Apply(cfg, s, a);
    forall p | p in now.pages ensures Covered(now, p) {
      if a.Step? && !s.live[a.e].Ack? && !s.live[a.e].Requeue? {
        CommandKeepsCover(cfg, s, a.e, a.outcome, p);
      } else {
        SettlementKeepsCover(cfg, s, a, p);
      }
    }
  }

  lemma {:induction false} FreshIsSafe(pages: nat)
    ensures Safe(Fresh(pages))
  {
    var s := Fresh(pages);
    forall p | p in s.pages ensures Covered(s, p) {
      assert Responsible(s, p, p);
    }
  }

  // ------------------------------------------------------------------ runs

  /** The states a sequence of actions passes through. */
  ghost predicate IsRun(cfg: Config, states: seq<State>, actions: seq<Action>) {
    && |states| == |actions| + 1
    && forall i :: 0 <= i < |actions| ==> RunStep(cfg, states, actions, i)
  }

  ghost predicate RunStep(cfg: Config, states: seq<State>, actions: seq<Action>, i: nat)
    requires |states| == |actions| + 1 && i < |actions|
  {
    && WellTyped(states[i]) && Enabled(cfg, states[i], actions[i])
    && states[i + 1] == Apply(cfg, states[i], actions[i])
  }

  /** What holds at the start and is kept by each step holds throughout. */
  lemma {:induction false} Invariant(holds: State -> bool, states: seq<State>, n: nat)
    requires n < |states| && holds(states[0])
    requires forall i: nat :: i < |states| - 1 && holds(states[i]) ==> holds(states[i + 1])
    ensures holds(states[n])
  {
    if n > 0 {
      Invariant(holds, states, n - 1);
      var i := n - 1;
      assert holds(states[i]);
    }
  }

  lemma {:induction false} GuardedRunIsSafe(cfg: Config, pages: nat, states: seq<State>, actions: seq<Action>, n: nat)
    requires IsRun(cfg, states, actions) && states[0] == Fresh(pages) && n < |states|
    requires forall i :: 0 <= i < |actions| ==> !RollsBackVlm(states[i], actions[i])
    ensures Safe(states[n])
  {
    var safe := (s: State) => Safe(s);
    FreshIsSafe(pages);
    forall i: nat | i < |states| - 1 && safe(states[i]) ensures safe(states[i + 1]) {
      NextIsSafe(cfg, states, actions, i);
    }
    Invariant(safe, states, n);
  }

  lemma {:induction false} NextIsSafe(cfg: Config, states: seq<State>, actions: seq<Action>, i: nat)
    requires IsRun(cfg, states, actions) && i < |actions|
    requires Safe(states[i]) && !RollsBackVlm(states[i], actions[i])
    ensures Safe(states[i + 1])
  {
    assert RunStep(cfg, states, actions, i);
    StepKeepsSafe(cfg, states[i], actions[i]);
  }

  /**
    Zero drop, with crashes, recovery and reaping: in every state of every run that never takes the
    branch above, each page that is not terminal has a queue entry.
  */
  lemma {:induction false} ZeroDropOnGuardedRuns(
    cfg: Config, pages: nat, states: seq<State>, actions: seq<Action>, n: nat)
    requires IsRun(cfg, states, actions) && states[0] == Fresh(pages) && n < |states|
    requires forall i :: 0 <= i < |actions| ==> !RollsBackVlm(states[i], actions[i])
    ensures NothingDropped(states[n])
  {
    GuardedRunIsSafe(cfg, pages, states, actions, n);
    SafeDropsNothing(states[n]);
  }
}

/**
  Who may take a page back.  On every run a handler rolls a running page back to its checkpoint, or gives
  its entry back at the cost of an attempt, only for a reason of its own: its entry was recovered or reaped,
  or its own call found no capacity.  A handler that is delivered a page which another one is working on
  leaves it alone.  The one other way back is the table's: a late layout result takes a VLM claim back.
*/
module ZeroDropRollbacks {
  import opened Options
  import opened PageStates
  import opened ZeroDrop
  import opened ZeroDropProof

  datatype Cause = Recovered | Reaped | Saturated | LayoutCame

  /** What an action means for its entry. */
  function CauseOf(s: State, a: Action): Option<Cause> {
    match a
    case Recover(_, _) => Some(Recovered)
    case Reap(_, _) => Some(Reaped)
    case Step(e, outcome) =>
      if e !in s.live then None
      else if (s.live[e].CallLayout? || s.live[e].CallVlm?) && outcome == Saturates then Some(Saturated)
      else if s.live[e].CallLayout? && outcome == Succeeds then Some(LayoutCame)
      else None
    case _ => None
  }

  function Causes(s: State, a: Action, e: nat): set<Cause> {
    if CauseOf(s, a).Some? && a.e == e then {CauseOf(s, a).value} else {}
  }

  /** Why a handler may be at a command. */
  predicate PcHasCause(pc: Pc, known: set<Cause>) {
    match pc
    case Start(reclaim, _) => reclaim ==> Recovered in known
    case ReclaimRead(_) => Recovered in known
    case ReclaimCas(_, _) => Recovered in known
    case ReclaimReread(_) => Recovered in known
    case CommitLayout(_) => LayoutCame in known
    case ReapRead(_) => Reaped in known
    case ForceRead => Reaped in known
    case ForceCas(_) => Reaped in known
    case ReleaseRead(_) => Saturated in known || Reaped in known
    case ReleaseCas(_, _) => Saturated in known || Reaped in known
    case Requeue(charged) => charged ==> Saturated in known || Reaped in known
    case GiveUp => Saturated in known || Reaped in known
    case _ => true
  }

  lemma {:induction false} CommandHasCause(cfg: Config, s: State, e: nat, outcome: Outcome, known: set<Cause>)
    requires WellTyped(s) && e in s.live && !s.live[e].Requeue? && !s.live[e].Ack? && PcHasCause(s.live[e], known)
    ensures var next := Local(cfg, s.live[e], s.pages[s.entries[e].page], outcome).1;
            PcHasCause(next, known + Causes(s, Step(e, outcome), e))
  {
  }

  lemma {:induction false} StepHasCause(cfg: Config, s: State, a: Action, e: nat, known: set<Cause>)
    requires WellTyped(s) && Enabled(cfg, s, a) && e in Apply(cfg, s, a).live
    requires e in s.live ==> PcHasCause(s.live[e], known)
    ensures PcHasCause(Apply(cfg, s, a).live[e], known + Causes(s, a, e))
  {
    if a.Step? && a.e == e && !s.live[e].Requeue? && !s.live[e].Ack? {
      CommandHasCause(cfg, s, e, a.outcome, known);
    }
  }

  // ------------------------------------------------------------------ runs

  /** One of the first `n` actions gives entry `e` a cause. */
  ghost predicate Given(states: seq<State>, actions: seq<Action>, n: nat, e: nat, cause: Cause)
    requires n <= |actions| < |states|
  {
    exists i: nat :: i < n && cause in Causes(states[i], actions[i], e)
  }

  ghost function Known(states: seq<State>, actions: seq<Action>, n: nat, e: nat): set<Cause>
    requires n <= |actions| < |states|
  {
    set cause: Cause | Given(states, actions, n, e, cause)
  }

  lemma {:induction false} KnownNext(states: seq<State>, actions: seq<Action>, n: nat, e: nat)
    requires n < |actions| < |states|
    ensures Known(states, actions, n, e) + Causes(states[n], actions[n], e) == Known(states, actions, n + 1, e)
  {
    forall cause ensures Given(states, actions, n + 1, e, cause) <==>
                         Given(states, actions, n, e, cause) || cause in Causes(states[n], actions[n], e)
    {
      if i: nat :| i < n + 1 && cause in Causes(states[i], actions[i], e) {
        assert i == n || Given(states, actions, n, e, cause);
      }
    }
  }

  ghost predicate CausedAt(states: seq<State>, actions: seq<Action>, n: nat, e: nat)
    requires n <= |actions| < |states|
  {
    e in states[n].live ==> PcHasCause(states[n].live[e], Known(states, actions, n, e))
  }

  lemma {:induction false} NextCaused(cfg: Config, states: seq<State>, actions: seq<Action>, n: nat, e: nat)
    requires IsRun(cfg, states, actions) && n < |actions| && CausedAt(states, actions, n, e)
    ensures CausedAt(states, actions, n + 1, e)
  {
    assert RunStep(cfg, states, actions, n);
    if e in states[n + 1].live {
      StepHasCause(cfg, states[n], actions[n], e, Known(states, actions, n, e));
      KnownNext(states, actions, n, e);
    }
  }

  lemma {:induction false} CausedAlongRun(
    cfg: Config, pages: nat, states: seq<State>, actions: seq<Action>, n: nat, e: nat)
    requires IsRun(cfg, states, actions) && states[0] == Fresh(pages) && n <= |actions|
    ensures CausedAt(states, actions, n, e)
    decreases n
  {
    if n > 0 {
      CausedAlongRun(cfg, pages, states, actions, n - 1, e);
      NextCaused(cfg, states, actions, n - 1, e);
    }
  }

  /** Action `n` takes a running page back to where it was claimed from. */
  ghost predicate RollsBack(states: seq<State>, n: nat, p: nat)
    requires n + 1 < |states|
  {
    && p in states[n].pages && p in states[n + 1].pages && Running(states[n].pages[p])
    && states[n + 1].pages[p] == ReclaimTarget(states[n].pages[p])
  }

  lemma {:induction false} RollbackCommand(cfg: Config, pc: Pc, st: PageState, outcome: Outcome)
    requires !pc.Requeue? && !pc.Ack? && PcOk(pc) && Running(st) && Local(cfg, pc, st, outcome).0 == ReclaimTarget(st)
    ensures pc.ReclaimCas? || pc.ReleaseCas? || (pc.CommitLayout? && st == VlmRunning)
  {
  }

  lemma {:induction false} RollbackStep(cfg: Config, s: State, a: Action, p: nat)
    requires WellTyped(s) && Enabled(cfg, s, a) && p in s.pages && Running(s.pages[p])
    requires p in Apply(cfg, s, a).pages && Apply(cfg, s, a).pages[p] == ReclaimTarget(s.pages[p])
    ensures a.Step? && a.e in s.live
    ensures var pc := s.live[a.e]; pc.ReclaimCas? || pc.ReleaseCas? || (pc.CommitLayout? && s.pages[p] == VlmRunning)
  {
    if a.Step? && !s.live[a.e].Requeue? && !s.live[a.e].Ack? && s.entries[a.e].page == p {
      RollbackCommand(cfg, s.live[a.e], s.pages[p], a.outcome);
    }
  }

  /**
    A page is rolled back only by a handler whose entry was recovered or reaped or whose call found no
    capacity, or from a VLM claim by one whose layout call came back.
  */
  lemma {:induction false} RollbackIsEarned(
    cfg: Config, pages: nat, states: seq<State>, actions: seq<Action>, n: nat, p: nat)
    requires IsRun(cfg, states, actions) && states[0] == Fresh(pages) && n < |actions| && RollsBack(states, n, p)
    ensures var e := actions[n].e;
            || Given(states, actions, n, e, Recovered) || Given(states, actions, n, e, Reaped)
            || Given(states, actions, n, e, Saturated)
            || (states[n].pages[p] == VlmRunning && Given(states, actions, n, e, LayoutCame))
  {
    assert RunStep(cfg, states, actions, n);
    RollbackStep(cfg, states[n], actions[n], p);
    CausedAlongRun(cfg, pages, states, actions, n, actions[n].e);
  }
}

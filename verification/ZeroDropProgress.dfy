/**
  Progress without crashes.  Every action uses up part of a budget that the pages start with, so
  runs are finite, a page is delivered at most once more than it has attempts, and a run goes on
  until every page is terminal.
*/
module ZeroDropProgress {
  import opened PageStates
  import opened ZeroDrop
  import opened ZeroDropProof
  import opened ZeroDropLimits
  import opened Options

  /** The number of attempts a page has: the requeue limit, but the first delivery always happens. */
  function Attempts(cfg: Config): (n: nat)
    ensures n >= 1
  {
    if cfg.maxRequeues == 0 then 1 else cfg.maxRequeues
  }

  // ------------------------------------------------------------------ attempts are paced

  ghost predicate EntryPaced(cfg: Config, s: State, e: nat)
    requires e in s.entries
  {
    && s.entries[e].attempt < Attempts(cfg)
    && (s.entries[e].delivered ==> e in s.live)
    && (e in s.live && !IsFinal(s.live[e]) ==> s.entries[e].attempt + 1 < Attempts(cfg))
  }

  ghost predicate Paced(cfg: Config, s: State) {
    forall e :: e in s.entries ==> EntryPaced(cfg, s, e)
  }

  /** A final attempt stays final. */
  lemma {:induction false} FinalStays(cfg: Config, pc: Pc, st: PageState, outcome: Outcome)
    requires !pc.Requeue? && !pc.Ack? && PcOk(pc) && IsFinal(pc)
    ensures IsFinal(Local(cfg, pc, st, outcome).1)
  {
  }

  lemma {:induction false} StepPaced(cfg: Config, s: State, a: Action)
    requires WellTyped(s) && Paced(cfg, s) && Enabled(cfg, s, a) && !cfg.canCrash
    ensures Paced(cfg, Apply(cfg, s, a))
  {
    var now := Apply(cfg, s, a);
    assert EntryPaced(cfg, s, a.e);
    forall f | f in now.entries ensures EntryPaced(cfg, now, f) {
      if f in s.entries {
        assert EntryPaced(cfg, s, f);
      }
      if f == a.e && a.Step? && !s.live[f].Requeue? && IsFinal(s.live[f]) {
        FinalStays(cfg, s.live[f], s.pages[s.entries[f].page], a.outcome);
      }
    }
  }

  // ------------------------------------------------------------------ the budget

  /** The commands a handler has left before its entry is settled, at most. */
  function Commands(pc: Pc): (n: nat)
    ensures n < PER_DELIVERY
  {
    match pc
    case Start(_, _) => 13
    case ReclaimRead(_) => 12
    case ReclaimCas(_, _) => 11
    case ReclaimReread(_) => 10
    case ClaimLayout(_) => 9
    case CallLayout(_) => 8
    case CommitLayout(_) => 7
    case ClaimVlm(_) => 6
    case CallVlm(_) => 5
    case ReapRead(_) => 5
    case ReleaseRead(_) => 4
    case ReleaseCas(_, _) => 3
    case ForceRead => 3
    case Ack => 1
    case _ => 2
  }

  /** The cost of one delivery in actions, the delivery included. */
  const PER_DELIVERY: nat := 14

  /**
    The deliveries still to come from an entry: those its attempts allow, and one for the handoff
    while the page has no layout.  A handler's own delivery is no longer counted.
  */
  function Left(cfg: Config, attempt: nat, pc: Option<Pc>, open: bool): (n: nat) {
    if pc == Some(Ack) || attempt >= Attempts(cfg) then 0
    else if pc == Some(Requeue(false)) then Attempts(cfg) - attempt
    else (if pc.None? then Attempts(cfg) - attempt else Attempts(cfg) - attempt - 1) + (if open then 1 else 0)
  }

  /** The actions still to come from an entry. */
  function Rank(cfg: Config, attempt: nat, pc: Option<Pc>, open: bool): (n: nat) {
    Left(cfg, attempt, pc, open) * PER_DELIVERY + (if pc.None? then 0 else Commands(pc.value))
  }

  function PcOf(s: State, e: nat): Option<Pc> {
    if e in s.live then Some(s.live[e]) else None
  }

  predicate OpenFor(s: State, e: nat)
    requires e in s.entries
  {
    s.entries[e].page in s.pages && Open(s.pages[s.entries[e].page])
  }

  function EntryRank(cfg: Config, s: State, e: nat): nat {
    if e in s.entries then Rank(cfg, s.entries[e].attempt, PcOf(s, e), OpenFor(s, e)) else 0
  }

  function EntryLeft(cfg: Config, s: State, p: nat, e: nat): nat {
    if e in s.entries && s.entries[e].page == p then Left(cfg, s.entries[e].attempt, PcOf(s, e), OpenFor(s, e)) else 0
  }

  // ------------------------------------------------------------------ one action

  /** A command publishes no entry: the deliveries to come do not grow. */
  lemma {:induction false} CommandLeft(cfg: Config, attempt: nat, pc: Pc, st: PageState, outcome: Outcome)
    requires attempt < Attempts(cfg) && !pc.Requeue? && !pc.Ack? && PcOk(pc) && StageFits(cfg, pc, st)
    requires Open(st) ==> Expects(pc, st)
    ensures var (now, next) := Local(cfg, pc, st, outcome);
            Left(cfg, attempt, Some(next), Open(now)) <= Left(cfg, attempt, Some(pc), Open(st))
  {
  }

  /** Every command leads to one with fewer to follow. */
  lemma {:induction false} CommandCount(cfg: Config, pc: Pc, st: PageState, outcome: Outcome)
    requires !pc.Requeue? && !pc.Ack? && PcOk(pc)
    ensures Commands(Local(cfg, pc, st, outcome).1) < Commands(pc)
  {
  }

  /** A command on the page. */
  lemma {:induction false} CommandCost(cfg: Config, attempt: nat, pc: Pc, st: PageState, outcome: Outcome)
    requires attempt < Attempts(cfg) && !pc.Requeue? && !pc.Ack? && PcOk(pc) && StageFits(cfg, pc, st)
    requires Open(st) ==> Expects(pc, st)
    ensures var (now, next) := Local(cfg, pc, st, outcome);
            Open(now) ==> Open(st)
    ensures var (now, next) := Local(cfg, pc, st, outcome);
            && Left(cfg, attempt, Some(next), Open(now)) <= Left(cfg, attempt, Some(pc), Open(st))
            && Rank(cfg, attempt, Some(next), Open(now)) < Rank(cfg, attempt, Some(pc), Open(st))
  {
    OwnStageFits(cfg, pc, st, outcome);
    CommandLeft(cfg, attempt, pc, st, outcome);
    CommandCount(cfg, pc, st, outcome);
  }

  /** The budget of the acting entry pays for the action and for the entry that it may publish. */
  ghost predicate Pays(cfg: Config, s: State, a: Action, now: State) {
    && a.e < s.next <= now.next <= s.next + 1
    && EntryRank(cfg, now, a.e) + EntryRank(cfg, now, s.next) + 1 <= EntryRank(cfg, s, a.e)
    && (forall p ::
          EntryLeft(cfg, now, p, a.e) + EntryLeft(cfg, now, p, s.next) + Delivery(s, a, p) <= EntryLeft(cfg, s, p, a.e))
  }

  /** 1 for a delivery of page `p`. */
  function Delivery(s: State, a: Action, p: nat): nat {
    if a.Deliver? && a.e in s.entries && s.entries[a.e].page == p then 1 else 0
  }

  /** The budgets of the other entries do not grow. */
  ghost predicate OthersKeep(cfg: Config, s: State, a: Action, now: State) {
    forall f: nat :: f < s.next && f != a.e ==> OtherKeeps(cfg, s, now, f)
  }

  ghost predicate OtherKeeps(cfg: Config, s: State, now: State, f: nat) {
    && EntryRank(cfg, now, f) <= EntryRank(cfg, s, f)
    && forall p :: EntryLeft(cfg, now, p, f) <= EntryLeft(cfg, s, p, f)
  }

  lemma {:induction false} CommandPays(cfg: Config, s: State, e: nat, outcome: Outcome)
    requires WellTyped(s) && StagesFit(cfg, s) && Paced(cfg, s) && e in s.live && !s.live[e].Requeue? && !s.live[e].Ack?
    requires Open(s.pages[s.entries[e].page]) ==> Expects(s.live[e], s.pages[s.entries[e].page])
    ensures Pays(cfg, s, Step(e, outcome), Apply(cfg, s, Step(e, outcome)))
    ensures OthersKeep(cfg, s, Step(e, outcome), Apply(cfg, s, Step(e, outcome)))
  {
    var p, pc := s.entries[e].page, s.live[e];
    assert EntryPaced(cfg, s, e) && StageFits(cfg, pc, s.pages[p]);
    CommandCost(cfg, s.entries[e].attempt, pc, s.pages[p], outcome);
  }

  lemma {:induction false} RequeuePays(cfg: Config, s: State, e: nat, outcome: Outcome)
    requires WellTyped(s) && StagesFit(cfg, s) && Paced(cfg, s) && e in s.live && s.live[e].Requeue?
    ensures Pays(cfg, s, Step(e, outcome), Apply(cfg, s, Step(e, outcome)))
    ensures OthersKeep(cfg, s, Step(e, outcome), Apply(cfg, s, Step(e, outcome)))
  {
    assert EntryPaced(cfg, s, e) && StageFits(cfg, s.live[e], s.pages[s.entries[e].page]);
  }

  lemma {:induction false} SettlementPays(cfg: Config, s: State, a: Action)
    requires WellTyped(s) && Paced(cfg, s) && Enabled(cfg, s, a) && !cfg.canCrash
    requires a.Step? ==> s.live[a.e].Ack?
    ensures Pays(cfg, s, a, Apply(cfg, s, a)) && OthersKeep(cfg, s, a, Apply(cfg, s, a))
  {
    assert EntryPaced(cfg, s, a.e);
  }

  lemma {:induction false} ActionPays(cfg: Config, s: State, a: Action)
    requires Orderly(cfg, s) && Paced(cfg, s) && Enabled(cfg, s, a) && !cfg.canCrash
    ensures Pays(cfg, s, a, Apply(cfg, s, a)) && OthersKeep(cfg, s, a, Apply(cfg, s, a))
  {
    if !a.Step? || s.live[a.e].Ack? {
      SettlementPays(cfg, s, a);
    } else if s.live[a.e].Requeue? {
      RequeuePays(cfg, s, a.e, a.outcome);
    } else {
      if Open(s.pages[s.entries[a.e].page]) {
        TheOneIsResponsible(cfg, s, a.e);
      }
      CommandPays(cfg, s, a.e, a.outcome);
    }
  }

  // ------------------------------------------------------------------ all entries

  ghost function Sum(r: nat -> nat, n: nat): nat {
    if n == 0 then 0 else Sum(r, n - 1) + r(n - 1)
  }

  lemma {:induction false} SumNoMore(r: nat -> nat, r': nat -> nat, n: nat)
    requires forall f: nat :: f < n ==> r'(f) <= r(f)
    ensures Sum(r', n) <= Sum(r, n)
  {
    if n > 0 {
      SumNoMore(r, r', n - 1);
    }
  }

  lemma {:induction false} SumPays(r: nat -> nat, r': nat -> nat, n: nat, e: nat, cost: nat)
    requires e < n && r'(e) + cost <= r(e)
    requires forall f: nat :: f < n && f != e ==> r'(f) <= r(f)
    ensures Sum(r', n) + cost <= Sum(r, n)
  {
    if e == n - 1 {
      SumNoMore(r, r', n - 1);
    } else {
      SumPays(r, r', n - 1, e, cost);
    }
  }

  lemma {:induction false} SumConstant(r: nat -> nat, n: nat, c: nat)
    requires forall f: nat :: f < n ==> r(f) == c
    ensures Sum(r, n) == n * c
  {
    if n > 0 {
      SumConstant(r, n - 1, c);
      assert n * c == (n - 1) * c + c;
    }
  }

  lemma {:induction false} SumSingle(r: nat -> nat, n: nat, p: nat)
    requires forall f: nat :: f < n && f != p ==> r(f) == 0
    ensures Sum(r, n) == if p < n then r(p) else 0
  {
    if n > 0 {
      SumSingle(r, n - 1, p);
    }
  }

  /** The actions, and the deliveries of page `p`, that are still to come. */
  ghost function ActionsToCome(cfg: Config, s: State): nat {
    Sum(e => EntryRank(cfg, s, e), s.next)
  }

  ghost function DeliveriesToCome(cfg: Config, s: State, p: nat): nat {
    Sum(e => EntryLeft(cfg, s, p, e), s.next)
  }

  lemma {:induction false} ActionCosts(cfg: Config, s: State, a: Action, now: State)
    requires Pays(cfg, s, a, now) && OthersKeep(cfg, s, a, now) && s.next !in s.entries
    ensures ActionsToCome(cfg, now) + 1 <= ActionsToCome(cfg, s)
  {
    var r := (e: nat) => EntryRank(cfg, s, e);
    var r' := (e: nat) => EntryRank(cfg, now, e);
    forall f: nat | f < s.next && f != a.e ensures r'(f) <= r(f) {
      assert OtherKeeps(cfg, s, now, f);
    }
    SumPays(r, r', s.next, a.e, r'(s.next) + 1);
  }

  lemma {:induction false} DeliveryCosts(cfg: Config, s: State, a: Action, now: State, p: nat)
    requires Pays(cfg, s, a, now) && OthersKeep(cfg, s, a, now) && s.next !in s.entries
    ensures DeliveriesToCome(cfg, now, p) + Delivery(s, a, p) <= DeliveriesToCome(cfg, s, p)
  {
    var r := (e: nat) => EntryLeft(cfg, s, p, e);
    var r' := (e: nat) => EntryLeft(cfg, now, p, e);
    forall f: nat | f < s.next && f != a.e ensures r'(f) <= r(f) {
      assert OtherKeeps(cfg, s, now, f);
    }
    SumPays(r, r', s.next, a.e, r'(s.next) + Delivery(s, a, p));
  }

  // ------------------------------------------------------------------ runs

  lemma {:induction false} FreshBudget(cfg: Config, pages: nat, p: nat)
    ensures Paced(cfg, Fresh(pages))
    ensures ActionsToCome(cfg, Fresh(pages)) == pages * (PER_DELIVERY * (Attempts(cfg) + 1))
    ensures DeliveriesToCome(cfg, Fresh(pages), p) <= Attempts(cfg) + 1
  {
    var s := Fresh(pages);
    SumConstant(e => EntryRank(cfg, s, e), pages, PER_DELIVERY * (Attempts(cfg) + 1));
    SumSingle(e => EntryLeft(cfg, s, p, e), pages, p);
  }

  /** The deliveries of page `p` among the first `n` actions of a run. */
  ghost function Deliveries(states: seq<State>, actions: seq<Action>, p: nat, n: nat): nat
    requires |states| == |actions| + 1 && n <= |actions|
  {
    if n == 0 then 0 else Deliveries(states, actions, p, n - 1) + Delivery(states[n - 1], actions[n - 1], p)
  }

  lemma {:induction false} BudgetAlongRun(
    cfg: Config, pages: nat, states: seq<State>, actions: seq<Action>, p: nat, n: nat)
    requires !cfg.canCrash && IsRun(cfg, states, actions) && states[0] == Fresh(pages) && n < |states|
    ensures Paced(cfg, states[n])
    ensures n + ActionsToCome(cfg, states[n]) <= pages * (PER_DELIVERY * (Attempts(cfg) + 1))
    ensures Deliveries(states, actions, p, n) + DeliveriesToCome(cfg, states[n], p) <= Attempts(cfg) + 1
    decreases n
  {
    if n == 0 {
      FreshBudget(cfg, pages, p);
    } else {
      BudgetAlongRun(cfg, pages, states, actions, p, n - 1);
      RunOrderly(cfg, pages, states, actions, n - 1);
      BudgetStep(cfg, states, actions, p, n - 1);
    }
  }

  lemma {:induction false} BudgetStep(cfg: Config, states: seq<State>, actions: seq<Action>, p: nat, i: nat)
    requires !cfg.canCrash && IsRun(cfg, states, actions) && i < |actions|
    requires Orderly(cfg, states[i]) && Paced(cfg, states[i])
    ensures Paced(cfg, states[i + 1])
    ensures ActionsToCome(cfg, states[i + 1]) + 1 <= ActionsToCome(cfg, states[i])
    ensures DeliveriesToCome(cfg, states[i + 1], p) + Delivery(states[i], actions[i], p) <=
            DeliveriesToCome(cfg, states[i], p)
  {
    assert RunStep(cfg, states, actions, i);
    var s, a, now := states[i], actions[i], states[i + 1];
    ActionPays(cfg, s, a);
    StepPaced(cfg, s, a);
    assert s.next !in s.entries;
    ActionCosts(cfg, s, a, now);
    DeliveryCosts(cfg, s, a, now, p);
  }

  /** Without crashes every run ends: 14 actions for each of the deliveries a page can have. */
  lemma {:induction false} RunsAreFinite(cfg: Config, pages: nat, states: seq<State>, actions: seq<Action>)
    requires !cfg.canCrash && IsRun(cfg, states, actions) && states[0] == Fresh(pages)
    ensures |actions| <= pages * (PER_DELIVERY * (Attempts(cfg) + 1))
  {
    BudgetAlongRun(cfg, pages, states, actions, 0, |actions|);
  }

  /** Without crashes no page is delivered more often than its attempts and the one handoff allow. */
  lemma {:induction false} DeliveriesAreBounded(
    cfg: Config, pages: nat, states: seq<State>, actions: seq<Action>, p: nat)
    requires !cfg.canCrash && IsRun(cfg, states, actions) && states[0] == Fresh(pages)
    ensures Deliveries(states, actions, p, |actions|) <= Attempts(cfg) + 1
  {
    BudgetAlongRun(cfg, pages, states, actions, p, |actions|);
  }

  /** Without crashes a run goes on until every page is terminal. */
  lemma {:induction false} UnfinishedGoesOn(cfg: Config, pages: nat, states: seq<State>, actions: seq<Action>, p: nat)
    requires !cfg.canCrash && IsRun(cfg, states, actions) && states[0] == Fresh(pages)
    requires p in states[|actions|].pages && !Terminal(states[|actions|].pages[p])
    ensures exists a :: Enabled(cfg, states[|actions|], a)
  {
    var s := states[|actions|];
    RunOrderly(cfg, pages, states, actions, |actions|);
    SafeDropsNothing(s);
    var e :| e in s.entries && s.entries[e].page == p;
    assert Enabled(cfg, s, Deliver(e, true)) || Enabled(cfg, s, Recover(e, true)) || Enabled(cfg, s, Step(e, Succeeds));
  }
}

/**
  When zero drop holds on all runs.  It does for a configuration in which no worker crashes, and for
  one whose first attempt is already final; in every other configuration a run of one page loses
  that page.
*/
module ZeroDropLimits {
  import opened PageStates
  import opened ZeroDrop
  import opened ZeroDropProof

  // ------------------------------------------------------------------ configurations without loss

  /** Commands of a handler that is working on the layout of its page, on a final attempt or not. */
  predicate LayoutStage(pc: Pc) {
    pc.CallLayout? || pc.CommitLayout? || pc.FailLayout? || pc.GiveUp? ||
    (pc.ReleaseRead? && pc.final) || (pc.ReleaseCas? && pc.final)
  }

  predicate IsFinal(pc: Pc) {
    match pc
    case Start(_, final) => final
    case ReclaimRead(final) => final
    case ReclaimCas(_, final) => final
    case ReclaimReread(final) => final
    case ClaimLayout(final) => final
    case CallLayout(final) => final
    case CommitLayout(final) => final
    case ClaimVlm(final) => final
    case CallVlm(final) => final
    case ReleaseRead(final) => final
    case ReleaseCas(_, final) => final
    case Requeue(charged) => !charged
    case ReapRead(exhausted) => exhausted
    case _ => true
  }

  /** The page has neither a layout result nor an end. */
  predicate Open(st: PageState) {
    st == Pending || st == LayoutRunning
  }

  predicate Retiring(s: State, e: nat) {
    e in s.live && s.live[e].Ack?
  }

  /** On an open page, all entries but one are about to be acknowledged; with crashes there is only one. */
  ghost predicate Lone(cfg: Config, s: State)
    requires WellTyped(s)
  {
    forall e, f :: e in s.entries && f in s.entries && e != f && s.entries[e].page == s.entries[f].page &&
                   Open(s.pages[s.entries[e].page]) ==>
                     !cfg.canCrash && (Retiring(s, e) || Retiring(s, f))
  }

  ghost predicate StagesFit(cfg: Config, s: State)
    requires WellTyped(s)
  {
    forall e :: e in s.live ==> StageFits(cfg, s.live[e], s.pages[s.entries[e].page])
  }

  ghost predicate StageFits(cfg: Config, pc: Pc, st: PageState) {
    && (LayoutStage(pc) ==> Open(st))
    && (pc == Requeue(false) ==> !Open(st))
    && (cfg.maxRequeues <= 1 ==> IsFinal(pc))
  }

  ghost predicate Orderly(cfg: Config, s: State) {
    Safe(s) && Lone(cfg, s) && StagesFit(cfg, s)
  }

  predicate Lossless(cfg: Config) {
    !cfg.canCrash || cfg.maxRequeues <= 1
  }

  /** On an open page, a handler that is not about to acknowledge is the responsible one. */
  lemma {:induction false} TheOneIsResponsible(cfg: Config, s: State, e: nat)
    requires Orderly(cfg, s) && e in s.entries && Open(s.pages[s.entries[e].page]) && !Retiring(s, e)
    ensures Responsible(s, s.entries[e].page, e)
  {
    var p := s.entries[e].page;
    assert Covered(s, p);
    var r :| Responsible(s, p, r);
    assert !Retiring(s, r);
  }

  lemma {:induction false} NoRollback(cfg: Config, s: State, a: Action)
    requires Orderly(cfg, s) && Enabled(cfg, s, a)
    ensures !RollsBackVlm(s, a)
  {
  }

  /** A command on a page: what it makes of the handler's own stage. */
  lemma {:induction false} OwnStageFits(cfg: Config, pc: Pc, st: PageState, outcome: Outcome)
    requires !pc.Requeue? && !pc.Ack? && PcOk(pc) && StageFits(cfg, pc, st)
    requires Open(st) ==> Expects(pc, st)
    ensures var (now, next) := Local(cfg, pc, st, outcome);
            StageFits(cfg, next, now) && (Open(now) ==> Open(st))
  {
  }

  /** The handler's command keeps every handler in a stage that fits its page. */
  lemma {:induction false} CommandStages(cfg: Config, s: State, e: nat, outcome: Outcome, f: nat)
    requires WellTyped(s) && Lone(cfg, s) && StagesFit(cfg, s)
    requires e in s.live && !s.live[e].Ack? && !s.live[e].Requeue? && f in s.live
    requires Open(s.pages[s.entries[e].page]) ==> Expects(s.live[e], s.pages[s.entries[e].page])
    ensures var now := Apply(cfg, s, Step(e, outcome));
            StageFits(cfg, now.live[f], now.pages[s.entries[f].page])
  {
    var p := s.entries[e].page;
    assert StageFits(cfg, s.live[e], s.pages[p]) && StageFits(cfg, s.live[f], s.pages[s.entries[f].page]);
    OwnStageFits(cfg, s.live[e], s.pages[p], outcome);
    if f != e && s.entries[f].page == p && Open(s.pages[p]) {
      assert Retiring(s, f);
    }
  }

  lemma {:induction false} CommandLone(cfg: Config, s: State, e: nat, outcome: Outcome)
    requires WellTyped(s) && Lone(cfg, s) && StagesFit(cfg, s)
    requires e in s.live && !s.live[e].Ack? && !s.live[e].Requeue?
    requires Open(s.pages[s.entries[e].page]) ==> Expects(s.live[e], s.pages[s.entries[e].page])
    requires WellTyped(Apply(cfg, s, Step(e, outcome)))
    ensures Lone(cfg, Apply(cfg, s, Step(e, outcome)))
  {
    var now, p := Apply(cfg, s, Step(e, outcome)), s.entries[e].page;
    assert StageFits(cfg, s.live[e], s.pages[p]);
    OwnStageFits(cfg, s.live[e], s.pages[p], outcome);
    assert forall q :: q in s.pages && Open(now.pages[q]) ==> Open(s.pages[q]);
    assert forall f :: Retiring(s, f) ==> Retiring(now, f);
  }

  lemma {:induction false} CommandFits(cfg: Config, s: State, e: nat, outcome: Outcome)
    requires WellTyped(s) && Lone(cfg, s) && StagesFit(cfg, s)
    requires e in s.live && !s.live[e].Ack? && !s.live[e].Requeue?
    requires Open(s.pages[s.entries[e].page]) ==> Expects(s.live[e], s.pages[s.entries[e].page])
    requires WellTyped(Apply(cfg, s, Step(e, outcome)))
    ensures StagesFit(cfg, Apply(cfg, s, Step(e, outcome)))
  {
    var now := Apply(cfg, s, Step(e, outcome));
    forall f | f in now.live ensures StageFits(cfg, now.live[f], now.pages[now.entries[f].page]) {
      CommandStages(cfg, s, e, outcome, f);
    }
  }

  lemma {:induction false} CommandOrderly(cfg: Config, s: State, e: nat, outcome: Outcome)
    requires Orderly(cfg, s) && Lossless(cfg) && e in s.live && !s.live[e].Ack? && !s.live[e].Requeue?
    ensures Orderly(cfg, Apply(cfg, s, Step(e, outcome)))
  {
    NoRollback(cfg, s, Step(e, outcome));
    StepKeepsSafe(cfg, s, Step(e, outcome));
    if Open(s.pages[s.entries[e].page]) {
      TheOneIsResponsible(cfg, s, e);
    }
    CommandFits(cfg, s, e, outcome);
    CommandLone(cfg, s, e, outcome);
  }

  /** The other actions leave the pages as they are. */
  lemma {:induction false} SettlementStages(cfg: Config, s: State, a: Action)
    requires WellTyped(s) && StagesFit(cfg, s) && Enabled(cfg, s, a)
    requires a.Step? ==> s.live[a.e].Ack? || s.live[a.e].Requeue?
    ensures WellTyped(Apply(cfg, s, a)) && StagesFit(cfg, Apply(cfg, s, a))
  {
    StepWellTyped(cfg, s, a);
    var now := Apply(cfg, s, a);
    forall f | f in now.live ensures StageFits(cfg, now.live[f], now.pages[now.entries[f].page]) {
      if f in s.live {
        assert StageFits(cfg, s.live[f], s.pages[s.entries[f].page]);
      }
    }
  }

  /** Beside the replacement of an entry on an open page all entries are about to be acknowledged. */
  lemma {:induction false} ReplacedRetires(cfg: Config, s: State, e: nat, f: nat)
    requires WellTyped(s) && Lone(cfg, s) && StagesFit(cfg, s) && Lossless(cfg)
    requires e in s.live && s.live[e].Requeue? && f in s.entries
    requires s.entries[e].page == s.entries[f].page && Open(s.pages[s.entries[e].page])
    ensures !cfg.canCrash && (f == e || Retiring(s, f))
  {
    assert StageFits(cfg, s.live[e], s.pages[s.entries[e].page]);
  }

  lemma {:induction false} RequeuePair(cfg: Config, s: State, e: nat, outcome: Outcome, f: nat, g: nat)
    requires WellTyped(s) && Lone(cfg, s) && StagesFit(cfg, s) && Lossless(cfg)
    requires e in s.live && s.live[e].Requeue?
    requires var now := Apply(cfg, s, Step(e, outcome));
             f in now.entries && g in now.entries && f != g && now.entries[f].page == now.entries[g].page &&
             Open(s.pages[now.entries[f].page])
    ensures var now := Apply(cfg, s, Step(e, outcome));
            !cfg.canCrash && (Retiring(now, f) || Retiring(now, g))
  {
    if f == s.next {
      ReplacedRetires(cfg, s, e, g);
    } else if g == s.next {
      ReplacedRetires(cfg, s, e, f);
    }
  }

  lemma {:induction false} RequeueLone(cfg: Config, s: State, e: nat, outcome: Outcome)
    requires WellTyped(s) && Lone(cfg, s) && StagesFit(cfg, s) && Lossless(cfg)
    requires e in s.live && s.live[e].Requeue?
    requires WellTyped(Apply(cfg, s, Step(e, outcome)))
    ensures Lone(cfg, Apply(cfg, s, Step(e, outcome)))
  {
    var now := Apply(cfg, s, Step(e, outcome));
    forall f, g | f in now.entries && g in now.entries && f != g && now.entries[f].page == now.entries[g].page &&
                  Open(now.pages[now.entries[f].page])
      ensures !cfg.canCrash && (Retiring(now, f) || Retiring(now, g))
    {
      RequeuePair(cfg, s, e, outcome, f, g);
    }
  }

  lemma {:induction false} SettlementLone(cfg: Config, s: State, a: Action)
    requires WellTyped(s) && Lone(cfg, s) && Enabled(cfg, s, a)
    requires a.Step? ==> s.live[a.e].Ack?
    requires WellTyped(Apply(cfg, s, a))
    ensures Lone(cfg, Apply(cfg, s, a))
  {
    var now := Apply(cfg, s, a);
    assert now.pages == s.pages;
    assert forall f :: f in now.entries ==> f in s.entries && s.entries[f].page == now.entries[f].page;
    assert !cfg.canCrash ==> forall f :: f in now.entries && Retiring(s, f) ==> Retiring(now, f);
  }

  lemma {:induction false} SettlementOrderly(cfg: Config, s: State, a: Action)
    requires Orderly(cfg, s) && Enabled(cfg, s, a)
    requires a.Step? ==> s.live[a.e].Ack?
    ensures Orderly(cfg, Apply(cfg, s, a))
  {
    NoRollback(cfg, s, a);
    StepKeepsSafe(cfg, s, a);
    SettlementStages(cfg, s, a);
    SettlementLone(cfg, s, a);
  }

  lemma {:induction false} RequeueOrderly(cfg: Config, s: State, e: nat, outcome: Outcome)
    requires Orderly(cfg, s) && Lossless(cfg) && e in s.live && s.live[e].Requeue?
    ensures Orderly(cfg, Apply(cfg, s, Step(e, outcome)))
  {
    NoRollback(cfg, s, Step(e, outcome));
    StepKeepsSafe(cfg, s, Step(e, outcome));
    SettlementStages(cfg, s, Step(e, outcome));
    RequeueLone(cfg, s, e, outcome);
  }

  lemma {:induction false} StepOrderly(cfg: Config, s: State, a: Action)
    requires Orderly(cfg, s) && Lossless(cfg) && Enabled(cfg, s, a)
    ensures Orderly(cfg, Apply(cfg, s, a))
  {
    if !a.Step? || s.live[a.e].Ack? {
      SettlementOrderly(cfg, s, a);
    } else if s.live[a.e].Requeue? {
      RequeueOrderly(cfg, s, a.e, a.outcome);
    } else {
      CommandOrderly(cfg, s, a.e, a.outcome);
    }
  }

  lemma {:induction false} FreshIsOrderly(cfg: Config, pages: nat)
    ensures Orderly(cfg, Fresh(pages))
  {
    FreshIsSafe(pages);
  }

  lemma {:induction false} RunOrderly(cfg: Config, pages: nat, states: seq<State>, actions: seq<Action>, n: nat)
    requires Lossless(cfg) && IsRun(cfg, states, actions) && states[0] == Fresh(pages) && n < |states|
    ensures Orderly(cfg, states[n])
  {
    var orderly := (s: State) => Orderly(cfg, s);
    FreshIsOrderly(cfg, pages);
    forall i: nat | i < |states| - 1 && orderly(states[i]) ensures orderly(states[i + 1]) {
      NextOrderly(cfg, states, actions, i);
    }
    Invariant(orderly, states, n);
  }

  lemma {:induction false} NextOrderly(cfg: Config, states: seq<State>, actions: seq<Action>, i: nat)
    requires Lossless(cfg) && IsRun(cfg, states, actions) && i < |actions| && Orderly(cfg, states[i])
    ensures Orderly(cfg, states[i + 1])
  {
    assert RunStep(cfg, states, actions, i);
    StepOrderly(cfg, states[i], actions[i]);
  }
}

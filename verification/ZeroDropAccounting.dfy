/**
  The accounting of page states, on runs of the protocol: the compare-and-sets that the handlers
  send, one after the other, are script runs, so everything proved of those holds of protocol runs.
*/
module ZeroDropAccounting {
  import opened Options
  import opened PageStates
  import opened ZeroDrop
  import opened ZeroDropProof

  /** The transition that a command asks the store for, if it does. */
  function Requested(pc: Pc): Option<(PageState, set<PageState>)>
    requires PcOk(pc)
  {
    match pc
    case ReclaimCas(from, _) => Some((ReclaimTarget(from), {from}))
    case ReleaseCas(from, _) => Some((ReclaimTarget(from), {from}))
    case ClaimLayout(_) => Some((LayoutRunning, Predecessors(LayoutRunning)))
    case CommitLayout(_) => Some((LayoutDone, Predecessors(LayoutDone)))
    case ClaimVlm(_) => Some((VlmRunning, Predecessors(VlmRunning)))
    case CommitDone => Some((Done, Predecessors(Done)))
    case Degrade => Some((FallbackDone, Predecessors(FallbackDone)))
    case FailLayout => Some((Failed, Predecessors(Failed)))
    case GiveUp => Some((Failed, Predecessors(Failed)))
    case ForceCas(target) => Some((target, Predecessors(target)))
    case _ => None
  }

  /** A command changes its page by that transition and by nothing else. */
  lemma {:induction false} CommandIsRequest(cfg: Config, pc: Pc, st: PageState, outcome: Outcome)
    requires !pc.Requeue? && !pc.Ack? && PcOk(pc)
    ensures Local(cfg, pc, st, outcome).0 ==
            if Requested(pc).None? then st else Swap(st, Requested(pc).value.0, Requested(pc).value.1).0
    ensures Requested(pc).Some? ==> Requested(pc).value.1 <= Predecessors(Requested(pc).value.0)
  {
  }

  /** The script run of an action; one that nothing can satisfy for an action without any. */
  function CallOf(s: State, a: Action): Call {
    if a.Step? && a.e in s.live && a.e in s.entries && PcOk(s.live[a.e]) && Requested(s.live[a.e]).Some? then
      var (to, allowed) := Requested(s.live[a.e]).value;
      Call(s.entries[a.e].page, to, allowed)
    else Call(0, Pending, {})
  }

  /** The page states after an action are those after its script run. */
  lemma {:induction false} ActionIsCall(cfg: Config, s: State, a: Action, job: Job)
    requires WellTyped(s) && Enabled(cfg, s, a) && job.pages == s.pages
    ensures CallOf(s, a).Legal()
    ensures var c := CallOf(s, a); Cas(job, c.page, c.to, c.allowed).0.pages == Apply(cfg, s, a).pages
  {
    if a.Step? && !s.live[a.e].Requeue? && !s.live[a.e].Ack? {
      var pc, p := s.live[a.e], s.entries[a.e].page;
      CommandIsRequest(cfg, pc, s.pages[p], a.outcome);
      if Requested(pc).Some? {
        SwapIsScript(job, p, Requested(pc).value.0, Requested(pc).value.1);
      } else {
        assert s.pages[p := s.pages[p]] == s.pages;
      }
    }
  }

  // ------------------------------------------------------------------ whole runs

  /** The script runs of the first `n` actions, one per action, with the jobs between them. */
  ghost predicate Projects(t: Trace, states: seq<State>, actions: seq<Action>, n: nat) {
    && n <= |actions| < |states| && |t.jobs| == n + 1 && |t.calls| == n == |t.results|
    && (forall i :: 0 <= i < n ==> t.calls[i] == CallOf(states[i], actions[i]))
    && (forall i :: 0 <= i <= n ==> t.jobs[i].pages == states[i].pages)
  }

  ghost function Longer(t: Trace, c: Call): Trace
    requires t.jobs != []
  {
    var (job, r) := Cas(t.jobs[|t.jobs| - 1], c.page, c.to, c.allowed);
    Trace(t.jobs + [job], t.calls + [c], t.results + [r])
  }

  lemma {:induction false} LongerIsTrace(t: Trace, c: Call, total: nat)
    requires IsTrace(t, total) && c.Legal()
    ensures IsTrace(Longer(t, c), total)
  {
    var u := Longer(t, c);
    forall i | 0 <= i < |u.calls| ensures StepAt(u, i) {
      if i < |t.calls| {
        assert StepAt(t, i);
      }
    }
  }

  /** They are a trace of the store, and its pages are those of the run at every moment. */
  lemma {:induction false} RunIsTrace(cfg: Config, pages: nat, states: seq<State>, actions: seq<Action>, n: nat)
    returns (t: Trace)
    requires IsRun(cfg, states, actions) && states[0] == Fresh(pages) && n <= |actions|
    ensures IsTrace(t, pages) && Projects(t, states, actions, n)
    decreases n
  {
    if n == 0 {
      t := Trace([InitJob(pages)], [], []);
    } else {
      var before := RunIsTrace(cfg, pages, states, actions, n - 1);
      t := NextOfTrace(cfg, pages, states, actions, n - 1, before);
    }
  }

  lemma {:induction false} NextOfTrace(
    cfg: Config, pages: nat, states: seq<State>, actions: seq<Action>, n: nat, before: Trace) returns (t: Trace)
    requires IsRun(cfg, states, actions) && n < |actions|
    requires IsTrace(before, pages) && Projects(before, states, actions, n)
    ensures IsTrace(t, pages) && Projects(t, states, actions, n + 1)
  {
    assert RunStep(cfg, states, actions, n);
    ActionIsCall(cfg, states[n], actions[n], before.jobs[n]);
    var c := CallOf(states[n], actions[n]);
    t := Longer(before, c);
    LongerIsTrace(before, c, pages);
  }

  // ------------------------------------------------------------------ what follows for protocol runs

  /** The action makes the page terminal; its handler publishes the final event. */
  ghost predicate Finishes(states: seq<State>, i: nat, p: nat)
    requires i + 1 < |states|
  {
    && p in states[i].pages && p in states[i + 1].pages
    && !Terminal(states[i].pages[p]) && Terminal(states[i + 1].pages[p])
  }

  lemma {:induction false} FinishIsFinal(t: Trace, total: nat, states: seq<State>, actions: seq<Action>, i: nat, p: nat)
    requires IsTrace(t, total) && Projects(t, states, actions, |actions|) && i < |actions| && Finishes(states, i, p)
    ensures Finalises(t, i, p)
  {
    assert StepAt(t, i);
    assert t.jobs[i].pages == states[i].pages && t.jobs[i + 1].pages == states[i + 1].pages;
  }

  /** However handlers interleave, crash and are recovered, a page is finished once at most. */
  lemma {:induction false} FinishedOnce(
    cfg: Config, pages: nat, states: seq<State>, actions: seq<Action>, i: nat, j: nat, p: nat)
    requires IsRun(cfg, states, actions) && states[0] == Fresh(pages) && i < |actions| && j < |actions|
    requires Finishes(states, i, p) && Finishes(states, j, p)
    ensures i == j
  {
    var t := RunIsTrace(cfg, pages, states, actions, |actions|);
    FinishIsFinal(t, pages, states, actions, i, p);
    FinishIsFinal(t, pages, states, actions, j, p);
    OneFinalPerPage(t, pages, i, j, p);
  }

  /** At every moment of a protocol run the counter of the store is the number of terminal pages. */
  lemma {:induction false} CounterOnRuns(cfg: Config, pages: nat, states: seq<State>, actions: seq<Action>, n: nat)
    returns (t: Trace)
    requires IsRun(cfg, states, actions) && states[0] == Fresh(pages) && n <= |actions|
    ensures IsTrace(t, pages) && Projects(t, states, actions, |actions|)
    ensures t.jobs[n].done == |TerminalPages(Job(states[n].pages, 0, pages))|
  {
    t := RunIsTrace(cfg, pages, states, actions, |actions|);
    CounterIsExact(t, pages, n);
    assert TerminalPages(t.jobs[n]) == TerminalPages(Job(states[n].pages, 0, pages));
  }

  ghost predicate Finished(s: State) {
    forall p :: p in s.pages ==> Terminal(s.pages[p])
  }

  /** A run that finishes its job has reported completion exactly once. */
  lemma {:induction false} CompletedOnce(cfg: Config, pages: nat, states: seq<State>, actions: seq<Action>)
    returns (t: Trace, i: nat)
    requires IsRun(cfg, states, actions) && states[0] == Fresh(pages) && pages > 0 && Finished(states[|actions|])
    ensures IsTrace(t, pages) && Projects(t, states, actions, |actions|)
    ensures i < |actions| && forall j: nat :: j < |actions| ==> (t.results[j].CompletedJob() <==> i == j)
  {
    t := RunIsTrace(cfg, pages, states, actions, |actions|);
    assert AllTerminal(t.jobs[|actions|]);
    i := CompletedWhenAllTerminal(t, pages, |actions|);
    forall j: nat | j < |actions| && t.results[j].CompletedJob() ensures i == j {
      CompletedAtMostOnce(t, pages, i, j);
    }
  }
}

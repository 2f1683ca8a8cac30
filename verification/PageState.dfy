/**
  The page state machine: the transition table, the compare-and-set script that enforces it, and
  what every run of such scripts keeps, whoever calls them and in whatever order.
*/
module PageStates {
  import opened Options
  import opened Sets

  datatype PageState =
    | Pending
    | LayoutRunning
    | LayoutDone
    | VlmRunning
    | Done
    | FallbackDone
    | Failed

  /** The table: where a page may go from each state. */
  function Transitions(s: PageState): set<PageState> {
    match s
    case Pending => {LayoutRunning, Failed}
    case LayoutRunning => {LayoutDone, Pending, Failed}
    case LayoutDone => {VlmRunning, FallbackDone}
    case VlmRunning => {Done, LayoutDone, FallbackDone, Failed}
    case Done => {}
    case FallbackDone => {}
    case Failed => {}
  }

  /** The inverted table, derived from the table itself. */
  function Predecessors(to: PageState): set<PageState> {
    set s: PageState | to in Transitions(s)
  }

  /** From where each state can be reached; the two claims and the end of each stage have one way in. */
  lemma {:induction false} WaysIn()
    ensures Predecessors(Pending) == {LayoutRunning} && Predecessors(LayoutRunning) == {Pending}
    ensures Predecessors(LayoutDone) == {LayoutRunning, VlmRunning} && Predecessors(VlmRunning) == {LayoutDone}
    ensures Predecessors(Done) == {VlmRunning} && Predecessors(FallbackDone) == {LayoutDone, VlmRunning}
    ensures Predecessors(Failed) == {Pending, LayoutRunning, VlmRunning}
  {
  }

  /** No way out in the table. */
  predicate Terminal(s: PageState)
    ensures Terminal(s) <==> s == Done || s == FallbackDone || s == Failed
  {
    assert LayoutRunning in Transitions(Pending) && Pending in Transitions(LayoutRunning);
    assert VlmRunning in Transitions(LayoutDone) && Done in Transitions(VlmRunning);
    Transitions(s) == {}
  }

  predicate Running(s: PageState) {
    s == LayoutRunning || s == VlmRunning
  }

  /** Where a page goes when its worker vanished: back to the last committed checkpoint. */
  function ReclaimTarget(s: PageState): (t: PageState)
    requires Running(s)
    ensures t in Transitions(s) && !Running(t) && !Terminal(t)
  {
    if s == LayoutRunning then Pending else LayoutDone
  }

  /** The layout result has been committed and not been superseded by a failure. */
  predicate LayoutCommitted(s: PageState) {
    s == LayoutDone || s == VlmRunning || s == Done || s == FallbackDone
  }

  // ------------------------------------------------------------------ the script

  /** The job hash and the page hashes of one job. */
  datatype Job = Job(pages: map<nat, PageState>, done: nat, total: nat)

  /** `observed` is `None` when the page hash is missing; the counters are -1 unless the page became terminal. */
  datatype TransitionResult = TransitionResult(ok: bool, observed: Option<PageState>, doneCount: int, totalPages: int)
  {
    /** This transition made the last page of the job terminal. */
    predicate CompletedJob() {
      ok && totalPages > 0 && doneCount >= totalPages
    }
  }

  /** One run of the transition script. */
  function Cas(job: Job, page: nat, to: PageState, allowed: set<PageState>): (Job, TransitionResult) {
    if page !in job.pages then
      (job, TransitionResult(false, None, -1, -1))
    else if job.pages[page] !in allowed then
      (job, TransitionResult(false, Some(job.pages[page]), -1, -1))
    else if Terminal(to) then
      (Job(job.pages[page := to], job.done + 1, job.total), TransitionResult(true, Some(to), job.done + 1, job.total))
    else
      (job.(pages := job.pages[page := to]), TransitionResult(true, Some(to), -1, -1))
  }

  /** Pages `0` to `total - 1`, none of them started. */
  function Unstarted(total: nat): (m: map<nat, PageState>)
    ensures |m| == total
    ensures forall p :: p in m <==> 0 <= p < total
    ensures forall p :: p in m ==> m[p] == Pending
  {
    if total == 0 then map[] else Unstarted(total - 1)[total - 1 := Pending]
  }

  function InitJob(total: nat): Job {
    Job(Unstarted(total), 0, total)
  }

  /** The store that the workers of all replicas share. */
  class PageStore {
    var pages: map<nat, PageState>
    var done: nat
    var total: nat

    ghost function Value(): Job
      reads this
    {
      Job(pages, done, total)
    }

    /** `init_job`. */
    constructor (totalPages: nat)
      ensures Value() == InitJob(totalPages)
    {
      var created: map<nat, PageState> := map[];
      for index := 0 to totalPages
        invariant created == Unstarted(index)
      {
        created := created[index := Pending];
      }
      pages := created;
      done := 0;
      total := totalPages;
    }

    /** `transition`, with the predecessors of the target or a narrower set as the allowed sources. */
    method Transition(page: nat, to: PageState, allowed: set<PageState>) returns (r: TransitionResult)
      modifies this
      ensures (Value(), r) == Cas(old(Value()), page, to, allowed)
    {
      if page !in pages {
        return TransitionResult(false, None, -1, -1);
      }
      var current := pages[page];
      if current !in allowed {
        return TransitionResult(false, Some(current), -1, -1);
      }
      pages := pages[page := to];
      var count: int, of: int := -1, -1;
      if Terminal(to) {
        done := done + 1;
        count, of := done, total;
      }
      return TransitionResult(true, Some(to), count, of);
    }
  }

  // ------------------------------------------------------------------ runs of scripts

  /** A call of the script; callers name a target and at most narrow the sources the table allows. */
  datatype Call = Call(page: nat, to: PageState, allowed: set<PageState>)
  {
    ghost predicate Legal() {
      allowed <= Predecessors(to)
    }
  }

  /** A job over time: the state before each call, the result of each call, and the final state. */
  datatype Trace = Trace(jobs: seq<Job>, calls: seq<Call>, results: seq<TransitionResult>)

  ghost predicate StepAt(t: Trace, i: nat)
    requires |t.jobs| == |t.calls| + 1 == |t.results| + 1 && i < |t.calls|
  {
    t.calls[i].Legal() &&
    (t.jobs[i + 1], t.results[i]) == Cas(t.jobs[i], t.calls[i].page, t.calls[i].to, t.calls[i].allowed)
  }

  ghost predicate IsTrace(t: Trace, total: nat) {
    && |t.jobs| == |t.calls| + 1 == |t.results| + 1
    && t.jobs[0] == InitJob(total)
    && forall i :: 0 <= i < |t.calls| ==> StepAt(t, i)
  }

  ghost function TerminalPages(job: Job): set<nat> {
    set p | p in job.pages && Terminal(job.pages[p])
  }

  /** The counter counts, and the pages are the ones the job was created with. */
  ghost predicate Accounted(job: Job, total: nat) {
    && job.total == total
    && |job.pages| == total && (forall p :: p in job.pages <==> 0 <= p < total)
    && job.done == |TerminalPages(job)|
  }

  /** A call returns the state in which it leaves the page, and the counters exactly when it made it terminal. */
  lemma {:induction false} ResultIsState(t: Trace, total: nat, i: nat)
    requires IsTrace(t, total) && i < |t.calls|
    ensures var p, r, was, now := t.calls[i].page, t.results[i], t.jobs[i], t.jobs[i + 1];
            && r.observed == (if p in now.pages then Some(now.pages[p]) else None)
            && (r.ok <==> p in was.pages && was.pages[p] in t.calls[i].allowed)
            && (r.ok ==> now.pages == was.pages[p := t.calls[i].to]) && (!r.ok ==> now == was)
            && (if r.ok && Terminal(t.calls[i].to) then r.doneCount == now.done && r.totalPages == total
                else r.doneCount == r.totalPages == -1)
  {
    assert StepAt(t, i);
    CounterIsExact(t, total, i);
  }

  lemma {:induction false} CasAccounts(job: Job, total: nat, call: Call)
    requires Accounted(job, total) && call.Legal()
    ensures Accounted(Cas(job, call.page, call.to, call.allowed).0, total)
  {
    var (now, r) := Cas(job, call.page, call.to, call.allowed);
    if r.ok {
      var was := job.pages[call.page];
      assert now.pages.Keys == job.pages.Keys;
      assert call.to in Transitions(was) && !Terminal(was);
      if Terminal(call.to) {
        assert TerminalPages(now) == TerminalPages(job) + {call.page};
      } else {
        assert TerminalPages(now) == TerminalPages(job);
      }
    }
  }

  /** At every moment the done counter is the number of terminal pages. */
  lemma {:induction false} CounterIsExact(t: Trace, total: nat, i: nat)
    requires IsTrace(t, total) && i < |t.jobs|
    ensures Accounted(t.jobs[i], total)
    decreases i
  {
    if i == 0 {
      assert TerminalPages(t.jobs[0]) == {};
    } else {
      CounterIsExact(t, total, i - 1);
      assert StepAt(t, i - 1);
      CasAccounts(t.jobs[i - 1], total, t.calls[i - 1]);
    }
  }

  /** A terminal state never changes, and a committed layout is never thrown away for a new one. */
  lemma {:induction false} ProgressIsKept(t: Trace, total: nat, i: nat, j: nat, p: nat)
    requires IsTrace(t, total) && i <= j < |t.jobs| && p in t.jobs[i].pages
    ensures p in t.jobs[j].pages
    ensures Terminal(t.jobs[i].pages[p]) ==> t.jobs[j].pages[p] == t.jobs[i].pages[p]
    ensures LayoutCommitted(t.jobs[i].pages[p]) ==> LayoutCommitted(t.jobs[j].pages[p]) || t.jobs[j].pages[p] == Failed
    decreases j
  {
    if i < j {
      ProgressIsKept(t, total, i, j - 1, p);
      assert StepAt(t, j - 1);
      var call := t.calls[j - 1];
      if t.results[j - 1].ok && call.page == p {
        assert call.to in Transitions(t.jobs[j - 1].pages[p]);
      }
    }
  }

  /** The final event of a page is published only by the caller of a successful terminal transition. */
  ghost predicate Finalises(t: Trace, i: nat, p: nat)
    requires i < |t.calls| == |t.results|
  {
    t.results[i].ok && t.calls[i].page == p && Terminal(t.calls[i].to)
  }

  /** So there is at most one final event per page. */
  lemma {:induction false} OneFinalPerPage(t: Trace, total: nat, i: nat, j: nat, p: nat)
    requires IsTrace(t, total) && i < |t.calls| && j < |t.calls|
    requires Finalises(t, i, p) && Finalises(t, j, p)
    ensures i == j
  {
    assert StepAt(t, i) && StepAt(t, j);
    if i < j {
      ProgressIsKept(t, total, i + 1, j, p);
    } else if j < i {
      ProgressIsKept(t, total, j + 1, i, p);
    }
  }

  ghost predicate AllTerminal(job: Job) {
    forall p :: p in job.pages ==> Terminal(job.pages[p])
  }

  lemma {:induction false} FinishedByCount(job: Job)
    ensures AllTerminal(job) <==> |TerminalPages(job)| == |job.pages.Keys|
    ensures |TerminalPages(job)| <= |job.pages.Keys| == |job.pages|
  {
    SubsetSize(TerminalPages(job), job.pages.Keys);
    assert AllTerminal(job) <==> TerminalPages(job) == job.pages.Keys;
  }

  lemma {:induction false} CasCompletes(job: Job, total: nat, call: Call)
    requires Accounted(job, total) && total > 0 && call.Legal()
    ensures var (now, r) := Cas(job, call.page, call.to, call.allowed);
            r.CompletedJob() <==> !AllTerminal(job) && AllTerminal(now)
  {
    var (now, r) := Cas(job, call.page, call.to, call.allowed);
    CasAccounts(job, total, call);
    FinishedByCount(job);
    FinishedByCount(now);
  }

  /** A call reports the job complete exactly when it makes the last open page terminal. */
  lemma {:induction false} CompletionExact(t: Trace, total: nat, i: nat)
    requires IsTrace(t, total) && total > 0 && i < |t.calls|
    ensures t.results[i].CompletedJob() <==> !AllTerminal(t.jobs[i]) && AllTerminal(t.jobs[i + 1])
  {
    CounterIsExact(t, total, i);
    assert StepAt(t, i);
    CasCompletes(t.jobs[i], total, t.calls[i]);
  }

  lemma {:induction false} TerminalStays(t: Trace, total: nat, i: nat, j: nat)
    requires IsTrace(t, total) && i <= j < |t.jobs| && AllTerminal(t.jobs[i])
    ensures AllTerminal(t.jobs[j])
  {
    CounterIsExact(t, total, i);
    CounterIsExact(t, total, j);
    forall p | p in t.jobs[j].pages ensures Terminal(t.jobs[j].pages[p]) {
      ProgressIsKept(t, total, i, j, p);
    }
  }

  /** No two calls report completion. */
  lemma {:induction false} CompletedAtMostOnce(t: Trace, total: nat, i: nat, j: nat)
    requires IsTrace(t, total) && total > 0 && i < |t.calls| && j < |t.calls|
    requires t.results[i].CompletedJob() && t.results[j].CompletedJob()
    ensures i == j
  {
    CompletionExact(t, total, i);
    CompletionExact(t, total, j);
    if i < j {
      TerminalStays(t, total, i + 1, j);
    } else if j < i {
      TerminalStays(t, total, j + 1, i);
    }
  }

  /** And once every page is terminal, one call has reported it. */
  lemma {:induction false} CompletedWhenAllTerminal(t: Trace, total: nat, n: nat) returns (i: nat)
    requires IsTrace(t, total) && total > 0 && n < |t.jobs| && AllTerminal(t.jobs[n])
    ensures i < n && t.results[i].CompletedJob()
    decreases n
  {
    assert InitJob(total).pages[0] == Pending;
    if AllTerminal(t.jobs[n - 1]) {
      i := CompletedWhenAllTerminal(t, total, n - 1);
    } else {
      CompletionExact(t, total, n - 1);
      i := n - 1;
    }
  }
}

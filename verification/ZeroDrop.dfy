/**
  The page protocol as a step system: queue entries, the workers and reapers that hold them, and
  the shared page states.  Every Redis command or script is one step; deliveries, model outcomes,
  crashes, own-pending recovery and reaping interleave freely.

  A handler is known by the queue entry it holds.  A crash removes the handler and leaves its entry
  pending; only entries without a live handler are recovered or reaped, which is what the lease
  renewal of live workers is for.
*/
module ZeroDrop {
  import opened PageStates

  /** What a model call may come back with: a result, an error for good, or no token / an open circuit. */
  datatype Outcome = Succeeds | Fails | Saturates

  /**
    The next Redis command of a handler.  `final` says that the attempt may not be given back to the
    queue for lack of capacity; `from` is a state read earlier, to which a rollback is narrowed.
  */
  datatype Pc =
    // process_page
    | Start(reclaim: bool, final: bool)
    | ReclaimRead(final: bool)
    | ReclaimCas(from: PageState, final: bool)
    | ReclaimReread(final: bool)
    | ClaimLayout(final: bool)
    | CallLayout(final: bool)
    | CommitLayout(final: bool)
    | FailLayout
    | ClaimVlm(final: bool)
    | CallVlm(final: bool)
    | CommitDone
    | Degrade
    | ReleaseRead(final: bool)
    | ReleaseCas(from: PageState, final: bool)
    | GiveUp
    // the worker's settlement of a result
    | Requeue(charged: bool)
    | Ack
    // the reaper
    | ReapRead(exhausted: bool)
    | ForceRead
    | ForceCas(target: PageState)

  datatype Config = Config(handoff: bool, maxRequeues: nat, canCrash: bool)

  /** A rollback starts from a running state, and a page is only forced into a terminal one. */
  predicate PcOk(pc: Pc) {
    (pc.ReclaimCas? || pc.ReleaseCas? ==> Running(pc.from)) && (pc.ForceCas? ==> Terminal(pc.target))
  }

  // ------------------------------------------------------------------ one command of one handler

  /** The page state after a compare-and-set, and whether it was applied. */
  function Swap(st: PageState, to: PageState, allowed: set<PageState>): (PageState, bool) {
    if st in allowed then (to, true) else (st, false)
  }

  /** After a saturated call has handed its claim back: give up on a final attempt, else requeue. */
  function AfterRelease(final: bool): Pc {
    if final then GiveUp else Requeue(true)
  }

  /** Where a page that is not being processed is picked up. */
  function Resume(st: PageState, final: bool): Pc {
    if st == Pending then ClaimLayout(final)
    else if st == LayoutDone then ClaimVlm(final)
    else Ack
  }

  /** One command on the page: the new page state and the next command. */
  function Local(cfg: Config, pc: Pc, st: PageState, outcome: Outcome): (PageState, Pc)
    requires !pc.Requeue? && !pc.Ack?
    requires PcOk(pc)
  {
    match pc
    case Start(reclaim, final) =>
      (st, if Running(st) && reclaim then ReclaimRead(final) else Resume(st, final))
    case ReclaimRead(final) =>
      (st, if Running(st) then ReclaimCas(st, final) else ReclaimReread(final))
    case ReclaimCas(from, final) =>
      (Swap(st, ReclaimTarget(from), {from}).0, ReclaimReread(final))
    case ReclaimReread(final) =>
      (st, Resume(st, final))
    case ClaimLayout(final) =>
      var (now, ok) := Swap(st, LayoutRunning, Predecessors(LayoutRunning));
      (now, if ok then CallLayout(final) else Ack)
    case CallLayout(final) =>
      (st, match outcome
           case Succeeds => CommitLayout(final)
           case Fails => FailLayout
           case Saturates => ReleaseRead(final))
    case CommitLayout(final) =>
      (Swap(st, LayoutDone, Predecessors(LayoutDone)).0, if cfg.handoff then Requeue(false) else ClaimVlm(final))
    case FailLayout =>
      (Swap(st, Failed, Predecessors(Failed)).0, Ack)
    case ClaimVlm(final) =>
      var (now, ok) := Swap(st, VlmRunning, Predecessors(VlmRunning));
      (now, if ok then CallVlm(final) else Ack)
    case CallVlm(final) =>
      (st, match outcome
           case Succeeds => CommitDone
           case Fails => Degrade
           case Saturates => if final then Degrade else ReleaseRead(false))
    case CommitDone =>
      (Swap(st, Done, Predecessors(Done)).0, Ack)
    case Degrade =>
      (Swap(st, FallbackDone, Predecessors(FallbackDone)).0, Ack)
    case ReleaseRead(final) =>
      (st, if Running(st) then ReleaseCas(st, final) else AfterRelease(final))
    case ReleaseCas(from, final) =>
      (Swap(st, ReclaimTarget(from), {from}).0, AfterRelease(final))
    case GiveUp =>
      (Swap(st, Failed, Predecessors(Failed)).0, Ack)
    case ReapRead(exhausted) =>
      (st, if Terminal(st) then Ack else if exhausted then ForceRead else ReleaseRead(false))
    case ForceRead =>
      (st, if Terminal(st) then Ack else ForceCas(if FallbackDone in Transitions(st) then FallbackDone else Failed))
    case ForceCas(target) =>
      (Swap(st, target, Predecessors(target)).0, Ack)
  }

  // ------------------------------------------------------------------ the system

  datatype Entry = Entry(page: nat, attempt: nat, delivered: bool)

  /** The entry that replaces another one; the handoff after a layout does not count as an attempt. */
  function Again(entry: Entry, charged: bool): Entry {
    Entry(entry.page, if charged then entry.attempt + 1 else entry.attempt, false)
  }

  /** `live` gives the next command of the handler of an entry, if it has one; `next` is a fresh entry id. */
  datatype State = State(pages: map<nat, PageState>, entries: map<nat, Entry>, live: map<nat, Pc>, next: nat)

  datatype Action =
    | Deliver(e: nat, final: bool)      // XREADGROUP with ">"
    | Recover(e: nat, final: bool)      // a restarted worker reads its own pending entries
    | Reap(e: nat, exhausted: bool)     // XCLAIM of an idle entry
    | Crash(e: nat)
    | Step(e: nat, outcome: Outcome)    // one command of the handler of `e`

  /** An attempt is final at the latest when it is the last one the requeue limit allows. */
  predicate Budget(cfg: Config, attempt: nat, final: bool) {
    attempt + 1 >= cfg.maxRequeues ==> final
  }

  predicate WellTyped(s: State) {
    && (forall e :: e in s.live ==> e in s.entries && s.entries[e].delivered)
    && (forall e :: e in s.entries ==> e < s.next && s.entries[e].page in s.pages)
    && (forall e :: e in s.live ==> PcOk(s.live[e]))
  }

  predicate Enabled(cfg: Config, s: State, a: Action) {
    match a
    case Deliver(e, final) =>
      e in s.entries && !s.entries[e].delivered && Budget(cfg, s.entries[e].attempt, final)
    case Recover(e, final) =>
      e in s.entries && s.entries[e].delivered && e !in s.live && Budget(cfg, s.entries[e].attempt, final)
    case Reap(e, exhausted) =>
      e in s.entries && s.entries[e].delivered && e !in s.live && Budget(cfg, s.entries[e].attempt, exhausted)
    case Crash(e) => cfg.canCrash && e in s.live
    case Step(e, _) => e in s.live
  }

  function Apply(cfg: Config, s: State, a: Action): State
    requires WellTyped(s) && Enabled(cfg, s, a)
  {
    match a
    case Deliver(e, final) =>
      s.(entries := s.entries[e := s.entries[e].(delivered := true)], live := s.live[e := Start(false, final)])
    case Recover(e, final) =>
      s.(live := s.live[e := Start(true, final)])
    case Reap(e, exhausted) =>
      s.(live := s.live[e := ReapRead(exhausted)])
    case Crash(e) =>
      s.(live := s.live - {e})
    case Step(e, outcome) =>
      var pc, entry := s.live[e], s.entries[e];
      if pc.Ack? then
        s.(entries := s.entries - {e}, live := s.live - {e})
      else if pc.Requeue? then
        // The replacement is published before the original is acknowledged.
        State(s.pages, s.entries[s.next := Again(entry, pc.charged)], s.live[e := Ack], s.next + 1)
      else
        var (st, then') := Local(cfg, pc, s.pages[entry.page], outcome);
        s.(pages := s.pages[entry.page := st], live := s.live[e := then'])
  }

  /** One entry per page, nothing delivered. */
  function Fresh(pages: nat): (s: State) {
    State(Unstarted(pages), FreshEntries(pages), map[], pages)
  }

  function FreshEntries(pages: nat): (m: map<nat, Entry>)
    ensures forall e :: e in m <==> 0 <= e < pages
    ensures forall e :: e in m ==> m[e] == Entry(e, 0, false)
  {
    if pages == 0 then map[] else FreshEntries(pages - 1)[pages - 1 := Entry(pages - 1, 0, false)]
  }

  /** Every page that is not terminal has an entry: undelivered, or pending under some consumer. */
  ghost predicate NothingDropped(s: State) {
    forall p :: p in s.pages && !Terminal(s.pages[p]) ==> exists e :: e in s.entries && s.entries[e].page == p
  }
}

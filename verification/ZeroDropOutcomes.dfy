/**
  What the state of a page says about the model calls made for it.  On every run, with crashes, recoveries
  and duplicate entries, a page is done only after a VLM call for it came back, degraded or failed only
  after a call for it gave reason to, or by a reaper whose entry was out of attempts.
*/
module ZeroDropOutcomes {
  import opened Options
  import opened PageStates
  import opened ZeroDrop
  import opened ZeroDropProof

  /** What an action tells about its page. */
  datatype Event =
    | LayoutCame       // a layout call came back with a result
    | LayoutFailed     // it failed for good
    | LayoutRefused    // it found no capacity, on a final attempt
    | VlmCame
    | VlmFailed
    | VlmRefused
    | Exhausted        // a reaper claimed an entry that is out of attempts
    | ForcedWithLayout // such a reaper found the page with a layout and no end
    | ForcedWithout    // or without a layout

  /** By the action, its outcome and the command it is at. */
  function EventOf(s: State, a: Action): Option<Event> {
    match a
    case Reap(_, exhausted) => if exhausted then Some(Exhausted) else None
    case Step(e, outcome) =>
      if e !in s.live then None
      else (match s.live[e]
            case CallLayout(final) =>
              (match outcome
               case Succeeds => Some(LayoutCame)
               case Fails => Some(LayoutFailed)
               case Saturates => if final then Some(LayoutRefused) else None)
            case CallVlm(final) =>
              (match outcome
               case Succeeds => Some(VlmCame)
               case Fails => Some(VlmFailed)
               case Saturates => if final then Some(VlmRefused) else None)
            case ForceRead =>
              if e !in s.entries || s.entries[e].page !in s.pages || Terminal(s.pages[s.entries[e].page]) then None
              else if LayoutCommitted(s.pages[s.entries[e].page]) then Some(ForcedWithLayout)
              else Some(ForcedWithout)
            case _ => None)
    case _ => None
  }

  /** The events of page `p` in one action. */
  function Tells(s: State, a: Action, p: nat): set<Event> {
    if EventOf(s, a).Some? && a.e in s.entries && s.entries[a.e].page == p then {EventOf(s, a).value} else {}
  }

  // ------------------------------------------------------------------ reasons

  /** Why a handler may be at a command. */
  predicate PcHasReason(pc: Pc, seen: set<Event>) {
    match pc
    case CommitLayout(_) => LayoutCame in seen
    case FailLayout => LayoutFailed in seen
    case GiveUp => LayoutRefused in seen
    case ReleaseRead(final) => final ==> LayoutRefused in seen
    case ReleaseCas(_, final) => final ==> LayoutRefused in seen
    case CommitDone => VlmCame in seen
    case Degrade => VlmFailed in seen || VlmRefused in seen
    case ReapRead(exhausted) => exhausted ==> Exhausted in seen
    case ForceRead => Exhausted in seen
    case ForceCas(target) =>
      && Exhausted in seen
      && (target == FallbackDone ==> ForcedWithLayout in seen) && (target == Failed ==> ForcedWithout in seen)
      && target != Done
    case _ => true
  }

  /** Why a page may be in a state. */
  predicate PageHasReason(st: PageState, seen: set<Event>) {
    && (LayoutCommitted(st) ==> LayoutCame in seen)
    && (st == Done ==> VlmCame in seen)
    && (st == FallbackDone ==>
          VlmFailed in seen || VlmRefused in seen || (Exhausted in seen && ForcedWithLayout in seen))
    && (st == Failed ==>
          LayoutFailed in seen || LayoutRefused in seen || (Exhausted in seen && ForcedWithout in seen))
  }

  ghost predicate Justified(s: State, p: nat, seen: set<Event>)
    requires WellTyped(s)
  {
    && (p in s.pages ==> PageHasReason(s.pages[p], seen))
    && forall e :: e in s.live && s.entries[e].page == p ==> PcHasReason(s.live[e], seen)
  }

  lemma {:induction false} ReasonsStay(pc: Pc, st: PageState, seen: set<Event>, more: set<Event>)
    requires seen <= more
    ensures PcHasReason(pc, seen) ==> PcHasReason(pc, more)
    ensures PageHasReason(st, seen) ==> PageHasReason(st, more)
  {
  }

  /** One command of a handler of the page. */
  lemma {:induction false} CommandHasReason(cfg: Config, s: State, e: nat, outcome: Outcome, seen: set<Event>)
    requires WellTyped(s) && e in s.live && !s.live[e].Requeue? && !s.live[e].Ack?
    requires PcHasReason(s.live[e], seen) && PageHasReason(s.pages[s.entries[e].page], seen)
    ensures var p := s.entries[e].page;
            var (st, next) := Local(cfg, s.live[e], s.pages[p], outcome);
            var more := seen + Tells(s, Step(e, outcome), p);
            PageHasReason(st, more) && PcHasReason(next, more)
  {
  }

  lemma {:induction false} StepJustified(cfg: Config, s: State, a: Action, p: nat, seen: set<Event>)
    requires WellTyped(s) && Enabled(cfg, s, a) && WellTyped(Apply(cfg, s, a)) && Justified(s, p, seen)
    ensures Justified(Apply(cfg, s, a), p, seen + Tells(s, a, p))
  {
    var now, more := Apply(cfg, s, a), seen + Tells(s, a, p);
    if a.Step? && !s.live[a.e].Requeue? && !s.live[a.e].Ack? && s.entries[a.e].page == p {
      CommandHasReason(cfg, s, a.e, a.outcome, seen);
    } else if p in s.pages {
      ReasonsStay(Ack, s.pages[p], seen, more);
    }
    forall e | e in now.live && now.entries[e].page == p ensures PcHasReason(now.live[e], more) {
      if e in s.live && e != a.e {
        ReasonsStay(s.live[e], Pending, seen, more);
      }
    }
  }

  // ------------------------------------------------------------------ runs

  /** One of the first `n` actions tells `event` about page `p`. */
  ghost predicate Told(states: seq<State>, actions: seq<Action>, n: nat, p: nat, event: Event)
    requires n <= |actions| < |states|
  {
    exists i: nat :: i < n && event in Tells(states[i], actions[i], p)
  }

  ghost function Seen(states: seq<State>, actions: seq<Action>, n: nat, p: nat): set<Event>
    requires n <= |actions| < |states|
  {
    set event: Event | Told(states, actions, n, p, event)
  }

  lemma {:induction false} SeenNext(states: seq<State>, actions: seq<Action>, n: nat, p: nat)
    requires n < |actions| < |states|
    ensures Seen(states, actions, n, p) + Tells(states[n], actions[n], p) == Seen(states, actions, n + 1, p)
  {
    forall event ensures Told(states, actions, n + 1, p, event) <==>
                         Told(states, actions, n, p, event) || event in Tells(states[n], actions[n], p)
    {
      if i: nat :| i < n + 1 && event in Tells(states[i], actions[i], p) {
        assert i == n || Told(states, actions, n, p, event);
      }
    }
  }

  /** The state after `n` actions, by what they told. */
  ghost predicate JustifiedAt(states: seq<State>, actions: seq<Action>, n: nat, p: nat)
    requires n <= |actions| < |states|
  {
    WellTyped(states[n]) && Justified(states[n], p, Seen(states, actions, n, p))
  }

  lemma {:induction false} FreshJustified(pages: nat, states: seq<State>, actions: seq<Action>, p: nat)
    requires |actions| < |states| && states[0] == Fresh(pages)
    ensures JustifiedAt(states, actions, 0, p)
  {
  }

  lemma {:induction false} NextJustified(cfg: Config, states: seq<State>, actions: seq<Action>, n: nat, p: nat)
    requires IsRun(cfg, states, actions) && n < |actions| && JustifiedAt(states, actions, n, p)
    ensures JustifiedAt(states, actions, n + 1, p)
  {
    assert RunStep(cfg, states, actions, n);
    StepWellTyped(cfg, states[n], actions[n]);
    StepJustified(cfg, states[n], actions[n], p, Seen(states, actions, n, p));
    SeenNext(states, actions, n, p);
  }

  lemma {:induction false} JustifiedAlongRun(
    cfg: Config, pages: nat, states: seq<State>, actions: seq<Action>, n: nat, p: nat)
    requires IsRun(cfg, states, actions) && states[0] == Fresh(pages) && n <= |actions|
    ensures JustifiedAt(states, actions, n, p)
    decreases n
  {
    if n == 0 {
      FreshJustified(pages, states, actions, p);
    } else {
      JustifiedAlongRun(cfg, pages, states, actions, n - 1, p);
      NextJustified(cfg, states, actions, n - 1, p);
    }
  }

  /** A page has its state for a reason. */
  lemma {:induction false} StateIsEarned(
    cfg: Config, pages: nat, states: seq<State>, actions: seq<Action>, n: nat, p: nat)
    requires IsRun(cfg, states, actions) && states[0] == Fresh(pages) && n <= |actions| && p in states[n].pages
    ensures LayoutCommitted(states[n].pages[p]) ==> Told(states, actions, n, p, LayoutCame)
    ensures states[n].pages[p] == Done ==> Told(states, actions, n, p, VlmCame)
    ensures states[n].pages[p] == FallbackDone ==>
              || Told(states, actions, n, p, VlmFailed) || Told(states, actions, n, p, VlmRefused)
              || (Told(states, actions, n, p, Exhausted) && Told(states, actions, n, p, ForcedWithLayout))
    ensures states[n].pages[p] == Failed ==>
              || Told(states, actions, n, p, LayoutFailed) || Told(states, actions, n, p, LayoutRefused)
              || (Told(states, actions, n, p, Exhausted) && Told(states, actions, n, p, ForcedWithout))
  {
    JustifiedAlongRun(cfg, pages, states, actions, n, p);
  }
}

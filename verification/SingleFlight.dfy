/**
  The request protocol over the idempotency store.  A request is cut at its one await point: it
  arrives, and is answered from the cache, waits for the leader of its key or becomes that leader;
  later the leader's call succeeds or fails, and the followers wake.  The pieces interleave freely.
*/
module SingleFlight {
  import opened Options
  import opened IdempotencyStores

  datatype Role = Replay | Lead | Follow(leader: nat)

  datatype Request = Request(key: Key, role: Role, answer: Option<Outcome>)

  datatype State = State(store: Store, requests: seq<Request>)

  datatype Action =
    | Arrive(key: Key, now: real)
    | Succeed(r: nat, body: Body, now: real)
    | Fail(r: nat, error: string)
    | Wake(r: nat)
    | Clear

  predicate Running(s: State, r: nat) {
    r < |s.requests| && s.requests[r].role == Lead && s.requests[r].answer == None
  }

  predicate Waiting(s: State, r: nat) {
    r < |s.requests| && s.requests[r].role.Follow? && s.requests[r].answer == None
  }

  predicate Enabled(s: State, a: Action) {
    match a
    case Arrive(_, _) => true
    case Succeed(r, _, _) => Running(s, r)
    case Fail(r, _) => Running(s, r)
    case Wake(r) => Waiting(s, r) && s.requests[r].role.leader in s.store.settled
    case Clear => true
  }

  function Arrived(limits: Limits, s: State, k: Key, now: real): State {
    var (fetched, hit) := Fetched(limits, s.store, k, now);
    if hit.Some? then
      State(fetched, s.requests + [Request(k, Replay, Some(Answer(hit.value)))])
    else
      var (begun, leader) := Begun(fetched, k, |s.requests|);
      State(begun, s.requests + [Request(k, if leader == |s.requests| then Lead else Follow(leader), None)])
  }

  function Apply(limits: Limits, s: State, a: Action): State
    requires Enabled(s, a)
  {
    match a
    case Arrive(k, now) => Arrived(limits, s, k, now)
    case Succeed(r, body, now) =>
      var k := s.requests[r].key;
      var recorded := Recorded(limits, s.store, k).0;
      State(Settled(Stored(limits, recorded, k, body, now), k, Answer(body)),
            s.requests[r := s.requests[r].(answer := Some(Answer(body)))])
    case Fail(r, error) =>
      State(Settled(s.store, s.requests[r].key, Error(error)),
            s.requests[r := s.requests[r].(answer := Some(Error(error)))])
    case Wake(r) =>
      s.(requests := s.requests[r := s.requests[r].(answer := Some(s.store.settled[s.requests[r].role.leader]))])
    case Clear =>
      s.(store := Cleared(s.store))
  }

  function Initial(): State {
    State(Store([], map[], map[], [], map[]), [])
  }

  // ------------------------------------------------------------------ the invariant

  /** The table of calls in flight holds the running leaders, each under its key. */
  ghost predicate TableFits(s: State) {
    && (forall k :: k in s.store.inflight ==>
          Running(s, s.store.inflight[k]) && s.requests[s.store.inflight[k]].key == k)
    && (forall r: nat :: Running(s, r) ==>
          s.requests[r].key in s.store.inflight && s.store.inflight[s.requests[r].key] == r)
  }

  /** A settled handle carries the answer of its leader, and all leaders that are done are settled. */
  ghost predicate HandlesFit(s: State) {
    forall h: nat :: h in s.store.settled <==>
      h < |s.requests| && s.requests[h].role == Lead && s.requests[h].answer.Some?
  }

  ghost predicate AnswersFit(s: State) {
    forall h: nat :: h in s.store.settled ==> h < |s.requests| && s.requests[h].answer == Some(s.store.settled[h])
  }

  /** A follower follows a leader of its own key, and has no answer but the leader's. */
  ghost predicate FollowerFits(s: State, r: nat)
    requires r < |s.requests|
  {
    s.requests[r].role.Follow? ==>
      var l := s.requests[r].role.leader;
      && l < |s.requests| && s.requests[l].role == Lead && s.requests[l].key == s.requests[r].key
      && (s.requests[r].answer.Some? ==> s.requests[l].answer == s.requests[r].answer)
  }

  /** A body is known for a key when a leader of that key came back with it. */
  ghost predicate Known(s: State, k: Key, body: Body) {
    exists l :: 0 <= l < |s.requests| && s.requests[l] == Request(k, Lead, Some(Answer(body)))
  }

  ghost predicate CacheFits(s: State) {
    && (forall x :: x in s.store.cache ==> Known(s, x.key, x.value.body))
    && (forall k :: k in s.store.inflight ==> !Has(s.store.cache, k))
  }

  ghost predicate ReplayFits(s: State, r: nat)
    requires r < |s.requests|
  {
    s.requests[r].role == Replay ==>
      && s.requests[r].answer.Some? && s.requests[r].answer.value.Answer?
      && Known(s, s.requests[r].key, s.requests[r].answer.value.body)
  }

  ghost predicate Inv(s: State) {
    && TableFits(s) && HandlesFit(s) && AnswersFit(s) && CacheFits(s)
    && (forall r: nat :: r < |s.requests| ==> FollowerFits(s, r))
    && (forall r: nat :: r < |s.requests| ==> ReplayFits(s, r))
  }

  // ------------------------------------------------------------------ every step keeps it

  /** Requests keep their key and role, and an answer once given. */
  ghost predicate Evolves(s: State, t: State) {
    && |s.requests| <= |t.requests|
    && forall r: nat :: r < |s.requests| ==>
         && t.requests[r].key == s.requests[r].key && t.requests[r].role == s.requests[r].role
         && (s.requests[r].answer.Some? ==> t.requests[r].answer == s.requests[r].answer)
  }

  lemma {:induction false} StepEvolves(limits: Limits, s: State, a: Action)
    requires Enabled(s, a)
    ensures Evolves(s, Apply(limits, s, a))
  {
  }

  lemma {:induction false} KnownStays(s: State, t: State, k: Key, body: Body)
    requires Evolves(s, t) && Known(s, k, body)
    ensures Known(t, k, body)
  {
    var l :| 0 <= l < |s.requests| && s.requests[l] == Request(k, Lead, Some(Answer(body)));
    assert t.requests[l] == Request(k, Lead, Some(Answer(body)));
  }

  lemma {:induction false} ArrivalKeepsTable(limits: Limits, s: State, k: Key, now: real)
    requires TableFits(s)
    ensures TableFits(Arrived(limits, s, k, now))
  {
  }

  lemma {:induction false} TableKept(limits: Limits, s: State, a: Action)
    requires TableFits(s) && Enabled(s, a)
    ensures TableFits(Apply(limits, s, a))
  {
    if a.Arrive? {
      ArrivalKeepsTable(limits, s, a.key, a.now);
    }
  }

  lemma {:induction false} HandlesKept(limits: Limits, s: State, a: Action)
    requires Inv(s) && Enabled(s, a)
    ensures HandlesFit(Apply(limits, s, a)) && AnswersFit(Apply(limits, s, a))
  {
  }

  lemma {:induction false} FollowersKept(limits: Limits, s: State, a: Action, r: nat)
    requires Inv(s) && Enabled(s, a) && r < |Apply(limits, s, a).requests|
    ensures FollowerFits(Apply(limits, s, a), r)
  {
    if r < |s.requests| {
      assert FollowerFits(s, r);
    }
  }

  lemma {:induction false} ReplaysKept(limits: Limits, s: State, a: Action, r: nat)
    requires Inv(s) && Enabled(s, a) && r < |Apply(limits, s, a).requests|
    ensures ReplayFits(Apply(limits, s, a), r)
  {
    var t := Apply(limits, s, a);
    StepEvolves(limits, s, a);
    if r < |s.requests| {
      assert ReplayFits(s, r);
      if s.requests[r].role == Replay {
        KnownStays(s, t, s.requests[r].key, s.requests[r].answer.value.body);
      }
    } else if t.requests[r].role == Replay {
      KnownStays(s, t, a.key, t.requests[r].answer.value.body);
    }
  }

  lemma {:induction false} CacheKept(limits: Limits, s: State, a: Action)
    requires Inv(s) && Enabled(s, a)
    ensures CacheFits(Apply(limits, s, a))
  {
    var t := Apply(limits, s, a);
    StepEvolves(limits, s, a);
    forall x | x in t.store.cache ensures Known(t, x.key, x.value.body) {
      if x in s.store.cache {
        KnownStays(s, t, x.key, x.value.body);
      } else {
        assert t.requests[a.r] == Request(x.key, Lead, Some(Answer(x.value.body)));
      }
    }
    forall k | k in t.store.inflight ensures !Has(t.store.cache, k) {
      CacheMisses(limits, s, a, k);
    }
  }

  lemma {:induction false} ArrivalMisses(limits: Limits, s: State, key: Key, now: real, k: Key)
    requires CacheFits(s) && k in Arrived(limits, s, key, now).store.inflight
    ensures !Has(Arrived(limits, s, key, now).store.cache, k)
  {
    WithoutHas(s.store.cache, key, k);
    if Has(s.store.cache, key) {
      LatestHas(s.store.cache, key, Lookup(s.store.cache, key), k);
    }
  }

  lemma {:induction false} StoredHas(limits: Limits, s: Store, key: Key, body: Body, now: real, k: Key)
    requires Has(Stored(limits, s, key, body, now).cache, k)
    ensures Has(s.cache, k) || k == key
  {
    NewestHas(Latest(s.cache, key, Cached(now, body)), limits.maxEntries, k);
    LatestHas(s.cache, key, Cached(now, body), k);
  }

  lemma {:induction false} CacheMisses(limits: Limits, s: State, a: Action, k: Key)
    requires TableFits(s) && CacheFits(s) && Enabled(s, a) && k in Apply(limits, s, a).store.inflight
    ensures !Has(Apply(limits, s, a).store.cache, k)
  {
    if a.Arrive? {
      ArrivalMisses(limits, s, a.key, a.now, k);
    } else if a.Succeed? && Has(Apply(limits, s, a).store.cache, k) {
      StoredHas(limits, Recorded(limits, s.store, s.requests[a.r].key).0, s.requests[a.r].key, a.body, a.now, k);
    }
  }

  lemma {:induction false} StepKeepsInv(limits: Limits, s: State, a: Action)
    requires Inv(s) && Enabled(s, a)
    ensures Inv(Apply(limits, s, a))
  {
    TableKept(limits, s, a);
    HandlesKept(limits, s, a);
    CacheKept(limits, s, a);
    var t := Apply(limits, s, a);
    forall r: nat | r < |t.requests| ensures FollowerFits(t, r) && ReplayFits(t, r) {
      FollowersKept(limits, s, a, r);
      ReplaysKept(limits, s, a, r);
    }
  }

  // ------------------------------------------------------------------ runs

  datatype Run = Run(states: seq<State>, actions: seq<Action>)

  ghost predicate StepAt(limits: Limits, run: Run, i: nat)
    requires |run.states| == |run.actions| + 1 && i < |run.actions|
  {
    Enabled(run.states[i], run.actions[i]) && run.states[i + 1] == Apply(limits, run.states[i], run.actions[i])
  }

  ghost predicate IsRun(limits: Limits, run: Run) {
    && |run.states| == |run.actions| + 1 && run.states[0] == Initial()
    && forall i :: 0 <= i < |run.actions| ==> StepAt(limits, run, i)
  }

  lemma {:induction false} InvAlongRun(limits: Limits, run: Run, n: nat)
    requires IsRun(limits, run) && n < |run.states|
    ensures Inv(run.states[n])
    decreases n
  {
    if n > 0 {
      InvAlongRun(limits, run, n - 1);
      assert StepAt(limits, run, n - 1);
      StepKeepsInv(limits, run.states[n - 1], run.actions[n - 1]);
    }
  }

  /** A key has at most one running leader. */
  lemma {:induction false} OneLeaderPerKey(limits: Limits, run: Run, n: nat, r: nat, q: nat)
    requires IsRun(limits, run) && n < |run.states| && Running(run.states[n], r) && Running(run.states[n], q)
    requires run.states[n].requests[r].key == run.states[n].requests[q].key
    ensures r == q
  {
    InvAlongRun(limits, run, n);
  }

  /**
    A follower has a leader of its own key.  While it waits, the leader is running or the follower
    can wake; its answer is the answer of the leader, a body or an error.
  */
  lemma {:induction false} FollowerSharesOutcome(limits: Limits, run: Run, n: nat, r: nat)
    requires IsRun(limits, run) && n < |run.states| && r < |run.states[n].requests|
    requires run.states[n].requests[r].role.Follow?
    ensures var s := run.states[n]; var l := s.requests[r].role.leader;
            && l < |s.requests| && s.requests[l].role == Lead && s.requests[l].key == s.requests[r].key
            && (s.requests[r].answer == None ==> Running(s, l) || Enabled(s, Wake(r)))
            && (s.requests[r].answer.Some? ==> s.requests[r].answer == s.requests[l].answer)
  {
    InvAlongRun(limits, run, n);
    assert FollowerFits(run.states[n], r);
  }

  /** A replayed body is one that a leader of the same key came back with. */
  lemma {:induction false} ReplayIsGenuine(limits: Limits, run: Run, n: nat, r: nat)
    requires IsRun(limits, run) && n < |run.states| && r < |run.states[n].requests|
    requires run.states[n].requests[r].role == Replay
    ensures var s := run.states[n];
            exists l, body :: 0 <= l < |s.requests| && s.requests[r].answer == Some(Answer(body)) &&
                              s.requests[l] == Request(s.requests[r].key, Lead, Some(Answer(body)))
  {
    InvAlongRun(limits, run, n);
    var s := run.states[n];
    assert ReplayFits(s, r);
    var body := s.requests[r].answer.value.body;
    var l :| 0 <= l < |s.requests| && s.requests[l] == Request(s.requests[r].key, Lead, Some(Answer(body)));
  }

  // ------------------------------------------------------------------ how often the model runs

  predicate Executes(s: State, a: Action, k: Key) {
    a.Succeed? && a.r < |s.requests| && s.requests[a.r].key == k
  }

  /** The cached response of `k` is lost in this step: expired, evicted as the oldest, or reset. */
  predicate Loses(limits: Limits, s: State, a: Action, k: Key) {
    match a
    case Arrive(key, now) => key == k && Expired(limits, s.store, k, now)
    case Succeed(r, body, now) =>
      r < |s.requests| &&
      var full := Latest(s.store.cache, s.requests[r].key, Cached(now, body));
      Has(full, k) && !Has(Newest(full, limits.maxEntries), k)
    case Clear => Has(s.store.cache, k)
    case _ => false
  }

  ghost function Executions(run: Run, k: Key, n: nat): nat
    requires n <= |run.actions| < |run.states|
  {
    if n == 0 then 0 else Executions(run, k, n - 1) + One(Executes(run.states[n - 1], run.actions[n - 1], k))
  }

  ghost function Losses(limits: Limits, run: Run, k: Key, n: nat): nat
    requires n <= |run.actions| < |run.states|
  {
    if n == 0 then 0 else Losses(limits, run, k, n - 1) + One(Loses(limits, run.states[n - 1], run.actions[n - 1], k))
  }

  function One(b: bool): nat {
    if b then 1 else 0
  }

  lemma {:induction false} StepBalances(limits: Limits, s: State, a: Action, k: Key)
    requires Inv(s) && Enabled(s, a)
    ensures One(Has(s.store.cache, k)) + One(Executes(s, a, k)) ==
            One(Has(Apply(limits, s, a).store.cache, k)) + One(Loses(limits, s, a, k))
  {
    match a
    case Arrive(key, now) =>
      WithoutHas(s.store.cache, key, k);
      if Has(s.store.cache, key) {
        LatestHas(s.store.cache, key, Lookup(s.store.cache, key), k);
      }
    case Succeed(r, body, now) =>
      var full := Latest(s.store.cache, s.requests[r].key, Cached(now, body));
      LatestHas(s.store.cache, s.requests[r].key, Cached(now, body), k);
      if Has(Newest(full, limits.maxEntries), k) {
        NewestHas(full, limits.maxEntries, k);
      }
    case _ =>
  }

  /** The model has run for a key once for every response lost, and once more if one is cached. */
  lemma {:induction false} ExecutionsExact(limits: Limits, run: Run, k: Key, n: nat)
    requires IsRun(limits, run) && n <= |run.actions|
    ensures Executions(run, k, n) == Losses(limits, run, k, n) + One(Has(run.states[n].store.cache, k))
    decreases n
  {
    if n > 0 {
      ExecutionsExact(limits, run, k, n - 1);
      InvAlongRun(limits, run, n - 1);
      assert StepAt(limits, run, n - 1);
      StepBalances(limits, run.states[n - 1], run.actions[n - 1], k);
    }
  }

  // ------------------------------------------------------------------ the evidence

  /** The counters never exceed the truth. */
  ghost predicate EvidenceFits(store: Store, k: Key, executed: nat) {
    && (forall v :: Item(k, v) in store.executions ==> v <= executed)
    && (k in store.duplicates ==> 2 <= store.duplicates[k] <= executed)
  }

  lemma {:induction false} StepKeepsEvidence(limits: Limits, s: State, a: Action, k: Key, executed: nat)
    requires Enabled(s, a) && EvidenceFits(s.store, k, executed)
    ensures EvidenceFits(Apply(limits, s, a).store, k, executed + One(Executes(s, a, k)))
  {
    if a.Succeed? {
      var key := s.requests[a.r].key;
      assert key == k && Has(s.store.executions, k) ==> Item(k, CountOf(s.store, k)) in s.store.executions;
    }
  }

  lemma {:induction false} EvidenceAlongRun(limits: Limits, run: Run, k: Key, n: nat)
    requires IsRun(limits, run) && n <= |run.actions|
    ensures EvidenceFits(run.states[n].store, k, Executions(run, k, n))
    decreases n
  {
    if n > 0 {
      EvidenceAlongRun(limits, run, k, n - 1);
      assert StepAt(limits, run, n - 1);
      StepKeepsEvidence(limits, run.states[n - 1], run.actions[n - 1], k, Executions(run, k, n - 1));
    }
  }

  /** A reported duplicate is a real one, and it took the loss of a cached response. */
  lemma {:induction false} DuplicatesAreReal(limits: Limits, run: Run, k: Key, n: nat)
    requires IsRun(limits, run) && n <= |run.actions| && k in run.states[n].store.duplicates
    ensures Executions(run, k, n) >= 2 && Losses(limits, run, k, n) >= 1
  {
    EvidenceAlongRun(limits, run, k, n);
    ExecutionsExact(limits, run, k, n);
  }
}

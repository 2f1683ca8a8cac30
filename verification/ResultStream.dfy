/**
  Publishing into the result stream of a job.  The stream and the counter that numbers its events
  expire together, a time to live after the last event, so the numbers start again after such a gap.
*/
module ResultStreams {
  import opened Naturals
  import opened EventStreams

  /** All events ever published, how many of them are gone, the counter, and the time of the last event. */
  datatype Stream = Stream(log: seq<Event>, trimmed: nat, counter: nat, at: nat)

  /** An event published at time `now`, and how far the server trims on that occasion, if it may. */
  datatype Publication = Publication(now: nat, complete: bool, drop: nat)

  function Expired(s: Stream, now: nat, ttl: nat): bool {
    s.log != [] && now >= s.at + ttl
  }

  /** The id that the server picks: the time, or the next one of the same millisecond. */
  function NextId(last: Id, now: nat): Id {
    if now > last.ms then Id(now, 0) else Id(last.ms, last.rank + 1)
  }

  /** One run of the script; trimming spares the newest `maxlen`. */
  function Published(s: Stream, p: Publication, ttl: nat, maxlen: nat): Stream {
    var gone := Expired(s, p.now, ttl);
    var last := if gone || s.log == [] then Id(0, 0) else s.log[|s.log| - 1].id;
    var number := if gone then 1 else s.counter + 1;
    var spared := Min(maxlen, |s.log| + 1);
    Stream(s.log + [Event(NextId(last, p.now), number, p.complete)],
           Max(if gone then |s.log| else s.trimmed, Min(p.drop, |s.log| + 1 - spared)), number, p.now)
  }

  class ResultStream {
    const ttl: nat
    const maxlen: nat
    var log: seq<Event>
    var trimmed: nat
    var counter: nat
    var at: nat

    ghost function Value(): Stream
      reads this
    {
      Stream(log, trimmed, counter, at)
    }

    constructor (ttl: nat, maxlen: nat)
      ensures this.ttl == ttl && this.maxlen == maxlen && Value() == Empty()
    {
      this.ttl, this.maxlen := ttl, maxlen;
      log, trimmed, counter, at := [], 0, 0, 0;
    }

    /** One atomic append. */
    method Publish(p: Publication) returns (id: Id, number: nat)
      modifies this
      ensures Value() == Published(old(Value()), p, ttl, maxlen)
      ensures log == old(log) + [Event(id, number, p.complete)]
    {
      var last := if log == [] then Id(0, 0) else log[|log| - 1].id;
      if log != [] && p.now >= at + ttl {
        trimmed, counter, last := |log|, 0, Id(0, 0);
      }
      counter := counter + 1;
      number := counter;
      id := NextId(last, p.now);
      log := log + [Event(id, number, p.complete)];
      var trimmable := |log| - Min(maxlen, |log|);
      trimmed := Max(trimmed, Min(p.drop, trimmable));
      at := p.now;
    }
  }

  function Empty(): Stream {
    Stream([], 0, 0, 0)
  }

  // ------------------------------------------------------------------ all publications of a job

  /** The stream after the first `n` publications. */
  function After(ps: seq<Publication>, ttl: nat, maxlen: nat, n: nat): (s: Stream)
    requires n <= |ps|
    ensures |s.log| == n
  {
    if n == 0 then Empty() else Published(After(ps, ttl, maxlen, n - 1), ps[n - 1], ttl, maxlen)
  }

  /** The server's clock does not go back. */
  ghost predicate Timely(ps: seq<Publication>) {
    forall i :: 0 < i < |ps| ==> ps[i - 1].now <= ps[i].now
  }

  /** No event was published within a time to live before event `i`, but one earlier. */
  predicate GapBefore(ps: seq<Publication>, ttl: nat, i: nat)
    requires i < |ps|
  {
    i > 0 && ps[i].now >= ps[i - 1].now + ttl
  }

  /** Ids ascend, also across an expiry, and the newest carries the time of its publication. */
  lemma {:induction false} IdsAscend(ps: seq<Publication>, ttl: nat, maxlen: nat, n: nat)
    requires Timely(ps) && ttl >= 1 && maxlen >= 1 && n <= |ps|
    ensures var s := After(ps, ttl, maxlen, n); ValidView(View(s.log, s.trimmed))
    ensures n > 0 ==> var s := After(ps, ttl, maxlen, n); s.at == ps[n - 1].now == s.log[n - 1].id.ms
    decreases n
  {
    if n > 0 {
      IdsAscend(ps, ttl, maxlen, n - 1);
      var s := After(ps, ttl, maxlen, n - 1);
      AppendAscends(s.log, After(ps, ttl, maxlen, n).log[n - 1]);
    }
  }

  lemma {:induction false} AppendAscends(log: seq<Event>, e: Event)
    requires ValidLog(log) && Less(Id(0, 0), e.id) && (log != [] ==> Less(log[|log| - 1].id, e.id))
    ensures ValidLog(log + [e])
  {
    forall i | 0 <= i < |log| ensures Less(log[i].id, e.id) {
      assert i < |log| - 1 ==> Less(log[i].id, log[|log| - 1].id);
    }
  }

  /** Earlier events stay as they are, and the counter is the number of the last. */
  lemma {:induction false} EventsStay(ps: seq<Publication>, ttl: nat, maxlen: nat, m: nat, n: nat)
    requires m <= n <= |ps|
    ensures After(ps, ttl, maxlen, n).log[..m] == After(ps, ttl, maxlen, m).log
    ensures m > 0 ==> After(ps, ttl, maxlen, n).log[m - 1].number == After(ps, ttl, maxlen, m).counter >= 1
    ensures m > 0 ==> After(ps, ttl, maxlen, m).at == ps[m - 1].now
    decreases n
  {
    if m < n {
      EventsStay(ps, ttl, maxlen, m, n - 1);
    }
  }

  /** What readers see of the stream: events are only appended, and trimming only advances. */
  lemma {:induction false} StreamSucceeds(ps: seq<Publication>, ttl: nat, maxlen: nat, n: nat)
    requires Timely(ps) && ttl >= 1 && maxlen >= 1 && n < |ps|
    ensures var s, t := After(ps, ttl, maxlen, n), After(ps, ttl, maxlen, n + 1);
            Succeeds(View(s.log, s.trimmed), View(t.log, t.trimmed))
  {
    IdsAscend(ps, ttl, maxlen, n);
    IdsAscend(ps, ttl, maxlen, n + 1);
    EventsStay(ps, ttl, maxlen, n, n + 1);
  }

  /** One publication: how far it trims. */
  lemma {:induction false} TrimNext(ps: seq<Publication>, ttl: nat, maxlen: nat, n: nat)
    requires n < |ps|
    ensures var was, now := After(ps, ttl, maxlen, n).trimmed, After(ps, ttl, maxlen, n + 1).trimmed;
            var kept := if GapBefore(ps, ttl, n) then n else was;
            kept <= now && (now == kept || now + maxlen <= n + 1)
  {
    EventsStay(ps, ttl, maxlen, n, n);
  }

  /**
    The newest `maxlen` events survive, as far as no gap of a time to live came after them; all events
    before such a gap are gone.
  */
  lemma {:induction false} NewestSurvive(ps: seq<Publication>, ttl: nat, maxlen: nat, n: nat, i: nat)
    requires i < n <= |ps|
    ensures n - i <= maxlen && (forall k: nat :: i < k < n ==> !GapBefore(ps, ttl, k)) ==>
              After(ps, ttl, maxlen, n).trimmed <= i
    ensures GapBefore(ps, ttl, i) ==> After(ps, ttl, maxlen, n).trimmed >= i
    decreases n
  {
    TrimNext(ps, ttl, maxlen, n - 1);
    if i < n - 1 {
      NewestSurvive(ps, ttl, maxlen, n - 1, i);
    } else {
      TrimmedWithin(ps, ttl, maxlen, i);
    }
  }

  lemma {:induction false} TrimmedWithin(ps: seq<Publication>, ttl: nat, maxlen: nat, n: nat)
    requires n <= |ps|
    ensures After(ps, ttl, maxlen, n).trimmed <= n
    decreases n
  {
    if n > 0 {
      TrimmedWithin(ps, ttl, maxlen, n - 1);
    }
  }

  /** An event carries the number after that of the event before it exactly when it came in time. */
  lemma {:induction false} NumberFollows(ps: seq<Publication>, ttl: nat, maxlen: nat, i: nat)
    requires 0 < i < |ps|
    ensures var log := After(ps, ttl, maxlen, |ps|).log;
            && (log[i].number == log[i - 1].number + 1 <==> !GapBefore(ps, ttl, i))
            && (GapBefore(ps, ttl, i) ==> log[i].number == 1)
  {
    EventsStay(ps, ttl, maxlen, i, |ps|);
    EventsStay(ps, ttl, maxlen, i + 1, |ps|);
  }

  /** The events are numbered from 1 without a break. */
  ghost predicate Dense(log: seq<Event>) {
    forall i :: 0 <= i < |log| ==> log[i].number == i + 1
  }

  lemma {:induction false} NumberWithoutGap(ps: seq<Publication>, ttl: nat, maxlen: nat, i: nat)
    requires i < |ps| && forall k: nat :: k < |ps| ==> !GapBefore(ps, ttl, k)
    ensures After(ps, ttl, maxlen, |ps|).log[i].number == i + 1
    decreases i
  {
    if i == 0 {
      EventsStay(ps, ttl, maxlen, 1, |ps|);
      assert After(ps, ttl, maxlen, 0) == Empty();
    } else {
      NumberWithoutGap(ps, ttl, maxlen, i - 1);
      NumberFollows(ps, ttl, maxlen, i);
    }
  }

  /** The numbering of a job is dense if and only if no two successive events are a time to live apart. */
  lemma {:induction false} DenseExactly(ps: seq<Publication>, ttl: nat, maxlen: nat)
    ensures Dense(After(ps, ttl, maxlen, |ps|).log) <==> forall i: nat :: i < |ps| ==> !GapBefore(ps, ttl, i)
  {
    var log := After(ps, ttl, maxlen, |ps|).log;
    if forall i: nat :: i < |ps| ==> !GapBefore(ps, ttl, i) {
      forall i | 0 <= i < |log| ensures log[i].number == i + 1 {
        NumberWithoutGap(ps, ttl, maxlen, i);
      }
    } else {
      var i: nat :| i < |ps| && GapBefore(ps, ttl, i);
      NumberFollows(ps, ttl, maxlen, i);
    }
  }

  /**
    What a client sees over a chain of reconnects: each event carries the number after that of the
    one before exactly when it was published in time.
  */
  lemma {:induction false} NumbersSeen(ps: seq<Publication>, ttl: nat, maxlen: nat, at: nat, sent: seq<Event>, k: nat)
    requires Contiguous(After(ps, ttl, maxlen, |ps|).log, at, sent) && 0 < k < |sent|
    ensures sent[k].number == sent[k - 1].number + 1 <==> !GapBefore(ps, ttl, at + k)
  {
    NumberFollows(ps, ttl, maxlen, at + k);
  }

  /** A partial event, and the final one after the time to live: both are number 1. */
  lemma {:induction false} NumberingRestarts(ttl: nat, maxlen: nat)
    ensures var ps := [Publication(1, false, 0), Publication(1 + ttl, false, 0)];
            var log := After(ps, ttl, maxlen, 2).log;
            log[0].number == log[1].number == 1 && !Dense(log)
  {
    var ps := [Publication(1, false, 0), Publication(1 + ttl, false, 0)];
    EventsStay(ps, ttl, maxlen, 1, 2);
    assert After(ps, ttl, maxlen, 0) == Empty();
    NumberFollows(ps, ttl, maxlen, 1);
  }
}

/**
  The result stream of a job and its subscribers: a trimmed log of events, a reader that catches up
  and then tails, and clients that reconnect with the id of the last event they saw.
*/
module EventStreams {
  import opened Naturals
  import opened Options

  datatype Id = Id(ms: nat, rank: nat)

  /** Ids compare as pairs of numbers. */
  predicate Less(a: Id, b: Id) {
    a.ms < b.ms || (a.ms == b.ms && a.rank < b.rank)
  }

  /** `complete` marks the event that ends the job. */
  datatype Event = Event(id: Id, number: nat, complete: bool)

  /** All events ever published, of which the first `trimmed` are gone. */
  datatype View = View(log: seq<Event>, trimmed: nat)

  /** Ids ascend from above `0-0`. */
  ghost predicate ValidLog(log: seq<Event>) {
    && (forall i :: 0 <= i < |log| ==> Less(Id(0, 0), log[i].id))
    && (forall i, j :: 0 <= i < j < |log| ==> Less(log[i].id, log[j].id))
  }

  ghost predicate ValidView(v: View) {
    ValidLog(v.log) && v.trimmed <= |v.log|
  }

  // ------------------------------------------------------------------ reading

  function Retained(v: View): seq<Event> {
    if v.trimmed <= |v.log| then v.log[v.trimmed..] else []
  }

  /** The events between two positions that come after an id. */
  function Above(log: seq<Event>, from: nat, end: nat, after: Id): seq<Event>
    requires end <= |log|
    decreases end
  {
    if end <= from then []
    else Above(log, from, end - 1, after) + (if Less(after, log[end - 1].id) then [log[end - 1]] else [])
  }

  function Take(s: seq<Event>, count: nat): seq<Event> {
    if |s| <= count then s else s[..count]
  }

  /** `XRANGE` and `XREAD`: what survives after an id, oldest first, `count` at most. */
  function Read(v: View, after: Id, count: nat): seq<Event> {
    Take(Above(v.log, v.trimmed, |v.log|, after), count)
  }

  /** The cursor is older than the oldest event that survives. */
  predicate GapAfter(v: View, cursor: Id) {
    Retained(v) != [] && Less(cursor, Retained(v)[0].id)
  }

  /** A reader has seen the first `at` events. */
  ghost predicate Stands(log: seq<Event>, last: Id, at: nat) {
    at <= |log| && last == if at == 0 then Id(0, 0) else log[at - 1].id
  }

  /** An event comes after the reader's id exactly when the reader has not seen it. */
  lemma {:induction false} UnseenIsLater(log: seq<Event>, last: Id, at: nat, i: nat)
    requires ValidLog(log) && Stands(log, last, at) && i < |log|
    ensures Less(last, log[i].id) <==> at <= i
  {
    if at > 0 && at - 1 < i {
      assert Less(log[at - 1].id, log[i].id);
    } else if at > 0 && i < at - 1 {
      assert Less(log[i].id, log[at - 1].id);
    }
  }

  lemma {:induction false} AboveSlice(log: seq<Event>, last: Id, at: nat, from: nat, end: nat)
    requires from <= end <= |log| && forall i :: from <= i < end ==> (Less(last, log[i].id) <==> at <= i)
    ensures Above(log, from, end, last) == if at <= from then log[from..end] else if at <= end then log[at..end] else []
    decreases end
  {
    if from < end {
      AboveSlice(log, last, at, from, end - 1);
      assert Less(last, log[end - 1].id) <==> at <= end - 1;
    }
  }

  lemma {:induction false} TakeSlice(log: seq<Event>, from: nat, count: nat)
    requires from <= |log|
    ensures Take(log[from..|log|], count) == log[from..Min(from + count, |log|)]
  {
  }

  /** A read continues where the reader stands, or where the trimmed part ends. */
  lemma {:induction false} ReadIsSlice(v: View, last: Id, at: nat, count: nat)
    requires ValidView(v) && Stands(v.log, last, at)
    ensures var from := Max(at, v.trimmed);
            Read(v, last, count) == v.log[from..Min(from + count, |v.log|)]
  {
    forall i | v.trimmed <= i < |v.log| ensures Less(last, v.log[i].id) <==> at <= i {
      UnseenIsLater(v.log, last, at, i);
    }
    AboveSlice(v.log, last, at, v.trimmed, |v.log|);
    TakeSlice(v.log, Max(at, v.trimmed), count);
  }

  /** While anything is retained, a gap is reported exactly when the event of the cursor itself has been trimmed. */
  lemma {:induction false} GapExact(v: View, cursor: Id, at: nat)
    requires ValidView(v) && Stands(v.log, cursor, at) && v.trimmed < |v.log|
    ensures GapAfter(v, cursor) <==> at <= v.trimmed
  {
  }

  /** Some event after the cursor is gone. */
  predicate Lost(v: View, at: nat) {
    at < v.trimmed
  }

  /**
    When the check is right: with nothing retained, only for a reader that has seen everything; else,
    unless the event of the cursor was the last one trimmed.
  */
  lemma {:induction false} GapCheckRight(v: View, cursor: Id, at: nat)
    requires ValidView(v) && Stands(v.log, cursor, at)
    ensures (GapAfter(v, cursor) <==> Lost(v, at)) <==>
            if v.trimmed == |v.log| then at == |v.log| else at != v.trimmed
  {
    if v.trimmed < |v.log| {
      GapExact(v, cursor, at);
    }
  }

  function TwoEvents(): seq<Event> {
    [Event(Id(1, 0), 1, false), Event(Id(2, 0), 2, false)]
  }

  /** A client that has seen the first of two events, which alone is trimmed, is told of a gap. */
  lemma {:induction false} FalseAlarm() returns (v: View, cursor: Id, at: nat)
    ensures ValidView(v) && Stands(v.log, cursor, at) && GapAfter(v, cursor) && !Lost(v, at)
  {
    v, cursor, at := View(TwoEvents(), 1), Id(1, 0), 1;
  }

  /** A client that has seen the first of two events, both of which are gone, is told nothing. */
  lemma {:induction false} SilentLoss() returns (v: View, cursor: Id, at: nat)
    ensures ValidView(v) && Stands(v.log, cursor, at) && !GapAfter(v, cursor) && Lost(v, at)
  {
    v, cursor, at := View(TwoEvents(), 2), Id(1, 0), 1;
  }

  // ------------------------------------------------------------------ the frames of a connection

  predicate HasComplete(s: seq<Event>) {
    exists i :: 0 <= i < |s| && s[i].complete
  }

  /** What a connection has sent, the id from which it reads on, and whether it has sent the end of the job. */
  datatype Progress = Progress(sent: seq<Event>, last: Id, complete: bool)

  function LastId(s: seq<Event>, last: Id): Id {
    if s == [] then last else s[|s| - 1].id
  }

  /** Sending a batch; a connection that is complete reads no more. */
  function Next(p: Progress, events: seq<Event>): Progress {
    if p.complete then p else Progress(p.sent + events, LastId(events, p.last), HasComplete(events))
  }

  /** The progress after rounds 1 to `k - 1`, each of which reads what `read` says. */
  function Seen(read: (nat, Id) -> seq<Event>, from: Id, k: nat): Progress {
    if k <= 1 then Progress([], from, false)
    else
      var p := Seen(read, from, k - 1);
      Next(p, read(k - 1, p.last))
  }

  /**
    The stream is read for the gap check, then for the history, which is round 1, and then once per
    round of the tail until the client leaves or the connection is closed.
  */
  function Reader(views: seq<View>, limit: nat, batch: nat): (nat, Id) -> seq<Event> {
    (k: nat, last: Id) => if k < |views| then Read(views[k], last, if k == 1 then limit else batch) else []
  }

  /** The cursor is given up when the check finds a gap. */
  function StartId(v: View, cursor: Option<Id>): Id {
    if cursor.Some? && !GapAfter(v, cursor.value) then cursor.value else Id(0, 0)
  }

  /** All stored events that a connection sends. */
  function Session(views: seq<View>, cursor: Option<Id>, limit: nat, batch: nat): seq<Event>
    requires |views| >= 2
  {
    Seen(Reader(views, limit, batch), StartId(views[0], cursor), |views|).sent
  }

  lemma {:induction false} CompleteStays(read: (nat, Id) -> seq<Event>, from: Id, i: nat, j: nat)
    requires i <= j && Seen(read, from, i).complete
    ensures Seen(read, from, j) == Seen(read, from, i)
    decreases j
  {
    if i < j && j > 1 {
      CompleteStays(read, from, i, j - 1);
    }
  }

  lemma {:induction false} CompleteAppends(s: seq<Event>, t: seq<Event>)
    ensures HasComplete(s + t) <==> HasComplete(s) || HasComplete(t)
  {
    if HasComplete(t) {
      var i :| 0 <= i < |t| && t[i].complete;
      assert (s + t)[|s| + i].complete;
    }
    if HasComplete(s) {
      var i :| 0 <= i < |s| && s[i].complete;
      assert (s + t)[i].complete;
    }
  }

  /** A connection stops reading exactly when it has sent the event that ends the job. */
  lemma {:induction false} EndsExactly(read: (nat, Id) -> seq<Event>, from: Id, k: nat)
    ensures Seen(read, from, k).complete <==> HasComplete(Seen(read, from, k).sent)
  {
    if k > 1 {
      EndsExactly(read, from, k - 1);
      var p := Seen(read, from, k - 1);
      CompleteAppends(p.sent, read(k - 1, p.last));
    }
  }

  /** Sends a batch, keeping track of the last id and of the end of the job. */
  method Send(p: Progress, events: seq<Event>) returns (r: Progress)
    requires !p.complete
    ensures r == Next(p, events)
  {
    var sent, last, complete := p.sent, p.last, false;
    for k := 0 to |events|
      invariant sent == p.sent + events[..k] && last == LastId(events[..k], p.last)
      invariant complete <==> exists i :: 0 <= i < k && events[i].complete
    {
      sent := sent + [events[k]];
      last := events[k].id;
      complete := complete || events[k].complete;
    }
    assert events[..|events|] == events;
    r := Progress(sent, last, complete);
  }

  /** The frames of one connection. */
  method Frames(views: seq<View>, cursor: Option<Id>, limit: nat, batch: nat) returns (sent: seq<Event>, resync: bool)
    requires |views| >= 2
    ensures sent == Session(views, cursor, limit, batch)
    ensures resync <==> cursor.Some? && GapAfter(views[0], cursor.value)
  {
    resync := cursor.Some? && GapAfter(views[0], cursor.value);
    var start := if cursor.Some? && !resync then cursor.value else Id(0, 0);
    ghost var read := Reader(views, limit, batch);
    var progress := Send(Progress([], start, false), Read(views[1], start, limit));
    var round := 2;
    while !progress.complete && round < |views|
      invariant 2 <= round <= |views|
      invariant progress == Seen(read, start, round)
    {
      progress := Send(progress, Read(views[round], progress.last, batch));
      round := round + 1;
    }
    if progress.complete {
      CompleteStays(read, start, round, |views|);
    }
    sent := progress.sent;
  }

  // ------------------------------------------------------------------ nothing is skipped or repeated

  /** The stream at a later time: events are only appended, and trimming only advances. */
  ghost predicate Succeeds(v: View, w: View) {
    ValidView(w) && v.log <= w.log && v.trimmed <= w.trimmed
  }

  /** The stream at successive reads. */
  ghost predicate Succession(views: seq<View>) {
    && (forall k :: 0 <= k < |views| ==> ValidView(views[k]))
    && (forall k :: 0 < k < |views| ==> Succeeds(views[k - 1], views[k]))
  }

  /** The events sent are the ones after the first `at` of the log, in order and without omission. */
  ghost predicate Contiguous(log: seq<Event>, at: nat, sent: seq<Event>) {
    at + |sent| <= |log| && forall i :: 0 <= i < |sent| ==> sent[i] == log[at + i]
  }

  lemma {:induction false} Longer(short: seq<Event>, log: seq<Event>, at: nat, sent: seq<Event>)
    requires short <= log && Contiguous(short, at, sent)
    ensures Contiguous(log, at, sent)
  {
  }

  lemma {:induction false} Join(log: seq<Event>, at: nat, first: seq<Event>, second: seq<Event>)
    requires Contiguous(log, at, first) && Contiguous(log, at + |first|, second)
    ensures Contiguous(log, at, first + second)
  {
  }

  /** A reader has seen the first `at` events; one that has seen none starts where the trimmed part ends. */
  ghost predicate StandsIn(v: View, last: Id, at: nat) {
    Stands(v.log, last, at) || (last == Id(0, 0) && at == v.trimmed)
  }

  /** A read sends the next events and leaves the reader standing after them. */
  lemma {:induction false} ReadAdvances(v: View, last: Id, at: nat, count: nat)
    requires ValidView(v) && StandsIn(v, last, at) && v.trimmed <= at
    ensures var events := Read(v, last, count);
            Contiguous(v.log, at, events) && StandsIn(v, LastId(events, last), at + |events|)
  {
    ReadIsSlice(v, last, if Stands(v.log, last, at) then at else 0, count);
    SliceAdvances(v, last, at, Min(at + count, |v.log|), Read(v, last, count));
  }

  lemma {:induction false} SliceAdvances(v: View, last: Id, at: nat, end: nat, events: seq<Event>)
    requires StandsIn(v, last, at) && at <= end <= |v.log| && events == v.log[at..end]
    ensures Contiguous(v.log, at, events) && StandsIn(v, LastId(events, last), at + |events|)
  {
  }

  /** Where a connection stands after it has read a view; one that is complete reads no more. */
  ghost predicate Caught(v: View, at: nat, p: Progress) {
    Contiguous(v.log, at, p.sent) && (p.complete || StandsIn(v, p.last, at + |p.sent|))
  }

  lemma {:induction false} StillCaught(v: View, w: View, at: nat, p: Progress)
    requires Succeeds(v, w) && Caught(v, at, p) && (p.complete || w.trimmed <= at + |p.sent|)
    ensures Caught(w, at, p)
  {
    Longer(v.log, w.log, at, p.sent);
  }

  lemma {:induction false} BatchIsCaught(v: View, at: nat, p: Progress, events: seq<Event>)
    requires Caught(v, at, p) && Contiguous(v.log, at + |p.sent|, events)
    requires StandsIn(v, LastId(events, p.last), at + |p.sent| + |events|)
    ensures Caught(v, at, Next(p, events))
  {
    Join(v.log, at, p.sent, events);
  }

  lemma {:induction false} NextIsCaught(v: View, w: View, at: nat, p: Progress, count: nat)
    requires Succeeds(v, w) && Caught(v, at, p) && (p.complete || w.trimmed <= at + |p.sent|)
    ensures Caught(w, at, Next(p, Read(w, p.last, count)))
  {
    StillCaught(v, w, at, p);
    if !p.complete {
      ReadAdvances(w, p.last, at + |p.sent|, count);
      BatchIsCaught(w, at, p, Read(w, p.last, count));
    }
  }

  // ------------------------------------------------------------------ one connection

  /**
    The first `at` events are behind the client: those up to its cursor, if it has one that the gap
    check lets pass; else those that are trimmed when the history is read.
  */
  ghost predicate StartsAt(views: seq<View>, cursor: Option<Id>, at: nat)
    requires |views| >= 2
  {
    if cursor.Some? && !GapAfter(views[0], cursor.value) then Stands(views[0].log, cursor.value, at)
    else at == views[1].trimmed
  }

  /** A connection in which trimming never passes the reader. */
  ghost predicate InTime(views: seq<View>, cursor: Option<Id>, at: nat, limit: nat, batch: nat) {
    && |views| >= 2 && Succession(views) && StartsAt(views, cursor, at)
    && forall k: nat :: 1 <= k < |views| ==> NotPassed(views, StartId(views[0], cursor), at, limit, batch, k)
  }

  ghost predicate NotPassed(views: seq<View>, start: Id, at: nat, limit: nat, batch: nat, k: nat)
    requires 1 <= k < |views|
  {
    var p := Seen(Reader(views, limit, batch), start, k);
    p.complete || views[k].trimmed <= at + |p.sent|
  }

  lemma {:induction false} SeenUnfolds(views: seq<View>, start: Id, limit: nat, batch: nat, k: nat)
    requires 1 <= k < |views|
    ensures var read := Reader(views, limit, batch);
            var p := Seen(read, start, k);
            Seen(read, start, k + 1) == Next(p, Read(views[k], p.last, if k == 1 then limit else batch))
  {
  }

  lemma {:induction false} RoundIsCaught(views: seq<View>, v: View, start: Id, at: nat, limit: nat, batch: nat, k: nat)
    requires 1 <= k < |views| && Succeeds(v, views[k]) && NotPassed(views, start, at, limit, batch, k)
    requires Caught(v, at, Seen(Reader(views, limit, batch), start, k))
    ensures Caught(views[k], at, Seen(Reader(views, limit, batch), start, k + 1))
  {
    SeenUnfolds(views, start, limit, batch, k);
    NextIsCaught(v, views[k], at, Seen(Reader(views, limit, batch), start, k), if k == 1 then limit else batch);
  }

  /** Before the history is read nothing has been sent. */
  lemma {:induction false} StartIsCaught(views: seq<View>, cursor: Option<Id>, at: nat, limit: nat, batch: nat)
    requires InTime(views, cursor, at, limit, batch)
    ensures Caught(views[1], at, Seen(Reader(views, limit, batch), StartId(views[0], cursor), 1))
  {
    assert Succeeds(views[0], views[1]);
  }

  lemma {:induction false} RoundsAreCaught(
    views: seq<View>, cursor: Option<Id>, at: nat, limit: nat, batch: nat, k: nat)
    requires InTime(views, cursor, at, limit, batch) && 2 <= k <= |views|
    ensures Caught(views[k - 1], at, Seen(Reader(views, limit, batch), StartId(views[0], cursor), k))
    decreases k
  {
    var start := StartId(views[0], cursor);
    assert NotPassed(views, start, at, limit, batch, k - 1);
    if k == 2 {
      StartIsCaught(views, cursor, at, limit, batch);
      RoundIsCaught(views, views[1], start, at, limit, batch, 1);
    } else {
      RoundsAreCaught(views, cursor, at, limit, batch, k - 1);
      RoundIsCaught(views, views[k - 2], start, at, limit, batch, k - 1);
    }
  }

  /**
    A connection sends the events of the log from its start on: after the cursor; from the trimmed
    part on, for a client without a cursor or one that was told of a gap.
  */
  lemma {:induction false} SessionIsContiguous(
    views: seq<View>, cursor: Option<Id>, at: nat, limit: nat, batch: nat, log: seq<Event>)
    requires InTime(views, cursor, at, limit, batch) && views[|views| - 1].log <= log
    ensures Contiguous(log, at, Session(views, cursor, limit, batch))
  {
    RoundsAreCaught(views, cursor, at, limit, batch, |views|);
    Longer(views[|views| - 1].log, log, at, Session(views, cursor, limit, batch));
  }

  /** From one progress to the next, all events of the view are sent or `count` of them, unless the job has ended. */
  ghost predicate SendsAll(v: View, at: nat, before: Progress, after: Progress, count: nat) {
    HasComplete(before.sent) || at + |after.sent| == Min(at + |before.sent| + count, |v.log|)
  }

  lemma {:induction false} NextSendsAll(v: View, at: nat, p: Progress, count: nat)
    requires p.complete <==> HasComplete(p.sent)
    requires !p.complete ==> ReadyToRead(v, at, p)
    ensures SendsAll(v, at, p, Next(p, Read(v, p.last, count)), count)
  {
    if !p.complete {
      ReadLength(v, p.last, at + |p.sent|, count);
    }
  }

  /** Until it has sent the end of the job, each round sends all there is, or as much as its read may return. */
  lemma {:induction false} RoundSendsAll(
    views: seq<View>, cursor: Option<Id>, at: nat, limit: nat, batch: nat, k: nat)
    requires InTime(views, cursor, at, limit, batch) && 1 <= k < |views|
    ensures var read, start := Reader(views, limit, batch), StartId(views[0], cursor);
            SendsAll(views[k], at, Seen(read, start, k), Seen(read, start, k + 1), if k == 1 then limit else batch)
  {
    var read, start := Reader(views, limit, batch), StartId(views[0], cursor);
    EndsExactly(read, start, k);
    RoundStands(views, cursor, at, limit, batch, k);
    SeenUnfolds(views, start, limit, batch, k);
    NextSendsAll(views[k], at, Seen(read, start, k), if k == 1 then limit else batch);
  }

  /** The reader stands in the view, where nothing has been trimmed. */
  ghost predicate ReadyToRead(v: View, at: nat, p: Progress) {
    ValidView(v) && StandsIn(v, p.last, at + |p.sent|) && v.trimmed <= at + |p.sent| <= |v.log|
  }

  /** Where a connection stands when it reads a view. */
  lemma {:induction false} RoundStands(
    views: seq<View>, cursor: Option<Id>, at: nat, limit: nat, batch: nat, k: nat)
    requires InTime(views, cursor, at, limit, batch) && 1 <= k < |views|
    ensures var p := Seen(Reader(views, limit, batch), StartId(views[0], cursor), k);
            !p.complete ==> ReadyToRead(views[k], at, p)
  {
    var start := StartId(views[0], cursor);
    assert NotPassed(views, start, at, limit, batch, k);
    if k == 1 {
      StartIsCaught(views, cursor, at, limit, batch);
      StandsNow(views[1], views[1], at, Seen(Reader(views, limit, batch), start, 1));
    } else {
      RoundsAreCaught(views, cursor, at, limit, batch, k);
      StandsNow(views[k - 1], views[k], at, Seen(Reader(views, limit, batch), start, k));
    }
  }

  lemma {:induction false} StandsNow(v: View, w: View, at: nat, p: Progress)
    requires Succeeds(v, w) && Caught(v, at, p) && (p.complete || w.trimmed <= at + |p.sent|)
    ensures !p.complete ==> ReadyToRead(w, at, p)
  {
    StillCaught(v, w, at, p);
  }

  lemma {:induction false} ReadLength(v: View, last: Id, at: nat, count: nat)
    requires ValidView(v) && StandsIn(v, last, at) && v.trimmed <= at <= |v.log|
    ensures at + |Read(v, last, count)| == Min(at + count, |v.log|)
  {
    ReadIsSlice(v, last, if Stands(v.log, last, at) then at else 0, count);
  }

  // ------------------------------------------------------------------ reconnecting

  /** All events that a client has received, and the cursor with which it comes back. */
  datatype Client = Client(received: seq<Event>, cursor: Option<Id>)

  /** A client after `n` connections, each with the id of the last event it received. */
  ghost function Delivered(
    connections: seq<seq<View>>, cursor: Option<Id>, limit: nat, batch: nat, n: nat): Client
    requires n <= |connections|
  {
    if n == 0 then Client([], cursor)
    else
      var c := Delivered(connections, cursor, limit, batch, n - 1);
      var sent := if |connections[n - 1]| < 2 then [] else Session(connections[n - 1], c.cursor, limit, batch);
      Client(c.received + sent, if sent == [] then c.cursor else Some(sent[|sent| - 1].id))
  }

  /** A client comes back in time, to a stream that ends up as `log`. */
  ghost predicate GoesOn(c: Client, views: seq<View>, at: nat, limit: nat, batch: nat, log: seq<Event>) {
    InTime(views, c.cursor, at + |c.received|, limit, batch) && views[|views| - 1].log <= log
  }

  lemma {:induction false} ClientIsContiguous(
    c: Client, views: seq<View>, at: nat, limit: nat, batch: nat, log: seq<Event>)
    requires GoesOn(c, views, at, limit, batch, log) && Contiguous(log, at, c.received)
    ensures |views| >= 2 && Contiguous(log, at, c.received + Session(views, c.cursor, limit, batch))
  {
    SessionIsContiguous(views, c.cursor, at + |c.received|, limit, batch, log);
    Join(log, at, c.received, Session(views, c.cursor, limit, batch));
  }

  /** Connection `n` goes on where the client is. */
  ghost predicate ConnectsInTime(
    connections: seq<seq<View>>, cursor: Option<Id>, at: nat, limit: nat, batch: nat, log: seq<Event>, n: nat)
    requires n < |connections|
  {
    GoesOn(Delivered(connections, cursor, limit, batch, n), connections[n], at, limit, batch, log)
  }

  lemma {:induction false} DeliveredNext(
    connections: seq<seq<View>>, cursor: Option<Id>, limit: nat, batch: nat, n: nat)
    requires n < |connections| && |connections[n]| >= 2
    ensures var c := Delivered(connections, cursor, limit, batch, n);
            Delivered(connections, cursor, limit, batch, n + 1).received ==
            c.received + Session(connections[n], c.cursor, limit, batch)
  {
  }

  lemma {:induction false} ConnectionIsContiguous(
    connections: seq<seq<View>>, cursor: Option<Id>, at: nat, limit: nat, batch: nat, log: seq<Event>, n: nat)
    requires n < |connections| && ConnectsInTime(connections, cursor, at, limit, batch, log, n)
    requires Contiguous(log, at, Delivered(connections, cursor, limit, batch, n).received)
    ensures Contiguous(log, at, Delivered(connections, cursor, limit, batch, n + 1).received)
  {
    ClientIsContiguous(Delivered(connections, cursor, limit, batch, n), connections[n], at, limit, batch, log);
    DeliveredNext(connections, cursor, limit, batch, n);
  }

  /**
    Over any chain of reconnects, from a cursor or without one, the events delivered are the events of
    the log from the start of the first connection on: in order, none missing, none twice.
  */
  lemma {:induction false} ResumeIsExact(
    connections: seq<seq<View>>, cursor: Option<Id>, at: nat, limit: nat, batch: nat, log: seq<Event>, n: nat)
    requires n <= |connections| && at <= |log|
    requires forall i :: 0 <= i < |connections| ==> ConnectsInTime(connections, cursor, at, limit, batch, log, i)
    ensures Contiguous(log, at, Delivered(connections, cursor, limit, batch, n).received)
    decreases n
  {
    if n > 0 {
      ResumeIsExact(connections, cursor, at, limit, batch, log, n - 1);
      assert ConnectsInTime(connections, cursor, at, limit, batch, log, n - 1);
      ConnectionIsContiguous(connections, cursor, at, limit, batch, log, n - 1);
      assert Contiguous(log, at, Delivered(connections, cursor, limit, batch, n).received);
    }
  }
}

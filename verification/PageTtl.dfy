/**
  Expiry of the records of one job.  Every applied transition renews the job and the page; once half
  the time to live has passed since the last sweep, it renews all pages, started or not.
*/
module PageTtl {
  /** When each page hash and the job hash expire, and when the pages were last renewed together. */
  datatype Clocks = Clocks(pages: seq<real>, job: real, renewedAt: real)

  function Fresh(total: nat, now: real, ttl: real): (c: Clocks)
    ensures |c.pages| == total && forall p :: 0 <= p < total ==> c.pages[p] == now + ttl
  {
    Clocks(seq(total, _ => now + ttl), now + ttl, now)
  }

  predicate Alive(c: Clocks, now: real) {
    now < c.job && forall p :: 0 <= p < |c.pages| ==> now < c.pages[p]
  }

  predicate Sweeps(c: Clocks, now: real, ttl: real) {
    now - c.renewedAt > ttl / 2.0
  }

  /** `PEXPIRE`, which does nothing to a key that is gone. */
  function Pexpire(expiry: real, now: real, ttl: real): real {
    if now < expiry then now + ttl else expiry
  }

  /** An applied transition of page `p`; it needs the page hash and the job hash. */
  function Renewed(c: Clocks, p: nat, now: real, ttl: real): (r: Clocks)
    requires p < |c.pages|
    ensures |r.pages| == |c.pages|
  {
    if Sweeps(c, now, ttl) then
      Clocks(seq(|c.pages|, i requires 0 <= i < |c.pages| => Pexpire(c.pages[i], now, ttl)),
             Pexpire(c.job, now, ttl), now)
    else
      Clocks(c.pages[p := Pexpire(c.pages[p], now, ttl)], Pexpire(c.job, now, ttl), c.renewedAt)
  }

  class JobRecords {
    const ttl: real
    var pages: seq<real>
    var job: real
    var renewedAt: real

    ghost function Value(): Clocks
      reads this
    {
      Clocks(pages, job, renewedAt)
    }

    constructor (total: nat, now: real, ttl: real)
      ensures this.ttl == ttl && Value() == Fresh(total, now, ttl)
    {
      this.ttl := ttl;
      pages, job, renewedAt := seq(total, _ => now + ttl), now + ttl, now;
    }

    method Renew(p: nat, now: real)
      requires p < |pages|
      modifies this
      ensures Value() == Renewed(old(Value()), p, now, ttl)
    {
      ghost var before := Value();
      pages := pages[p := Pexpire(pages[p], now, ttl)];
      job := Pexpire(job, now, ttl);
      if now - renewedAt > ttl / 2.0 {
        renewedAt := now;
        for index := 0 to |pages|
          invariant |pages| == |before.pages| && job == Pexpire(before.job, now, ttl) && renewedAt == now
          invariant forall i :: 0 <= i < index ==> pages[i] == Pexpire(before.pages[i], now, ttl)
          invariant forall i :: index <= i < |pages| && i != p ==> pages[i] == before.pages[i]
          invariant index <= p ==> pages[p] == Pexpire(before.pages[p], now, ttl)
        {
          RenewTwice(before.pages[p], now, ttl);
          pages := pages[index := Pexpire(pages[index], now, ttl)];
        }
        assert pages == Renewed(before, p, now, ttl).pages;
      }
    }
  }

  lemma {:induction false} RenewTwice(expiry: real, now: real, ttl: real)
    ensures Pexpire(Pexpire(expiry, now, ttl), now, ttl) == Pexpire(expiry, now, ttl)
  {
  }

  // ------------------------------------------------------------------ runs

  /** The applied transitions of a job: which page and when. */
  datatype Touch = Touch(page: nat, now: real)

  /** Each transition is on a page of the job and follows the one before within less than `gap`. */
  ghost predicate Paced(total: nat, start: real, touches: seq<Touch>, gap: real) {
    forall k :: 0 <= k < |touches| ==>
      touches[k].page < total && 0.0 <= touches[k].now - TimeOf(start, touches, k) < gap
  }

  /** The time of the transition before transition `k`, or of the creation of the job. */
  function TimeOf(start: real, touches: seq<Touch>, k: nat): real
    requires k <= |touches|
  {
    if k == 0 then start else touches[k - 1].now
  }

  function After(total: nat, start: real, touches: seq<Touch>, ttl: real, n: nat): (c: Clocks)
    requires n <= |touches| && forall k :: 0 <= k < |touches| ==> touches[k].page < total
    ensures |c.pages| == total
  {
    if n == 0 then Fresh(total, start, ttl)
    else Renewed(After(total, start, touches, ttl, n - 1), touches[n - 1].page, touches[n - 1].now, ttl)
  }

  /** Every page has a full time to live from the last sweep, which is at most half of that ago. */
  ghost predicate Inv(c: Clocks, now: real, ttl: real) {
    && c.renewedAt <= now <= c.renewedAt + ttl / 2.0 && c.job == now + ttl
    && forall p :: 0 <= p < |c.pages| ==> c.pages[p] >= c.renewedAt + ttl
  }

  lemma {:induction false} NothingExpires(total: nat, start: real, touches: seq<Touch>, ttl: real, n: nat)
    requires ttl > 0.0 && n <= |touches| && Paced(total, start, touches, ttl / 2.0)
    ensures Inv(After(total, start, touches, ttl, n), TimeOf(start, touches, n), ttl)
    decreases n
  {
    if n > 0 {
      NothingExpires(total, start, touches, ttl, n - 1);
      var before, now := After(total, start, touches, ttl, n - 1), touches[n - 1].now;
      assert now - TimeOf(start, touches, n - 1) < ttl / 2.0;
      assert Alive(before, now);
    }
  }

  /** At every transition of every job that is touched more often than each `gap`, all its records are there. */
  ghost predicate Safe(ttl: real, gap: real) {
    forall total: nat, start: real, touches: seq<Touch>, n: nat ::
      n < |touches| && Paced(total, start, touches, gap) ==>
      Alive(After(total, start, touches, ttl, n), touches[n].now)
  }

  /** Half the time to live is exactly the pace that keeps all records, those of unstarted pages included. */
  lemma {:induction false} HalfTtlExactly(ttl: real, gap: real)
    requires ttl > 0.0
    ensures Safe(ttl, gap) <==> gap <= ttl / 2.0
  {
    if gap <= ttl / 2.0 {
      forall total: nat, start: real, touches: seq<Touch>, n: nat | n < |touches| && Paced(total, start, touches, gap)
        ensures Alive(After(total, start, touches, ttl, n), touches[n].now)
      {
        assert Paced(total, start, touches, ttl / 2.0);
        NothingExpires(total, start, touches, ttl, n);
        assert touches[n].now - TimeOf(start, touches, n) < ttl / 2.0;
      }
    } else {
      UnstartedPageExpires(ttl, gap);
    }
  }

  /** Two pages, one of them never started, and a transition at every half of the time to live. */
  lemma {:induction false} UnstartedPageExpires(ttl: real, gap: real)
    requires ttl > 0.0 && gap > ttl / 2.0
    ensures !Safe(ttl, gap)
  {
    var touches := [Touch(0, ttl / 2.0), Touch(0, ttl)];
    assert Paced(2, 0.0, touches, gap);
    var c := After(2, 0.0, touches, ttl, 1);
    assert After(2, 0.0, touches, ttl, 0) == Fresh(2, 0.0, ttl);
    assert c.pages[1] == ttl;
    assert !Alive(c, touches[1].now);
  }

  // ------------------------------------------------------------------ sweeps are rare

  lemma {:induction false} MarkerGrows(total: nat, start: real, touches: seq<Touch>, ttl: real, i: nat, j: nat)
    requires ttl > 0.0 && i <= j <= |touches| && forall k :: 0 <= k < |touches| ==> touches[k].page < total
    ensures After(total, start, touches, ttl, i).renewedAt <= After(total, start, touches, ttl, j).renewedAt
    decreases j
  {
    if i < j {
      MarkerGrows(total, start, touches, ttl, i, j - 1);
    }
  }

  /** Any two sweeps are more than half the time to live apart, whatever the pace of the transitions. */
  lemma {:induction false} SweepsApart(total: nat, start: real, touches: seq<Touch>, ttl: real, i: nat, j: nat)
    requires ttl > 0.0 && i < j < |touches| && forall k :: 0 <= k < |touches| ==> touches[k].page < total
    requires Sweeps(After(total, start, touches, ttl, i), touches[i].now, ttl)
    requires Sweeps(After(total, start, touches, ttl, j), touches[j].now, ttl)
    ensures touches[j].now - touches[i].now > ttl / 2.0
  {
    MarkerGrows(total, start, touches, ttl, i + 1, j);
  }
}

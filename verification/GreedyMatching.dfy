/**
  Greedy matching of predicted and true boxes on descending score, for any scores.

  The result is the one stable matching: one-to-one, and every pair left out is blocked by a better
  pair that was taken.  From that follow its guarantees against every other one-to-one matching.
*/
module GreedyMatching {
  import opened Sorting

  /** Predicted box `i` and true box `j` overlap with this score. */
  datatype Pair = Pair(score: real, i: nat, j: nat)

  predicate Conflict(a: Pair, b: Pair) {
    a.i == b.i || a.j == b.j
  }

  /** The sort key: descending score, then ascending indices. */
  predicate Before(a: Pair, b: Pair) {
    a.score > b.score || (a.score == b.score && (a.i < b.i || (a.i == b.i && a.j <= b.j)))
  }

  lemma {:induction false} BeforeIsTotal()
    ensures TotalOrder(Before)
  {
  }

  /** The candidates in the order in which they are considered. */
  function Ranked(s: seq<Pair>): seq<Pair> {
    Sorted(s, Before)
  }

  lemma {:induction false} RankedIsOrdered(s: seq<Pair>)
    ensures Ordered(Ranked(s), Before)
    ensures forall a :: a in Ranked(s) <==> a in s
  {
    BeforeIsTotal();
    SortedIsOrdered(s, Before);
    forall a ensures a in Ranked(s) <==> a in s {
      SameElements(s, Before, a);
    }
  }

  // ------------------------------------------------------------------ the greedy choice

  predicate Free(taken: seq<Pair>, a: Pair) {
    forall b :: b in taken ==> !Conflict(b, a)
  }

  function Greedy(s: seq<Pair>): (r: seq<Pair>)
    ensures forall b :: b in r ==> b in s
  {
    if s == [] then []
    else
      var taken := Greedy(s[..|s| - 1]);
      if Free(taken, s[|s| - 1]) then taken + [s[|s| - 1]] else taken
  }

  /** No index is used twice. */
  predicate OneToOne(m: seq<Pair>) {
    m == [] || (OneToOne(m[..|m| - 1]) && Free(m[..|m| - 1], m[|m| - 1]))
  }

  /** Pair `a` is left out because of `b`. */
  predicate Blocks(b: Pair, a: Pair) {
    b != a && Conflict(b, a) && Before(b, a)
  }

  /** One-to-one on `s`, and whatever is left out is blocked. */
  ghost predicate Stable(s: seq<Pair>, m: seq<Pair>) {
    && OneToOne(m)
    && (forall a :: a in m ==> a in s)
    && (forall a :: a in s ==> a in m || exists b :: b in m && Blocks(b, a))
  }

  lemma {:induction false} GreedyIsStable(s: seq<Pair>)
    requires Ordered(s, Before)
    ensures Stable(s, Greedy(s))
  {
    if s != [] {
      var front, last := s[..|s| - 1], s[|s| - 1];
      GreedyIsStable(front);
      var taken, now := Greedy(front), Greedy(s);
      assert s == front + [last];
      assert Free(taken, last) ==> now[..|now| - 1] == taken;
      forall a | a in s ensures a in now || exists b :: b in now && Blocks(b, a) {
        if a in front {
          if a !in taken {
            var b :| b in taken && Blocks(b, a);
            assert b in now;
          }
        } else if a !in now {
          var b :| b in taken && Conflict(b, last);
          assert b in front && b in now && Blocks(b, a);
        }
      }
    }
  }

  lemma {:induction false} OneToOneApart(m: seq<Pair>, a: Pair, b: Pair)
    requires OneToOne(m) && a in m && b in m && Conflict(a, b)
    ensures a == b
  {
    var front, last := m[..|m| - 1], m[|m| - 1];
    assert m == front + [last];
    if a in front && b in front {
      OneToOneApart(front, a, b);
    }
  }

  /** On `s`, whatever `m` leaves out is blocked from within `s`. */
  ghost predicate Settles(s: seq<Pair>, m: seq<Pair>) {
    forall a :: a in s ==> a in m || exists b :: b in m && b in s && Blocks(b, a)
  }

  lemma {:induction false} SettlesFront(s: seq<Pair>, m: seq<Pair>)
    requires s != [] && Ordered(s, Before) && Settles(s, m)
    ensures Settles(s[..|s| - 1], m)
  {
    var front, last := s[..|s| - 1], s[|s| - 1];
    assert s == front + [last];
    forall a | a in front && a !in m ensures exists b :: b in m && b in front && Blocks(b, a) {
      var b :| b in m && b in s && Blocks(b, a);
      assert b in front;
    }
  }

  lemma {:induction false} SettlesAlike(s: seq<Pair>, m: seq<Pair>, a: Pair)
    requires Ordered(s, Before) && OneToOne(m) && Settles(s, m) && a in s
    ensures a in m <==> a in Greedy(s)
  {
    var front, last := s[..|s| - 1], s[|s| - 1];
    assert s == front + [last];
    SettlesFront(s, m);
    forall b | b in front ensures b in m <==> b in Greedy(front) {
      SettlesAlike(front, m, b);
    }
    if a in front {
      GreedyKeeps(s, a);
    } else {
      assert a == last;
      if a in m {
        forall b | b in Greedy(front) ensures !Conflict(b, a) {
          if Conflict(b, a) {
            OneToOneApart(m, b, a);
          }
        }
      } else {
        var b :| b in m && b in s && Blocks(b, a);
        assert b in Greedy(front) && !Free(Greedy(front), last);
      }
    }
  }

  /** What comes later does not change the choice among what came before. */
  lemma {:induction false} GreedyKeeps(s: seq<Pair>, a: Pair)
    requires s != [] && a in s[..|s| - 1]
    ensures a in Greedy(s) <==> a in Greedy(s[..|s| - 1])
  {
    if a !in Greedy(s[..|s| - 1]) {
      GreedyCovers(s[..|s| - 1], a);
    }
  }

  lemma {:induction false} GreedyCovers(s: seq<Pair>, a: Pair)
    requires a in s && a !in Greedy(s)
    ensures exists b :: b in Greedy(s) && Conflict(b, a)
  {
    var front, last := s[..|s| - 1], s[|s| - 1];
    assert s == front + [last];
    if a in front {
      GreedyCovers(front, a);
      var b :| b in Greedy(front) && Conflict(b, a);
      assert b in Greedy(s);
    } else {
      var b :| b in Greedy(front) && Conflict(b, last);
      assert b in Greedy(s);
    }
  }

  /** There is one stable matching, and greedy matching finds it. */
  lemma {:induction false} StableIsUnique(s: seq<Pair>, m: seq<Pair>, a: Pair)
    requires Ordered(s, Before) && Stable(s, m)
    ensures a in m <==> a in Greedy(s)
  {
    if a in s {
      SettlesAlike(s, m, a);
    }
  }

  // ------------------------------------------------------------------ against any other matching

  /** A worth of scores that is never negative and grows with the score. */
  ghost predicate Worth(w: real -> real) {
    && (forall x :: w(x) >= 0.0)
    && (forall x, y :: x <= y ==> w(x) <= w(y))
  }

  function Total(w: real -> real, m: seq<Pair>): real {
    if m == [] then 0.0 else Total(w, m[..|m| - 1]) + w(m[|m| - 1].score)
  }

  /** The worth of the pairs of `m` that use index `k`; `side` tells which index is meant. */
  ghost function Charged(w: real -> real, m: seq<Pair>, side: Pair -> nat, k: nat): (r: real) {
    if m == [] then 0.0
    else Charged(w, m[..|m| - 1], side, k) + (if side(m[|m| - 1]) == k then w(m[|m| - 1].score) else 0.0)
  }

  ghost predicate Distinct(n: seq<Pair>, side: Pair -> nat) {
    n == [] || (Distinct(n[..|n| - 1], side) && forall a :: a in n[..|n| - 1] ==> side(a) != side(n[|n| - 1]))
  }

  /** What the pairs of `n` charge to `m` on one side. */
  ghost function AllCharged(w: real -> real, m: seq<Pair>, side: Pair -> nat, n: seq<Pair>): real {
    if n == [] then 0.0
    else AllCharged(w, m, side, n[..|n| - 1]) + Charged(w, m, side, side(n[|n| - 1]))
  }

  /** The part of it that goes to one pair `b`. */
  ghost function ChargedTo(w: real -> real, b: Pair, side: Pair -> nat, n: seq<Pair>): real {
    if n == [] then 0.0
    else ChargedTo(w, b, side, n[..|n| - 1]) + (if side(b) == side(n[|n| - 1]) then w(b.score) else 0.0)
  }

  /** On one side no pair is charged twice. */
  lemma {:induction false} ChargedOnce(w: real -> real, b: Pair, side: Pair -> nat, n: seq<Pair>)
    requires Worth(w) && Distinct(n, side)
    ensures 0.0 <= ChargedTo(w, b, side, n) <= w(b.score)
    ensures (forall a :: a in n ==> side(a) != side(b)) ==> ChargedTo(w, b, side, n) == 0.0
  {
    if n != [] {
      ChargedOnce(w, b, side, n[..|n| - 1]);
    }
  }

  lemma {:induction false} ChargesSplit(w: real -> real, m: seq<Pair>, side: Pair -> nat, n: seq<Pair>)
    requires m != []
    ensures AllCharged(w, m, side, n) == AllCharged(w, m[..|m| - 1], side, n) + ChargedTo(w, m[|m| - 1], side, n)
  {
    if n != [] {
      ChargesSplit(w, m, side, n[..|n| - 1]);
    }
  }

  lemma {:induction false} ChargesFit(w: real -> real, m: seq<Pair>, side: Pair -> nat, n: seq<Pair>)
    requires Worth(w) && Distinct(n, side)
    ensures AllCharged(w, m, side, n) <= Total(w, m)
  {
    if m == [] {
      NothingCharged(w, side, n);
    } else {
      ChargesSplit(w, m, side, n);
      ChargesFit(w, m[..|m| - 1], side, n);
      ChargedOnce(w, m[|m| - 1], side, n);
    }
  }

  lemma {:induction false} NothingCharged(w: real -> real, side: Pair -> nat, n: seq<Pair>)
    ensures AllCharged(w, [], side, n) == 0.0
  {
    if n != [] {
      NothingCharged(w, side, n[..|n| - 1]);
    }
  }

  lemma {:induction false} ChargedCovers(w: real -> real, m: seq<Pair>, side: Pair -> nat, k: nat)
    requires Worth(w)
    ensures Charged(w, m, side, k) >= 0.0
    ensures forall b :: b in m && side(b) == k ==> w(b.score) <= Charged(w, m, side, k)
  {
    if m != [] {
      ChargedCovers(w, m[..|m| - 1], side, k);
      assert m == m[..|m| - 1] + [m[|m| - 1]];
    }
  }

  function Left(a: Pair): nat { a.i }
  function Right(a: Pair): nat { a.j }

  lemma {:induction false} OneToOneDistinct(n: seq<Pair>)
    requires OneToOne(n)
    ensures Distinct(n, Left) && Distinct(n, Right)
  {
    if n != [] {
      OneToOneDistinct(n[..|n| - 1]);
    }
  }

  /** Every pair is worth at most what it charges on its two sides to a stable matching. */
  lemma {:induction false} PairPaid(w: real -> real, s: seq<Pair>, m: seq<Pair>, a: Pair)
    requires Worth(w) && Stable(s, m) && a in s
    ensures w(a.score) <= Charged(w, m, Left, Left(a)) + Charged(w, m, Right, Right(a))
  {
    ChargedCovers(w, m, Left, Left(a));
    ChargedCovers(w, m, Right, Right(a));
    if a !in m {
      var b :| b in m && Blocks(b, a);
      assert w(a.score) <= w(b.score);
      assert Left(b) == Left(a) || Right(b) == Right(a);
    }
  }

  lemma {:induction false} MatchingPaid(w: real -> real, s: seq<Pair>, m: seq<Pair>, n: seq<Pair>)
    requires Worth(w) && Stable(s, m) && (forall a :: a in n ==> a in s)
    ensures Total(w, n) <= AllCharged(w, m, Left, n) + AllCharged(w, m, Right, n)
  {
    if n != [] {
      MatchingPaid(w, s, m, n[..|n| - 1]);
      PairPaid(w, s, m, n[|n| - 1]);
    }
  }

  /** No one-to-one matching is worth more than twice the greedy one. */
  lemma {:induction false} GreedyIsHalfOptimal(w: real -> real, s: seq<Pair>, n: seq<Pair>)
    requires Worth(w) && Ordered(s, Before) && OneToOne(n) && (forall a :: a in n ==> a in s)
    ensures Total(w, n) <= 2.0 * Total(w, Greedy(s))
  {
    GreedyIsStable(s);
    OneToOneDistinct(n);
    MatchingPaid(w, s, Greedy(s), n);
    ChargesFit(w, Greedy(s), Left, n);
    ChargesFit(w, Greedy(s), Right, n);
  }

  // ------------------------------------------------------------------ thresholds

  function AtLeast(s: seq<Pair>, t: real): (r: seq<Pair>)
    ensures forall a :: a in r <==> a in s && a.score >= t
  {
    if s == [] then []
    else
      assert s == s[..|s| - 1] + [s[|s| - 1]];
      AtLeast(s[..|s| - 1], t) + if s[|s| - 1].score >= t then [s[|s| - 1]] else []
  }

  lemma {:induction false} AtLeastAll(s: seq<Pair>, t: real)
    requires forall a :: a in s ==> a.score >= t
    ensures AtLeast(s, t) == s
  {
    if s != [] {
      assert s == s[..|s| - 1] + [s[|s| - 1]];
      AtLeastAll(s[..|s| - 1], t);
    }
  }

  lemma {:induction false} WeakIsDropped(s: seq<Pair>, a: Pair, t: real)
    requires a.score < t
    ensures AtLeast(s + [a], t) == AtLeast(s, t)
  {
    assert (s + [a])[..|s|] == s;
  }

  /** Dropping weak matches afterwards is the same as dropping weak pairs beforehand. */
  lemma {:induction false} ThresholdCommutes(s: seq<Pair>, t: real)
    requires Ordered(s, Before)
    ensures AtLeast(Greedy(s), t) == Greedy(AtLeast(s, t))
  {
    if s != [] {
      var front, last := s[..|s| - 1], s[|s| - 1];
      assert s == front + [last];
      if last.score >= t {
        AtLeastAll(s, t);
        AtLeastAll(Greedy(s), t);
      } else {
        ThresholdCommutes(front, t);
        WeakIsDropped(front, last, t);
        WeakIsDropped(Greedy(front), last, t);
        assert Greedy(s) == Greedy(front) || Greedy(s) == Greedy(front) + [last];
      }
    }
  }
}

/** Matching predicted boxes to true boxes, and scoring the match at a threshold. */
module BoxMatching {
  import opened Options
  import opened BoxGeometry
  import opened Sorting
  import opened GreedyMatching

  // ------------------------------------------------------------------ candidate pairs

  /** Boxes `a.i` and `a.j` exist and `a` carries their score. */
  predicate IsPair(predicted: seq<Box>, truth: seq<Box>, a: Pair) {
    a.i < |predicted| && a.j < |truth| && a.score == Iou(predicted[a.i], truth[a.j])
  }

  ghost predicate IsAssignment(predicted: seq<Box>, truth: seq<Box>, n: seq<Pair>) {
    OneToOne(n) && forall a :: a in n ==> IsPair(predicted, truth, a)
  }

  /** The overlapping pairs of box `i` with the first `j` true boxes. */
  function Row(predicted: seq<Box>, truth: seq<Box>, i: nat, j: nat): (s: seq<Pair>)
    requires i < |predicted| && j <= |truth|
    ensures forall a :: a in s <==> IsPair(predicted, truth, a) && a.i == i && a.j < j && a.score > 0.0
  {
    if j == 0 then []
    else
      var score := Iou(predicted[i], truth[j - 1]);
      Row(predicted, truth, i, j - 1) + if score > 0.0 then [Pair(score, i, j - 1)] else []
  }

  /** The overlapping pairs of the first `i` predicted boxes. */
  function Rows(predicted: seq<Box>, truth: seq<Box>, i: nat): (s: seq<Pair>)
    requires i <= |predicted|
    ensures forall a :: a in s <==> IsPair(predicted, truth, a) && a.i < i && a.score > 0.0
  {
    if i == 0 then [] else Rows(predicted, truth, i - 1) + Row(predicted, truth, i - 1, |truth|)
  }

  function Candidates(predicted: seq<Box>, truth: seq<Box>): (s: seq<Pair>)
    ensures forall a :: a in s <==> IsPair(predicted, truth, a) && a.score > 0.0
  {
    Rows(predicted, truth, |predicted|)
  }

  function Matches(predicted: seq<Box>, truth: seq<Box>): seq<Pair> {
    Greedy(Ranked(Candidates(predicted, truth)))
  }

  // ------------------------------------------------------------------ match_boxes

  datatype Matching = Matching(matches: seq<Pair>, unmatchedPredicted: seq<nat>, unmatchedTruth: seq<nat>)

  predicate AllValid(boxes: seq<Box>) {
    forall i :: 0 <= i < |boxes| ==> boxes[i].Valid()
  }

  /** The indices below `n` that are not claimed, in order. */
  function Unclaimed(n: nat, claimed: set<nat>): seq<nat> {
    if n == 0 then [] else Unclaimed(n - 1, claimed) + if n - 1 in claimed then [] else [n - 1]
  }

  lemma {:induction false} UnclaimedMembers(n: nat, claimed: set<nat>, i: nat)
    ensures i in Unclaimed(n, claimed) <==> i < n && i !in claimed
  {
    if n > 0 {
      UnclaimedMembers(n - 1, claimed, i);
    }
  }

  /** What is not listed was claimed. */
  lemma {:induction false} UnclaimedCount(n: nat, claimed: set<nat>)
    ensures |Unclaimed(n, claimed)| + |Below(n, claimed)| == n
  {
    if n > 0 {
      UnclaimedCount(n - 1, claimed);
      if n - 1 in claimed {
        assert Below(n, claimed) == Below(n - 1, claimed) + {n - 1};
      } else {
        assert Below(n, claimed) == Below(n - 1, claimed);
      }
    }
  }

  ghost function Below(n: nat, claimed: set<nat>): set<nat> {
    set i | i in claimed && i < n
  }

  method ListUnclaimed(n: nat, claimed: set<nat>) returns (s: seq<nat>)
    ensures s == Unclaimed(n, claimed)
  {
    s := [];
    for i := 0 to n
      invariant s == Unclaimed(i, claimed)
    {
      if i !in claimed {
        s := s + [i];
      }
    }
  }

  method CollectCandidates(predicted: seq<Box>, truth: seq<Box>) returns (candidates: seq<Pair>)
    ensures candidates == Candidates(predicted, truth)
  {
    candidates := [];
    for i := 0 to |predicted|
      invariant candidates == Rows(predicted, truth, i)
    {
      candidates := CollectRow(predicted, truth, i, candidates);
    }
  }

  /** The inner loop. */
  method CollectRow(predicted: seq<Box>, truth: seq<Box>, i: nat, before: seq<Pair>) returns (candidates: seq<Pair>)
    requires i < |predicted|
    ensures candidates == before + Row(predicted, truth, i, |truth|)
  {
    candidates := before;
    for j := 0 to |truth|
      invariant candidates == before + Row(predicted, truth, i, j)
    {
      var score := Iou(predicted[i], truth[j]);
      RowNext(predicted, truth, i, j, score);
      if score > 0.0 {
        candidates := candidates + [Pair(score, i, j)];
      }
    }
  }

  lemma {:induction false} RowNext(predicted: seq<Box>, truth: seq<Box>, i: nat, j: nat, score: real)
    requires i < |predicted| && j < |truth| && score == Iou(predicted[i], truth[j])
    ensures Row(predicted, truth, i, j + 1) ==
            if score > 0.0 then Row(predicted, truth, i, j) + [Pair(score, i, j)] else Row(predicted, truth, i, j)
  {
  }

  /** The claimed indices are those of the matches, one per match. */
  ghost predicate Claims(matches: seq<Pair>, claimedPredicted: set<nat>, claimedTruth: set<nat>) {
    && claimedPredicted == (set a | a in matches :: a.i)
    && claimedTruth == (set a | a in matches :: a.j)
    && |claimedPredicted| == |matches| == |claimedTruth|
  }

  method ChooseGreedily(candidates: seq<Pair>)
    returns (matches: seq<Pair>, claimedPredicted: set<nat>, claimedTruth: set<nat>)
    ensures matches == Greedy(candidates)
    ensures Claims(matches, claimedPredicted, claimedTruth)
  {
    matches, claimedPredicted, claimedTruth := [], {}, {};
    for k := 0 to |candidates|
      invariant matches == Greedy(candidates[..k])
      invariant Claims(matches, claimedPredicted, claimedTruth)
    {
      var a := candidates[k];
      TakesNext(candidates, k, claimedPredicted, claimedTruth);
      if a.i in claimedPredicted || a.j in claimedTruth {
        continue;
      }
      claimedPredicted, claimedTruth := claimedPredicted + {a.i}, claimedTruth + {a.j};
      matches := matches + [a];
    }
    assert candidates[..|candidates|] == candidates;
  }

  /** A pair is taken exactly when neither of its boxes is claimed. */
  lemma {:induction false} TakesNext(s: seq<Pair>, k: nat, claimedPredicted: set<nat>, claimedTruth: set<nat>)
    requires k < |s| && Claims(Greedy(s[..k]), claimedPredicted, claimedTruth)
    ensures var m, a := Greedy(s[..k]), s[k];
            if a.i in claimedPredicted || a.j in claimedTruth then Greedy(s[..k + 1]) == m
            else Greedy(s[..k + 1]) == m + [a] && Claims(m + [a], claimedPredicted + {a.i}, claimedTruth + {a.j})
  {
    assert s[..k + 1][..k] == s[..k];
    ClaimsOne(Greedy(s[..k]), s[k], claimedPredicted, claimedTruth);
  }

  lemma {:induction false} ClaimsOne(matches: seq<Pair>, a: Pair, claimedPredicted: set<nat>, claimedTruth: set<nat>)
    requires Claims(matches, claimedPredicted, claimedTruth)
    ensures Free(matches, a) <==> a.i !in claimedPredicted && a.j !in claimedTruth
    ensures Free(matches, a) ==> Claims(matches + [a], claimedPredicted + {a.i}, claimedTruth + {a.j})
  {
  }

  /** The lists of a matching are complete. */
  ghost predicate Complete(m: Matching, predicted: nat, truth: nat) {
    && |m.matches| + |m.unmatchedPredicted| == predicted && |m.matches| + |m.unmatchedTruth| == truth
    && (forall i: nat :: i in m.unmatchedPredicted <==> i < predicted && forall a :: a in m.matches ==> a.i != i)
    && (forall j: nat :: j in m.unmatchedTruth <==> j < truth && forall a :: a in m.matches ==> a.j != j)
  }

  lemma {:induction false} ListsAreComplete(
    matches: seq<Pair>, claimedPredicted: set<nat>, claimedTruth: set<nat>, predicted: nat, truth: nat)
    requires Claims(matches, claimedPredicted, claimedTruth)
    requires forall a :: a in matches ==> a.i < predicted && a.j < truth
    ensures Complete(Matching(matches, Unclaimed(predicted, claimedPredicted), Unclaimed(truth, claimedTruth)),
                     predicted, truth)
  {
    UnclaimedCount(predicted, claimedPredicted);
    UnclaimedCount(truth, claimedTruth);
    assert Below(predicted, claimedPredicted) == claimedPredicted && Below(truth, claimedTruth) == claimedTruth;
    forall i: nat
      ensures i in Unclaimed(predicted, claimedPredicted) <==> i < predicted && i !in claimedPredicted
      ensures i in Unclaimed(truth, claimedTruth) <==> i < truth && i !in claimedTruth
    {
      UnclaimedMembers(predicted, claimedPredicted, i);
      UnclaimedMembers(truth, claimedTruth, i);
    }
  }

  /** A match is a pair of boxes with its score. */
  lemma {:induction false} MatchesArePairs(predicted: seq<Box>, truth: seq<Box>, a: Pair)
    requires a in Matches(predicted, truth)
    ensures IsPair(predicted, truth, a) && a.score > 0.0
  {
    RankedIsOrdered(Candidates(predicted, truth));
    assert a in Candidates(predicted, truth);
  }

  method MatchBoxes(predicted: seq<Box>, truth: seq<Box>) returns (r: Result<Matching>)
    ensures r.Success? <==> AllValid(predicted) && AllValid(truth)
    ensures r.Success? ==> r.value.matches == Matches(predicted, truth)
    ensures r.Success? ==> Complete(r.value, |predicted|, |truth|)
  {
    if !AllValid(predicted) || !AllValid(truth) {
      return Failure;
    }
    var candidates := CollectCandidates(predicted, truth);
    var matches, claimedPredicted, claimedTruth := ChooseGreedily(Ranked(candidates));
    var unmatchedPredicted := ListUnclaimed(|predicted|, claimedPredicted);
    var unmatchedTruth := ListUnclaimed(|truth|, claimedTruth);
    forall a | a in matches ensures IsPair(predicted, truth, a) {
      MatchesArePairs(predicted, truth, a);
    }
    ListsAreComplete(matches, claimedPredicted, claimedTruth, |predicted|, |truth|);
    return Success(Matching(matches, unmatchedPredicted, unmatchedTruth));
  }

  // ------------------------------------------------------------------ what the matching is worth

  /** The matches are the one stable matching of the overlapping pairs, whatever order those come in. */
  lemma {:induction false} MatchesAreStable(predicted: seq<Box>, truth: seq<Box>)
    ensures Stable(Candidates(predicted, truth), Matches(predicted, truth))
    ensures forall m, a :: Stable(Candidates(predicted, truth), m) ==> (a in m <==> a in Matches(predicted, truth))
  {
    var cs := Candidates(predicted, truth);
    RankedIsOrdered(cs);
    GreedyIsStable(Ranked(cs));
    forall m, a | Stable(cs, m) ensures a in m <==> a in Matches(predicted, truth) {
      assert Stable(Ranked(cs), m);
      StableIsUnique(Ranked(cs), m, a);
    }
  }

  /** A pair that overlaps is left out only for a better pair with one of its boxes, or an equal one of lower index. */
  lemma {:induction false} LeftOutForBetter(predicted: seq<Box>, truth: seq<Box>, i: nat, j: nat) returns (b: Pair)
    requires i < |predicted| && j < |truth| && Iou(predicted[i], truth[j]) > 0.0
    requires Pair(Iou(predicted[i], truth[j]), i, j) !in Matches(predicted, truth)
    ensures b in Matches(predicted, truth) && (b.i == i || b.j == j)
    ensures var score := Iou(predicted[i], truth[j]);
            b.score > score || (b.score == score && (b.i < i || (b.i == i && b.j < j)))
  {
    var a := Pair(Iou(predicted[i], truth[j]), i, j);
    MatchesAreStable(predicted, truth);
    assert a in Candidates(predicted, truth);
    b :| b in Matches(predicted, truth) && Blocks(b, a);
  }

  /** The pairs of an assignment that overlap at all. */
  function Overlapping(n: seq<Pair>): (r: seq<Pair>)
    ensures forall a :: a in r <==> a in n && a.score > 0.0
  {
    if n == [] then []
    else
      assert n == n[..|n| - 1] + [n[|n| - 1]];
      Overlapping(n[..|n| - 1]) + if n[|n| - 1].score > 0.0 then [n[|n| - 1]] else []
  }

  lemma {:induction false} OneMore(w: real -> real, m: seq<Pair>, a: Pair)
    requires OneToOne(m) && Free(m, a)
    ensures OneToOne(m + [a]) && Total(w, m + [a]) == Total(w, m) + w(a.score)
  {
    assert (m + [a])[..|m|] == m;
  }

  lemma {:induction false} OverlappingWorth(w: real -> real, n: seq<Pair>)
    requires OneToOne(n) && (forall a :: a in n ==> a.score >= 0.0) && w(0.0) == 0.0
    ensures OneToOne(Overlapping(n)) && Total(w, Overlapping(n)) == Total(w, n)
  {
    if n != [] {
      var front, last := n[..|n| - 1], n[|n| - 1];
      OverlappingWorth(w, front);
      if last.score > 0.0 {
        OneMore(w, Overlapping(front), last);
      } else {
        assert last in n && last.score == 0.0;
        assert Overlapping(n) == Overlapping(front);
      }
    }
  }

  /**
    Whatever scores are worth, as long as more is never worth less and no overlap is worth nothing:
    no assignment of predicted to true boxes is worth more than twice the greedy matching.
  */
  lemma {:induction false} HalfOfAnyAssignment(w: real -> real, predicted: seq<Box>, truth: seq<Box>, n: seq<Pair>)
    requires AllValid(predicted) && AllValid(truth) && IsAssignment(predicted, truth, n)
    requires Worth(w) && w(0.0) == 0.0
    ensures Total(w, n) <= 2.0 * Total(w, Matches(predicted, truth))
  {
    var cs := Candidates(predicted, truth);
    RankedIsOrdered(cs);
    forall a | a in n ensures a.score >= 0.0 {
      assert IsPair(predicted, truth, a);
      IouMeaning(predicted[a.i], truth[a.j]);
    }
    OverlappingWorth(w, n);
    GreedyIsHalfOptimal(w, Ranked(cs), Overlapping(n));
  }

  /** The worth of a score is the score. */
  function Itself(): real -> real {
    x => if x >= 0.0 then x else 0.0
  }

  /** The worth of a score is whether it reaches the threshold. */
  function Reaches(t: real): real -> real {
    x => if x >= t then 1.0 else 0.0
  }

  /** No assignment has more than twice the sum of scores of the greedy matching. */
  lemma {:induction false} HalfOfIouSum(predicted: seq<Box>, truth: seq<Box>, n: seq<Pair>)
    requires AllValid(predicted) && AllValid(truth) && IsAssignment(predicted, truth, n)
    ensures Total(Itself(), n) <= 2.0 * Total(Itself(), Matches(predicted, truth))
  {
    HalfOfAnyAssignment(Itself(), predicted, truth, n);
  }

  lemma {:induction false} CountIsWorth(m: seq<Pair>, t: real)
    ensures Total(Reaches(t), m) == |AtLeast(m, t)| as real
  {
    if m != [] {
      CountIsWorth(m[..|m| - 1], t);
    }
  }

  ghost function Reaching(m: seq<Pair>, t: real): set<nat> {
    set k: nat | k < |m| && m[k].score >= t
  }

  lemma {:induction false} ReachingNext(m: seq<Pair>, t: real)
    requires m != []
    ensures var front, last := m[..|m| - 1], |m| - 1;
            |Reaching(m, t)| == |Reaching(front, t)| + (if m[last].score >= t then 1 else 0)
  {
    var front, last := m[..|m| - 1], |m| - 1;
    if m[last].score >= t {
      assert Reaching(m, t) == Reaching(front, t) + {last};
    } else {
      assert Reaching(m, t) == Reaching(front, t);
    }
  }

  /** The matches that count are those whose score reaches the threshold. */
  lemma {:induction false} CountReaching(m: seq<Pair>, t: real)
    ensures |AtLeast(m, t)| == |Reaching(m, t)|
  {
    if m != [] {
      CountReaching(m[..|m| - 1], t);
      ReachingNext(m, t);
    }
  }

  lemma {:induction false} HalfOfTruePositives(predicted: seq<Box>, truth: seq<Box>, n: seq<Pair>, t: real)
    requires AllValid(predicted) && AllValid(truth) && IsAssignment(predicted, truth, n) && t > 0.0
    ensures |AtLeast(n, t)| <= 2 * |AtLeast(Matches(predicted, truth), t)|
  {
    HalfOfAnyAssignment(Reaches(t), predicted, truth, n);
    CountIsWorth(n, t);
    CountIsWorth(Matches(predicted, truth), t);
  }

  /** At least half the true positives of any assignment, for all boxes: exactly for positive thresholds. */
  lemma {:induction false} HalfExactlyForPositive(t: real)
    ensures HalfHolds(t) <==> t > 0.0
  {
    if t > 0.0 {
      forall predicted, truth, n | AllValid(predicted) && AllValid(truth) && IsAssignment(predicted, truth, n)
        ensures |AtLeast(n, t)| <= 2 * |AtLeast(Matches(predicted, truth), t)|
      {
        HalfOfTruePositives(predicted, truth, n, t);
      }
    } else {
      DisjointBoxes(t);
    }
  }

  ghost predicate HalfHolds(t: real) {
    forall predicted, truth, n :: AllValid(predicted) && AllValid(truth) && IsAssignment(predicted, truth, n) ==>
      |AtLeast(n, t)| <= 2 * |AtLeast(Matches(predicted, truth), t)|
  }

  /** Two boxes that share nothing are never matched. */
  lemma {:induction false} DisjointUnmatched(a: Box, b: Box)
    requires Iou(a, b) == 0.0
    ensures Matches([a], [b]) == []
  {
    assert Row([a], [b], 0, 1) == Row([a], [b], 0, 0) == [];
    assert Rows([a], [b], 1) == Rows([a], [b], 0) == [];
  }

  lemma {:induction false} DisjointPair() returns (a: Box, b: Box)
    ensures a.Valid() && b.Valid() && Iou(a, b) == 0.0
  {
    a, b := Box(0.0, 0.0, 1.0, 1.0), Box(5.0, 5.0, 1.0, 1.0);
  }

  /** Though their score reaches the threshold 0. */
  lemma {:induction false} DisjointBoxes(t: real)
    requires t <= 0.0
    ensures !HalfHolds(t)
  {
    var a, b := DisjointPair();
    DisjointUnmatched(a, b);
    OnePair(a, b);
    OneReaches(t);
    var predicted, truth, n := [a], [b], [Pair(0.0, 0, 0)];
    assert |AtLeast(n, t)| > 2 * |AtLeast(Matches(predicted, truth), t)|;
  }

  lemma {:induction false} OnePair(a: Box, b: Box)
    requires Iou(a, b) == 0.0
    ensures IsAssignment([a], [b], [Pair(0.0, 0, 0)])
  {
    assert [Pair(0.0, 0, 0)][..0] == [];
  }

  lemma {:induction false} OneReaches(t: real)
    requires t <= 0.0
    ensures |AtLeast([Pair(0.0, 0, 0)], t)| == 1 && |AtLeast([], t)| == 0
  {
    var n := [Pair(0.0, 0, 0)];
    assert n[..0] == [];
    assert AtLeast(n, t) == n;
  }

  // ------------------------------------------------------------------ score_boxes

  datatype BoxReport = BoxReport(truePositives: nat, falsePositives: nat, falseNegatives: nat, iouSum: real,
                                 matchedCount: nat, truthCount: nat, threshold: real)
  {
    function Precision(): real {
      if truePositives + falsePositives == 0 then 1.0
      else truePositives as real / (truePositives + falsePositives) as real
    }

    function Recall(): real {
      if truePositives + falseNegatives == 0 then 1.0
      else truePositives as real / (truePositives + falseNegatives) as real
    }

    function F1(): real {
      if Precision() + Recall() == 0.0 then 0.0
      else 2.0 * Precision() * Recall() / (Precision() + Recall())
    }
  }

  method ScoreBoxes(predicted: seq<Box>, truth: seq<Box>, threshold: real) returns (r: Result<BoxReport>)
    ensures r.Success? <==> AllValid(predicted) && AllValid(truth)
    ensures r.Success? ==>
              var m := Matches(predicted, truth);
              && r.value.truePositives == |AtLeast(m, threshold)|
              && r.value.truePositives + r.value.falsePositives == |predicted|
              && r.value.truePositives + r.value.falseNegatives == |truth|
              && r.value.iouSum == Total(Itself(), m)
              && r.value.matchedCount == |m| && r.value.truthCount == |truth| && r.value.threshold == threshold
  {
    var matched := MatchBoxes(predicted, truth);
    if matched.Failure? {
      return Failure;
    }
    var matching := matched.value;
    forall a | a in matching.matches ensures a.score > 0.0 {
      MatchesArePairs(predicted, truth, a);
    }
    var truePositives, iouSum := Tally(matching.matches, threshold);
    var weak := |matching.matches| - truePositives;
    return Success(BoxReport(truePositives, |matching.unmatchedPredicted| + weak, |matching.unmatchedTruth| + weak,
                             iouSum, |matching.matches|, |matching.matches| + |matching.unmatchedTruth|, threshold));
  }

  /** The matches at or above the threshold, and the sum of all scores. */
  method Tally(matches: seq<Pair>, threshold: real) returns (truePositives: nat, iouSum: real)
    requires forall a :: a in matches ==> a.score > 0.0
    ensures truePositives == |AtLeast(matches, threshold)| <= |matches| && iouSum == Total(Itself(), matches)
  {
    truePositives, iouSum := 0, 0.0;
    for k := 0 to |matches|
      invariant truePositives == |AtLeast(matches[..k], threshold)| <= k
      invariant iouSum == Total(Itself(), matches[..k])
    {
      assert matches[..k + 1][..k] == matches[..k];
      assert matches[k] in matches;
      if matches[k].score >= threshold {
        truePositives := truePositives + 1;
      }
      iouSum := iouSum + matches[k].score;
    }
    assert matches[..|matches|] == matches;
  }

  /** Precision is the part of the predicted boxes that are right, recall that of the true ones that were found. */
  lemma {:induction false} RatesMean(r: BoxReport, predicted: nat, truth: nat)
    requires r.truePositives + r.falsePositives == predicted && r.truePositives + r.falseNegatives == truth
    ensures predicted == 0 ==> r.Precision() == 1.0
    ensures predicted > 0 ==> r.Precision() * predicted as real == r.truePositives as real
    ensures truth == 0 ==> r.Recall() == 1.0
    ensures truth > 0 ==> r.Recall() * truth as real == r.truePositives as real
  {
  }

  lemma {:induction false} DiceAlgebra(p: real, a: real, b: real)
    requires p > 0.0 && a > 0.0 && b > 0.0
    ensures p / a + p / b > 0.0
    ensures 2.0 * (p / a) * (p / b) / (p / a + p / b) == 2.0 * p / (a + b)
  {
    var x, y := p / a, p / b;
    assert x * a == p && y * b == p && x > 0.0 && y > 0.0;
    assert 2.0 * x * y * (a + b) == 2.0 * y * p + 2.0 * x * p == 2.0 * p * (x + y);
    var z := 2.0 * x * y / (x + y);
    assert z * (x + y) == 2.0 * x * y;
    assert (z * (a + b) - 2.0 * p) * (x + y) == 0.0;
  }

  /** The F1 score is twice the true positives over all boxes, predicted and true. */
  lemma {:induction false} F1IsDice(r: BoxReport)
    ensures r.F1() == if r.falsePositives + r.falseNegatives + r.truePositives == 0 then 1.0
                      else 2.0 * r.truePositives as real /
                           (2 * r.truePositives + r.falsePositives + r.falseNegatives) as real
    ensures 0.0 <= r.F1() <= 1.0
  {
    var p := r.truePositives as real;
    var a, b := (r.truePositives + r.falsePositives) as real, (r.truePositives + r.falseNegatives) as real;
    if r.truePositives > 0 {
      DiceAlgebra(p, a, b);
      DivideBound(2.0 * p, a + b);
    }
  }
}

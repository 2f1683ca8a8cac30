/**
  `levenshtein`: the two-row edit distance between sequences.  Its specification is the forest edit
  distance of a row of leaves, so the metric laws carry over; on single-chain trees the tree edit
  distance is the same number.
*/
module Levenshtein {
  import opened Naturals
  import opened Forests
  import opened EditDistance

  /** The recursive edit distance, taken apart from the right. */
  ghost function Lev<T>(s: seq<T>, t: seq<T>): nat
    decreases |s| + |t|
  {
    if s == [] then |t|
    else if t == [] then |s|
    else
      var s', t' := s[..|s| - 1], t[..|t| - 1];
      Min(Min(Lev(s', t) + 1, Lev(s, t') + 1), Lev(s', t') + Relabel(s[|s| - 1], t[|t| - 1]))
  }

  /** A row of leaves. */
  ghost function Leaves<T>(s: seq<T>): (f: Forest<T>)
    ensures Size(f) == |s|
  {
    if s == [] then Empty else Snoc(Leaves(s[..|s| - 1]), s[|s| - 1], Empty)
  }

  /** A tree in which every node but the last has one child; `s[0]` is the root. */
  ghost function Chain<T>(s: seq<T>): (f: Forest<T>)
    ensures Size(f) == |s|
  {
    if s == [] then Empty else Single(s[0], Chain(s[1..]))
  }

  ghost function Reversed<T>(s: seq<T>): (r: seq<T>)
    ensures |r| == |s|
  {
    if s == [] then [] else Reversed(s[1..]) + [s[0]]
  }

  lemma {:induction false} ReversedTwice<T>(s: seq<T>)
    ensures Reversed(Reversed(s)) == s
  {
    if s != [] {
      ReversedTwice(s[1..]);
      ReversedAppend(Reversed(s[1..]), s[0]);
    }
  }

  lemma {:induction false} ReversedAppend<T>(s: seq<T>, x: T)
    ensures Reversed(s + [x]) == [x] + Reversed(s)
  {
    if s != [] {
      assert (s + [x])[1..] == s[1..] + [x];
      ReversedAppend(s[1..], x);
    }
  }

  // ------------------------------------------------------------------ sequences as forests

  lemma {:induction false} LeavesDistance<T>(s: seq<T>, t: seq<T>)
    ensures Distance(Leaves(s), Leaves(t)) == Lev(s, t)
    decreases |s| + |t|
  {
    if s != [] && t != [] {
      LeavesDistance(s[..|s| - 1], t);
      LeavesDistance(s, t[..|t| - 1]);
      LeavesDistance(s[..|s| - 1], t[..|t| - 1]);
      assert Distance<T>(Empty, Empty) == 0;
    }
  }

  lemma {:induction false} LeavesAppend<T>(s: seq<T>, t: seq<T>)
    ensures Leaves(s + t) == Append(Leaves(s), Leaves(t))
  {
    if t == [] {
      assert s + t == s;
    } else {
      assert (s + t)[..|s + t| - 1] == s + t[..|t| - 1];
      LeavesAppend(s, t[..|t| - 1]);
    }
  }

  /** Edits of two adjacent pieces add up to an edit of the whole. */
  lemma {:induction false} LevSubadditive<T>(s1: seq<T>, t1: seq<T>, s2: seq<T>, t2: seq<T>)
    ensures Lev(s1 + s2, t1 + t2) <= Lev(s1, t1) + Lev(s2, t2)
  {
    LeavesAppend(s1, s2);
    LeavesAppend(t1, t2);
    Subadditive(Leaves(s1), Leaves(t1), Leaves(s2), Leaves(t2));
    LeavesDistance(s1 + s2, t1 + t2);
    LeavesDistance(s1, t1);
    LeavesDistance(s2, t2);
  }

  // ------------------------------------------------------------------ metric laws

  lemma {:induction false} LevMetric<T>(s: seq<T>, t: seq<T>, u: seq<T>)
    ensures Lev(s, t) == 0 <==> s == t
    ensures Lev(s, t) == Lev(t, s)
    ensures Lev(s, u) <= Lev(s, t) + Lev(t, u)
    ensures |s| - |t| <= Lev(s, t) && Lev(s, t) <= Max(|s|, |t|)
  {
    var a, b, c := Leaves(s), Leaves(t), Leaves(u);
    LeavesDistance(s, t);
    LeavesDistance(t, s);
    LeavesDistance(t, u);
    LeavesDistance(s, u);
    Symmetric(a, b);
    Triangle(a, b, c);
    SizeBounds(a, b);
    SelfDistance(a);
    if Lev(s, t) == 0 {
      ZeroMeansEqual(a, b);
      LeavesInjective(s, t);
    }
    LevAtMostLonger(s, t);
  }

  lemma {:induction false} LeavesInjective<T>(s: seq<T>, t: seq<T>)
    requires Leaves(s) == Leaves(t)
    ensures s == t
  {
    if s != [] {
      LeavesInjective(s[..|s| - 1], t[..|t| - 1]);
      assert s == s[..|s| - 1] + [s[|s| - 1]] && t == t[..|t| - 1] + [t[|t| - 1]];
    }
  }

  lemma {:induction false} LevAtMostLonger<T>(s: seq<T>, t: seq<T>)
    ensures Lev(s, t) <= Max(|s|, |t|)
    decreases |s|
  {
    if s != [] && t != [] {
      LevAtMostLonger(s[..|s| - 1], t[..|t| - 1]);
    }
  }

  // ------------------------------------------------------------------ chains

  /** The distance in terms of the first elements. */
  lemma {:induction false} FirstStepBound<T>(s: seq<T>, t: seq<T>)
    requires s != [] && t != []
    ensures Lev(s, t) <= Lev(s[1..], t) + 1
    ensures Lev(s, t) <= Lev(s, t[1..]) + 1
    ensures Lev(s, t) <= Lev(s[1..], t[1..]) + Relabel(s[0], t[0])
  {
    var s', t' := s[1..], t[1..];
    var x, y := [s[0]], [t[0]];
    assert s == x + s' && t == y + t' && t == [] + t && s == [] + s;
    LevSubadditive(x, [], s', t);
    LevSubadditive([], y, s, t');
    LevSubadditive(x, y, s', t');
    assert Lev(x, y) == Relabel(s[0], t[0]) by {
      assert x[..0] == [] && y[..0] == [];
    }
  }

  lemma {:induction false} ReversedLast<T>(s: seq<T>)
    requires s != []
    ensures |Reversed(s)| == |s| && Reversed(s)[..|s| - 1] == Reversed(s[1..]) && Reversed(s)[|s| - 1] == s[0]
  {
  }

  /** The three ways on from the first elements of `s` and `t` are those from the last of `rs` and `rt`. */
  lemma {:induction false} ReversalStep<T>(s: seq<T>, t: seq<T>, rs: seq<T>, rt: seq<T>)
    requires s != [] && t != [] && rs != [] && rt != []
    requires rs[|rs| - 1] == s[0] && rt[|rt| - 1] == t[0]
    requires Lev(s[1..], t) <= Lev(rs[..|rs| - 1], rt)
    requires Lev(s, t[1..]) <= Lev(rs, rt[..|rt| - 1])
    requires Lev(s[1..], t[1..]) <= Lev(rs[..|rs| - 1], rt[..|rt| - 1])
    ensures Lev(s, t) <= Lev(rs, rt)
  {
    FirstStepBound(s, t);
  }

  /** Reading both sequences backwards does not make the distance smaller. */
  lemma {:induction false} ReversalBound<T>(s: seq<T>, t: seq<T>)
    ensures Lev(s, t) <= Lev(Reversed(s), Reversed(t))
    decreases |s| + |t|
  {
    if s != [] && t != [] {
      ReversalBound(s[1..], t);
      ReversalBound(s, t[1..]);
      ReversalBound(s[1..], t[1..]);
      ReversedLast(s);
      ReversedLast(t);
      ReversalStep(s, t, Reversed(s), Reversed(t));
    }
  }

  lemma {:induction false} ReversalInvariant<T>(s: seq<T>, t: seq<T>)
    ensures Lev(Reversed(s), Reversed(t)) == Lev(s, t)
  {
    ReversalBound(s, t);
    ReversalBound(Reversed(s), Reversed(t));
    ReversedTwice(s);
    ReversedTwice(t);
  }

  lemma {:induction false} ChainReversed<T>(s: seq<T>, t: seq<T>)
    ensures Distance(Chain(s), Chain(t)) == Lev(Reversed(s), Reversed(t))
    decreases |s| + |t|
  {
    if s != [] && t != [] {
      var s', t' := s[1..], t[1..];
      AppendEmptyLeft(Chain(s'));
      AppendEmptyLeft(Chain(t'));
      ChainReversed(s', t);
      ChainReversed(s, t');
      ChainReversed(s', t');
      assert Reversed(s)[..|s| - 1] == Reversed(s') && Reversed(t)[..|t| - 1] == Reversed(t');
      assert Distance<T>(Empty, Empty) == 0;
    }
  }

  /** On single-chain trees the tree edit distance is the edit distance of the label sequences. */
  lemma {:induction false} ChainDistance<T>(s: seq<T>, t: seq<T>)
    ensures Distance(Chain(s), Chain(t)) == Lev(s, t)
  {
    ChainReversed(s, t);
    ReversalInvariant(s, t);
  }

  // ------------------------------------------------------------------ the two-row program

  /** The distance of the first `i` elements of `s` and the first `j` of `t`: one cell of the table. */
  ghost function Cell<T>(s: seq<T>, t: seq<T>, i: nat, j: nat): nat
    requires i <= |s| && j <= |t|
    decreases i + j
  {
    if i == 0 then j
    else if j == 0 then i
    else Min(Min(Cell(s, t, i - 1, j) + 1, Cell(s, t, i, j - 1) + 1),
             Cell(s, t, i - 1, j - 1) + Relabel(s[i - 1], t[j - 1]))
  }

  lemma {:induction false} LeavesPrefix<T>(s: seq<T>, i: nat)
    requires 1 <= i <= |s|
    ensures Leaves(s[..i]) == Snoc(Leaves(s[..i - 1]), s[i - 1], Empty)
  {
    assert s[..i][..i - 1] == s[..i - 1];
  }

  lemma {:induction false} CellIsDistance<T>(s: seq<T>, t: seq<T>, i: nat, j: nat)
    requires i <= |s| && j <= |t|
    ensures Cell(s, t, i, j) == Distance(Leaves(s[..i]), Leaves(t[..j]))
    decreases i + j
  {
    if i > 0 && j > 0 {
      LeavesPrefix(s, i);
      LeavesPrefix(t, j);
      CellIsDistance(s, t, i - 1, j);
      CellIsDistance(s, t, i, j - 1);
      CellIsDistance(s, t, i - 1, j - 1);
      assert Distance<T>(Empty, Empty) == 0;
    }
  }

  /** The first columns of row `i` of the table. */
  ghost predicate IsRow<T>(row: seq<nat>, s: seq<T>, t: seq<T>, i: nat)
    requires i <= |s|
  {
    |row| <= |t| + 1 && forall j :: 0 <= j < |row| ==> row[j] == Cell(s, t, i, j)
  }

  /** The row for one more element of the reference, from the row above it. */
  method NextRow<T(==)>(ref: seq<T>, hyp: seq<T>, i: nat, previous: seq<nat>) returns (current: seq<nat>)
    requires 1 <= i <= |ref| && |previous| == |hyp| + 1 && IsRow(previous, ref, hyp, i - 1)
    ensures |current| == |hyp| + 1 && IsRow(current, ref, hyp, i)
  {
    current := [i];
    for j := 1 to |hyp| + 1
      invariant |current| == j
      invariant IsRow(current, ref, hyp, i)
    {
      var substitute := previous[j - 1] + (if ref[i - 1] != hyp[j - 1] then 1 else 0);
      current := current + [Min(Min(previous[j] + 1, current[j - 1] + 1), substitute)];
    }
  }

  /** Row after row, keeping only the previous one. */
  method TwoRows<T(==)>(ref: seq<T>, hyp: seq<T>) returns (d: nat)
    ensures d == Cell(ref, hyp, |ref|, |hyp|)
  {
    var previous: seq<nat> := seq(|hyp| + 1, j requires 0 <= j <= |hyp| => j);
    for i := 1 to |ref| + 1
      invariant |previous| == |hyp| + 1
      invariant IsRow(previous, ref, hyp, i - 1)
    {
      previous := NextRow(ref, hyp, i, previous);
    }
    d := previous[|previous| - 1];
  }

  lemma {:induction false} LastCellIsLev<T>(s: seq<T>, t: seq<T>)
    ensures Cell(s, t, |s|, |t|) == Lev(s, t)
  {
    CellIsDistance(s, t, |s|, |t|);
    LeavesDistance(s, t);
    assert s[..|s|] == s && t[..|t|] == t;
  }

  /** `levenshtein`: operands are swapped so that the shorter one lies along the row. */
  method Compute<T(==)>(reference: seq<T>, hypothesis: seq<T>) returns (d: nat)
    ensures d == Lev(reference, hypothesis)
  {
    var ref, hyp := reference, hypothesis;
    if |reference| < |hypothesis| {
      ref, hyp := hypothesis, reference;
    }
    LevMetric(ref, hyp, ref);
    if hyp == [] {
      return |ref|;
    }
    d := TwoRows(ref, hyp);
    LastCellIsLev(ref, hyp);
  }
}

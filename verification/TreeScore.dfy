/**
  Scoring: `tree_score`, the work limit of the evaluation endpoint, and the range of the
  normalised score.
*/
module TreeScores {
  import opened Naturals
  import opened Forests
  import opened EditDistance
  import opened EditScripts
  import opened FlatTrees
  import opened ParseTree
  import opened ZhangShasha
  import opened Options

  datatype TreeScore = TreeScore(distance: nat, truthNodes: nat, predictedNodes: nat)

  /** `tree_score`: parse both documents, then compare them. */
  method Score<L(==, !new)>(predicted: Option<Doc<L>>, truth: Option<Doc<L>>) returns (r: Result<TreeScore>)
    ensures r.Success? <==>
            (predicted.Some? ==> WellFormed(predicted.value)) && (truth.Some? ==> WellFormed(truth.value))
    ensures r.Success? ==>
              && IsMinimumEditCount(TreeOf(predicted), TreeOf(truth), r.value.distance)
              && r.value.predictedNodes == Size(TreeOf(predicted))
              && r.value.truthNodes == Size(TreeOf(truth))
  {
    var a := Parse(predicted);
    if a.Failure? {
      return Failure;
    }
    var b := Parse(truth);
    if b.Failure? {
      return Failure;
    }
    var d, _ := TreeEditDistance(a.value, b.value, TreeOf(predicted), TreeOf(truth));
    DistanceIsMinimum(TreeOf(predicted), TreeOf(truth), d);
    return Success(TreeScore(d, b.value.Nodes(), a.value.Nodes()));
  }

  /**
    The evaluation endpoint refuses a comparison by its keyroot weights, before any of the work is
    done; `cells` counts the table updates spent either way.
  */
  method Gated<L(==)>(a: FlatTree<L>, b: FlatTree<L>, limit: nat, ghost fa: Forest<L>, ghost fb: Forest<L>)
    returns (r: Result<nat>, ghost cells: nat)
    requires Describes(a, fa) && Describes(b, fb)
    requires (fa.Empty? || IsTree(fa)) && (fb.Empty? || IsTree(fb))
    ensures cells <= limit
    ensures r.Success? ==> r.value == Distance(fa, fb)
    ensures Weighable(a) && Weighable(b)
    ensures r.Failure? <==> KeyrootWeight(a) * KeyrootWeight(b) > limit
  {
    DescribesWeighable(a, fa);
    DescribesWeighable(b, fb);
    var work := KeyrootWeight(a) * KeyrootWeight(b);
    if work > limit {
      return Failure, 0;
    }
    var d;
    d, cells := TreeEditDistance(a, b, fa, fb);
    return Success(d), cells;
  }

  // ------------------------------------------------------------------ the normalised score

  /** The score is normalised by the size of the larger tree; at most one means this. */
  ghost predicate AtMostOne<L>(a: Forest<L>, b: Forest<L>) {
    Distance(a, b) <= Max(Size(a), Size(b))
  }

  /** A single node can always be matched with some node of a non-empty forest. */
  lemma {:induction false} OneNode<L>(f: Forest<L>, g: Forest<L>)
    requires Size(f) == 1 && Size(g) >= 1
    ensures Distance(f, g) <= Size(g)
  {
    MatchBound(f, g);
  }

  lemma {:induction false} SmallTreesStayInRange<L>(a: Forest<L>, b: Forest<L>)
    requires IsTree(a) && IsTree(b) && Size(a) <= 2 && Size(a) <= Size(b)
    ensures AtMostOne(a, b)
  {
    MatchBound(a, b);
    assert Distance<L>(Empty, Empty) == 0;
    if Size(a) == 2 {
      OneNode(a.kids, b.kids);
    }
  }

  /** A chain of `n` nodes, and a row of `n` leaves; no label of the one occurs in the other. */
  ghost function Path(n: nat): (f: Forest<int>)
    ensures Size(f) == n
  {
    if n == 0 then Empty else Single(0, Path(n - 1))
  }

  ghost function Row(n: nat): (f: Forest<int>)
    ensures Size(f) == n
  {
    if n == 0 then Empty else Snoc(Row(n - 1), 1, Empty)
  }

  /** A root with `n - 1` leaves. */
  ghost function Star(n: nat): (f: Forest<int>)
    requires n >= 1
    ensures Size(f) == n && IsTree(f)
  {
    Single(1, Row(n - 1))
  }

  ghost predicate IsChain(f: Forest<int>) {
    f.Empty? || (f.left.Empty? && f.tag == 0 && IsChain(f.kids))
  }

  ghost predicate IsRow(f: Forest<int>) {
    f.Empty? || (IsRow(f.left) && f.tag == 1 && f.kids.Empty?)
  }

  /** The last step of an edit between a chain and a row; a match leaves nothing else to match. */
  lemma {:induction false} ChainRowStep(p: Forest<int>, q: Forest<int>)
    requires p.Snoc? && p.left.Empty? && q.Snoc? && q.kids.Empty? && p.tag != q.tag
    ensures Distance(p, q) == Distance(p.kids, q) + 1 || Distance(p, q) == Distance(p, q.left) + 1 ||
            Distance(p, q) == Size(q.left) + Size(p.kids) + 1
  {
    AppendEmptyLeft(p.kids);
    assert DropRoot(p) == p.kids && DropRoot(q) == q.left;
    assert Match(p, q) == Distance(p.left, q.left) + Distance(p.kids, q.kids) + 1;
    EmptyDistance(q.left);
    EmptyDistance(p.kids);
  }

  lemma {:induction false} EmptyDistance(f: Forest<int>)
    ensures Distance(Empty, f) == Distance(f, Empty) == Size(f)
  {
  }

  /** The last step of an edit between a chain and a star. */
  lemma {:induction false} ChainStarStep(p: Forest<int>, q: Forest<int>)
    requires IsTree(p) && IsTree(q) && p.tag != q.tag
    ensures Distance(p, q) == Distance(p.kids, q) + 1 || Distance(p, q) == Distance(p, q.kids) + 1 ||
            Distance(p, q) == Distance(p.kids, q.kids) + 1
  {
    AppendEmptyLeft(p.kids);
    AppendEmptyLeft(q.kids);
    assert DropRoot(p) == p.kids && DropRoot(q) == q.kids;
    assert Match(p, q) == Distance(p.left, q.left) + Distance(p.kids, q.kids) + 1;
    assert Distance(p.left, q.left) == 0;
  }

  /** At most one node of a chain can be matched with a row of leaves. */
  lemma {:induction false} ChainAgainstRow(p: Forest<int>, q: Forest<int>)
    requires IsChain(p) && IsRow(q)
    ensures Distance(p, q) >= Size(p) + Size(q) - 1
    decreases Size(p) + Size(q)
  {
    if p.Empty? || q.Empty? {
      EmptyDistance(p);
      EmptyDistance(q);
    } else {
      ChainRowStep(p, q);
      ChainAgainstRow(p.kids, q);
      ChainAgainstRow(p, q.left);
    }
  }

  /** At most two can be matched with a star, and nothing is saved on labels. */
  lemma {:induction false} ChainAgainstStar(p: Forest<int>, q: Forest<int>)
    requires IsChain(p) && IsTree(q) && q.tag == 1 && IsRow(q.kids)
    ensures Distance(p, q) >= Size(p) + Size(q) - 2
    decreases Size(p)
  {
    if p.Empty? {
      EmptyDistance(q);
    } else {
      ChainStarStep(p, q);
      ChainAgainstStar(p.kids, q);
      ChainAgainstRow(p, q.kids);
      ChainAgainstRow(p.kids, q.kids);
    }
  }

  lemma {:induction false} PathIsChain(n: nat)
    ensures IsChain(Path(n)) && IsRow(Row(n))
  {
    if n > 0 {
      PathIsChain(n - 1);
    }
  }

  lemma {:induction false} PathAgainstStar(m: nat, n: nat)
    requires m >= 1 && n >= 2
    ensures Distance(Path(m), Star(n)) >= m + n - 2
  {
    PathIsChain(m);
    PathIsChain(n - 1);
    ChainAgainstStar(Path(m), Star(n));
  }

  /** The range documented for the normalised score is left by a chain of three nodes against a star of three. */
  lemma {:induction false} NormalisedExceedsOne()
    ensures IsTree(Path(3)) && IsTree(Star(3)) && !AtMostOne(Path(3), Star(3))
  {
    PathAgainstStar(3, 3);
  }

  ghost predicate RangeHolds(m: nat, n: nat) {
    forall a: Forest<int>, b: Forest<int> ::
      IsTree(a) && IsTree(b) && Size(a) == m && Size(b) == n ==> AtMostOne(a, b)
  }

  /**
    For which node counts the documented range holds whatever the trees look like: exactly when the
    smaller tree has at most two nodes.
  */
  lemma {:induction false} NormalisedRange(m: nat, n: nat)
    requires m >= 1 && n >= 1
    ensures RangeHolds(m, n) <==> m <= 2 || n <= 2
  {
    if m <= 2 || n <= 2 {
      forall a: Forest<int>, b: Forest<int> | IsTree(a) && IsTree(b) && Size(a) == m && Size(b) == n
        ensures AtMostOne(a, b)
      {
        if m <= n {
          SmallTreesStayInRange(a, b);
        } else {
          SmallTreesStayInRange(b, a);
          Symmetric(a, b);
        }
      }
    } else {
      PathAgainstStar(m, n);
      assert !AtMostOne(Path(m), Star(n));
    }
  }
}

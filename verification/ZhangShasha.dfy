/**
  `tree_edit_distance`: the two tables of Zhang and Shasha, filled in place, one pass per pair of
  keyroots.  The forest table is one array that no pass clears.
*/
module ZhangShasha {
  import opened Naturals
  import opened Forests
  import opened EditDistance
  import opened PostOrder
  import opened FlatTrees
  import opened Options

  // ------------------------------------------------------------------ the recurrence on prefixes

  /** The value of a forest-table cell: the distance between two prefixes. */
  ghost function Cell<L>(a: Forest<L>, b: Forest<L>, i: nat, j: nat): nat
    requires i <= Size(a) && j <= Size(b)
  {
    Distance(Pre(a, i), Pre(b, j))
  }

  /** Both prefixes are whole trees: their roots are matched or one of them goes. */
  lemma {:induction false} SpineCell<L>(a: Forest<L>, b: Forest<L>, i: nat, j: nat)
    requires 1 <= i <= Size(a) && 1 <= j <= Size(b)
    requires Leftmost(a, i) == 1 && Leftmost(b, j) == 1
    ensures Pre(a, i) == Sub(a, i) && Pre(b, j) == Sub(b, j)
    ensures Cell(a, b, i, j) ==
            Min(Min(Cell(a, b, i - 1, j) + 1, Cell(a, b, i, j - 1) + 1),
                Cell(a, b, i - 1, j - 1) + Relabel(Sub(a, i).tag, Sub(b, j).tag))
  {
    PrefixShape(a, i);
    PrefixShape(b, j);
    AppendEmptyLeft(Pre(a, i).kids);
    AppendEmptyLeft(Pre(b, j).kids);
    var p, q := Pre(a, i), Pre(b, j);
    assert p.left == Empty && q.left == Empty by {
      assert Size(p.left) == 0 && Size(q.left) == 0;
    }
    assert Distance(p, q) == Min(Min(Delete(p, q), Insert(p, q)), Match(p, q));
    assert Match(p, q) == Distance(DropRoot(p), DropRoot(q)) + Relabel(p.tag, q.tag);
  }

  /** To align the two last trees as wholes costs no more than to match their roots, and no less than the least. */
  lemma {:induction false} AlignedBounds<L>(p: Forest<L>, q: Forest<L>, x: Forest<L>, y: Forest<L>)
    requires p.Snoc? && q.Snoc? && x == Single(p.tag, p.kids) && y == Single(q.tag, q.kids)
    ensures Distance(p, q) <= Distance(p.left, q.left) + Distance(x, y) <= Match(p, q)
  {
    Subadditive(p.left, q.left, x, y);
    assert Append(p.left, x) == p && Append(q.left, y) == q;
    MatchBound(x, y);
    assert Match(x, y) == Distance(p.kids, q.kids) + Relabel(p.tag, q.tag);
  }

  lemma {:induction false} AlignedStep<L>(p: Forest<L>, q: Forest<L>, other: nat)
    requires p.Snoc? && q.Snoc? && Distance(p, q) <= other <= Match(p, q)
    ensures Distance(p, q) == Min(Min(Delete(p, q), Insert(p, q)), other)
  {
  }

  /** In general the two last trees are aligned as wholes, and what stands to their left separately. */
  lemma {:induction false} DetachedCell<L>(a: Forest<L>, b: Forest<L>, i: nat, j: nat)
    requires 1 <= i <= Size(a) && 1 <= j <= Size(b)
    ensures Cell(a, b, i, j) ==
            Min(Min(Cell(a, b, i - 1, j) + 1, Cell(a, b, i, j - 1) + 1),
                Cell(a, b, Leftmost(a, i) - 1, Leftmost(b, j) - 1) + Distance(Sub(a, i), Sub(b, j)))
  {
    var p, q := Pre(a, i), Pre(b, j);
    PrefixShape(a, i);
    PrefixShape(b, j);
    assert Delete(p, q) == Cell(a, b, i - 1, j) + 1;
    assert Insert(p, q) == Cell(a, b, i, j - 1) + 1;
    var other := Cell(a, b, Leftmost(a, i) - 1, Leftmost(b, j) - 1) + Distance(Sub(a, i), Sub(b, j));
    assert Distance(p, q) <= other <= Match(p, q) by {
      AlignedBounds(p, q, Sub(a, i), Sub(b, j));
    }
    AlignedStep(p, q, other);
  }

  // ------------------------------------------------------------------ one pass over the tables

  /** A flat tree whose arrays can be indexed by `r` and by the nodes under it. */
  ghost predicate Indexable<L>(t: FlatTree<L>, r: nat) {
    && 1 <= r < |t.labels| == |t.leftmost|
    && 1 <= t.leftmost[r] <= r
    && forall x :: t.leftmost[r] <= x <= r ==> t.leftmost[r] <= t.leftmost[x] <= x
  }

  ghost function Width<L>(t: FlatTree<L>, r: nat): nat
    requires Indexable(t, r)
  {
    r - t.leftmost[r] + 1
  }

  /**
    What a pass computes, for any table `cell` of forest values and `tree` of subtree values: the
    value at `(i, j)` follows from its neighbours and, unless both nodes are on the spines, from a
    subtree value and the cell to the left of both subtrees.
  */
  ghost predicate CellRule<L>(
    a: FlatTree<L>, b: FlatTree<L>, rootA: nat, rootB: nat, cell: (nat, nat) -> nat, tree: (nat, nat) -> nat,
    i: nat, j: nat)
    requires Indexable(a, rootA) && Indexable(b, rootB)
    requires 1 <= i <= Width(a, rootA) && 1 <= j <= Width(b, rootB)
  {
    var x, y := i + a.leftmost[rootA] - 1, j + b.leftmost[rootB] - 1;
    var edge := Min(cell(i - 1, j) + 1, cell(i, j - 1) + 1);
    if a.leftmost[x] == a.leftmost[rootA] && b.leftmost[y] == b.leftmost[rootB] then
      && cell(i, j) == Min(edge, cell(i - 1, j - 1) + Relabel(a.labels[x], b.labels[y]))
      && tree(x, y) == cell(i, j)
    else
      cell(i, j) == Min(edge, cell(a.leftmost[x] - a.leftmost[rootA], b.leftmost[y] - b.leftmost[rootB]) + tree(x, y))
  }

  ghost predicate PassRule<L>(
    a: FlatTree<L>, b: FlatTree<L>, rootA: nat, rootB: nat, cell: (nat, nat) -> nat, tree: (nat, nat) -> nat)
    requires Indexable(a, rootA) && Indexable(b, rootB)
  {
    && (forall i: nat :: cell(i, 0) == i)
    && (forall j: nat :: cell(0, j) == j)
    && (forall i, j :: 1 <= i <= Width(a, rootA) && 1 <= j <= Width(b, rootB) ==>
          CellRule(a, b, rootA, rootB, cell, tree, i, j))
  }

  /** The pairs of nodes whose subtrees a pass compares for the first time. */
  ghost predicate OnSpines<L>(a: FlatTree<L>, b: FlatTree<L>, rootA: nat, rootB: nat, x: nat, y: nat)
    requires 1 <= rootA < |a.leftmost| && x < |a.leftmost| && 1 <= rootB < |b.leftmost| && y < |b.leftmost|
  {
    a.leftmost[x] == a.leftmost[rootA] && b.leftmost[y] == b.leftmost[rootB]
  }

  ghost predicate Sized<L>(a: FlatTree<L>, b: FlatTree<L>, table: array2<nat>) {
    table.Length0 == |a.labels| && table.Length1 == |b.labels|
  }

  /** One cell: the cheaper of deleting and inserting, or of matching roots or whole subtrees. */
  method CellValue<L(==)>(
    a: FlatTree<L>, b: FlatTree<L>, rootA: nat, rootB: nat, i: nat, j: nat, td: array2<nat>, fd: array2<nat>,
    ghost cell: (nat, nat) -> nat, ghost tree: (nat, nat) -> nat) returns (value: nat, whole: bool)
    requires Indexable(a, rootA) && Indexable(b, rootB) && Sized(a, b, td) && Sized(a, b, fd)
    requires 1 <= i <= Width(a, rootA) && 1 <= j <= Width(b, rootB)
    requires CellRule(a, b, rootA, rootB, cell, tree, i, j)
    requires forall k, c :: 0 <= k < i && 0 <= c <= Width(b, rootB) ==> fd[k, c] == cell(k, c)
    requires fd[i, j - 1] == cell(i, j - 1)
    requires var x, y := i + a.leftmost[rootA] - 1, j + b.leftmost[rootB] - 1;
             OnSpines(a, b, rootA, rootB, x, y) || td[x, y] == tree(x, y)
    ensures value == cell(i, j)
    ensures whole == OnSpines(a, b, rootA, rootB, i + a.leftmost[rootA] - 1, j + b.leftmost[rootB] - 1)
    ensures whole ==> value == tree(i + a.leftmost[rootA] - 1, j + b.leftmost[rootB] - 1)
  {
    var spineA, spineB := a.leftmost[rootA], b.leftmost[rootB];
    var offsetA, offsetB := spineA - 1, spineB - 1;
    var nodeA, nodeB := i + offsetA, j + offsetB;
    var delete := fd[i - 1, j] + 1;
    var insert := fd[i, j - 1] + 1;
    value := if delete < insert then delete else insert;
    whole := a.leftmost[nodeA] == spineA && b.leftmost[nodeB] == spineB;
    if whole {
      var relabel := fd[i - 1, j - 1] + (if a.labels[nodeA] == b.labels[nodeB] then 0 else 1);
      if relabel < value {
        value := relabel;
      }
    } else {
      var detached := fd[a.leftmost[nodeA] - 1 - offsetA, b.leftmost[nodeB] - 1 - offsetB] + td[nodeA, nodeB];
      if detached < value {
        value := detached;
      }
    }
  }

  /** Row `i` of a pass, which belongs to node `nodeA`.  The rows above are filled. */
  method FillRow<L(==)>(
    a: FlatTree<L>, b: FlatTree<L>, rootA: nat, rootB: nat, i: nat, nodeA: nat, td: array2<nat>, fd: array2<nat>,
    ghost cell: (nat, nat) -> nat, ghost tree: (nat, nat) -> nat) returns (ghost cells: nat)
    requires Indexable(a, rootA) && Indexable(b, rootB) && Sized(a, b, td) && Sized(a, b, fd) && td != fd
    requires PassRule(a, b, rootA, rootB, cell, tree)
    requires 1 <= i <= Width(a, rootA) && nodeA == i + a.leftmost[rootA] - 1
    requires forall k, c :: 0 <= k < i && 0 <= c <= Width(b, rootB) ==> fd[k, c] == cell(k, c)
    requires fd[i, 0] == i
    requires forall y :: b.leftmost[rootB] <= y <= rootB ==>
               OnSpines(a, b, rootA, rootB, nodeA, y) || td[nodeA, y] == tree(nodeA, y)
    modifies td, fd
    ensures forall c :: 0 <= c <= Width(b, rootB) ==> fd[i, c] == cell(i, c)
    ensures forall k, c :: 0 <= k < fd.Length0 && 0 <= c < fd.Length1 && k != i ==> fd[k, c] == old(fd[k, c])
    ensures forall y :: b.leftmost[rootB] <= y <= rootB ==> td[nodeA, y] == tree(nodeA, y)
    ensures forall y :: 0 <= y < b.leftmost[rootB] || rootB < y < td.Length1 ==> td[nodeA, y] == old(td[nodeA, y])
    ensures forall x, y :: 0 <= x < td.Length0 && 0 <= y < td.Length1 && x != nodeA ==> td[x, y] == old(td[x, y])
    ensures cells == Width(b, rootB)
  {
    var offsetB := b.leftmost[rootB] - 1;
    var cols := rootB - offsetB;
    cells := 0;
    for j := 1 to cols + 1
      invariant forall k, c :: 0 <= k < fd.Length0 && 0 <= c < fd.Length1 && k != i ==> fd[k, c] == old(fd[k, c])
      invariant forall c :: 0 <= c < j ==> fd[i, c] == cell(i, c)
      invariant forall y :: offsetB < y < j + offsetB ==> td[nodeA, y] == tree(nodeA, y)
      invariant forall y :: 0 <= y <= offsetB || j + offsetB <= y < td.Length1 ==> td[nodeA, y] == old(td[nodeA, y])
      invariant forall x, y :: 0 <= x < td.Length0 && 0 <= y < td.Length1 && x != nodeA ==> td[x, y] == old(td[x, y])
      invariant cells == j - 1
    {
      assert CellRule(a, b, rootA, rootB, cell, tree, i, j);
      var value, whole := CellValue(a, b, rootA, rootB, i, j, td, fd, cell, tree);
      fd[i, j] := value;
      if whole {
        td[nodeA, j + offsetB] := value;
      }
      cells := cells + 1;
    }
  }

  /**
    The pass for one pair of keyroots.  It takes nothing from the forest table, whatever an earlier
    pass left there, and needs the tree table only for the pairs that are not on both spines.
    Afterwards the tree table is complete for all pairs under the two keyroots.
  */
  method Pass<L(==)>(
    a: FlatTree<L>, b: FlatTree<L>, rootA: nat, rootB: nat, td: array2<nat>, fd: array2<nat>,
    ghost cell: (nat, nat) -> nat, ghost tree: (nat, nat) -> nat) returns (ghost cells: nat)
    requires Indexable(a, rootA) && Indexable(b, rootB) && Sized(a, b, td) && Sized(a, b, fd) && td != fd
    requires PassRule(a, b, rootA, rootB, cell, tree)
    requires forall x, y :: a.leftmost[rootA] <= x <= rootA && b.leftmost[rootB] <= y <= rootB ==>
               OnSpines(a, b, rootA, rootB, x, y) || td[x, y] == tree(x, y)
    modifies td, fd
    ensures forall x, y :: 0 <= x < |a.labels| && 0 <= y < |b.labels| ==>
              td[x, y] == if a.leftmost[rootA] <= x <= rootA && b.leftmost[rootB] <= y <= rootB
                          then tree(x, y) else old(td[x, y])
    ensures cells == Width(a, rootA) * Width(b, rootB)
  {
    var spineA, spineB := a.leftmost[rootA], b.leftmost[rootB];
    var rows, cols := rootA - (spineA - 1), rootB - (spineB - 1);
    BaseCases(rows, cols, fd);
    cells := 0;
    for i := 1 to rows + 1
      invariant forall k, c :: 0 <= k < i && 0 <= c <= cols ==> fd[k, c] == cell(k, c)
      invariant forall k :: 0 <= k <= rows ==> fd[k, 0] == k
      invariant forall x, y :: 0 <= x < |a.labels| && 0 <= y < |b.labels| ==>
                  td[x, y] == if spineA <= x < i + spineA - 1 && spineB <= y <= rootB then tree(x, y) else old(td[x, y])
      invariant cells == (i - 1) * cols
    {
      ghost var more := FillRow(a, b, rootA, rootB, i, i + spineA - 1, td, fd, cell, tree);
      Distribute(cols, i - 1, 1);
      cells := cells + more;
    }
  }

  /** Emptying one forest into the other. */
  method BaseCases(rows: nat, cols: nat, fd: array2<nat>)
    requires rows < fd.Length0 && cols < fd.Length1
    modifies fd
    ensures forall k :: 0 <= k <= rows ==> fd[k, 0] == k
    ensures forall c :: 0 <= c <= cols ==> fd[0, c] == c
  {
    fd[0, 0] := 0;
    for i := 1 to rows + 1
      invariant forall k :: 0 <= k < i ==> fd[k, 0] == k
    {
      fd[i, 0] := fd[i - 1, 0] + 1;
    }
    for j := 1 to cols + 1
      invariant forall k :: 0 <= k <= rows ==> fd[k, 0] == k
      invariant forall c :: 0 <= c < j ==> fd[0, c] == c
    {
      fd[0, j] := fd[0, j - 1] + 1;
    }
  }

  // ------------------------------------------------------------------ what the tables hold

  /** The values the tree table must end up with. */
  ghost function TreeTable<L>(fa: Forest<L>, fb: Forest<L>): (nat, nat) -> nat {
    (x: nat, y: nat) =>
      if 1 <= x <= Size(fa) && 1 <= y <= Size(fb) then Distance(Sub(fa, x), Sub(fb, y)) else 0
  }

  /** The values the forest table takes during the pass for the trees `ta` and `tb`. */
  ghost function ForestTable<L>(ta: Forest<L>, tb: Forest<L>): (nat, nat) -> nat {
    (i: nat, j: nat) => if i <= Size(ta) && j <= Size(tb) then Cell(ta, tb, i, j) else i + j
  }

  lemma {:induction false} DescribesIndexable<L>(t: FlatTree<L>, f: Forest<L>, r: nat)
    requires Describes(t, f) && 1 <= r <= Size(f)
    ensures Indexable(t, r) && Width(t, r) == Size(Sub(f, r))
  {
    forall x | Leftmost(f, r) <= x <= r ensures t.leftmost[r] <= t.leftmost[x] <= x {
      RangesNest(f, r, x);
    }
  }

  /** The arrays describe the node at position `i` of the subtree `sub` of node `r`. */
  ghost predicate NodeIs<L>(t: FlatTree<L>, r: nat, sub: Forest<L>, i: nat) {
    && Indexable(t, r) && Width(t, r) == Size(sub) && 1 <= i <= Size(sub)
    && t.labels[i + t.leftmost[r] - 1] == Some(Sub(sub, i).tag)
    && t.leftmost[i + t.leftmost[r] - 1] - t.leftmost[r] == Leftmost(sub, i) - 1
  }

  lemma {:induction false} NodeInSubtree<L>(t: FlatTree<L>, f: Forest<L>, r: nat, i: nat)
    requires Describes(t, f) && 1 <= r <= Size(f) && 1 <= i <= Size(Sub(f, r))
    ensures NodeIs(t, r, Sub(f, r), i)
    ensures i + t.leftmost[r] - 1 <= Size(f) && Sub(f, i + t.leftmost[r] - 1) == Sub(Sub(f, r), i)
  {
    DescribesIndexable(t, f, r);
    SubOfSub(f, r, i);
  }

  /** The two ways to compute a cell, for any table and any value of the two last subtrees. */
  ghost predicate PrefixRule<L>(ta: Forest<L>, tb: Forest<L>, cell: (nat, nat) -> nat, subtrees: nat, i: nat, j: nat)
    requires 1 <= i <= Size(ta) && 1 <= j <= Size(tb)
  {
    DetachedRule(ta, tb, cell, subtrees, i, j) && SpineRule(ta, tb, cell, subtrees, i, j)
  }

  ghost predicate DetachedRule<L>(ta: Forest<L>, tb: Forest<L>, cell: (nat, nat) -> nat, subtrees: nat, i: nat, j: nat)
    requires 1 <= i <= Size(ta) && 1 <= j <= Size(tb)
  {
    cell(i, j) == Min(Min(cell(i - 1, j) + 1, cell(i, j - 1) + 1),
                      cell(Leftmost(ta, i) - 1, Leftmost(tb, j) - 1) + subtrees)
  }

  ghost predicate SpineRule<L>(ta: Forest<L>, tb: Forest<L>, cell: (nat, nat) -> nat, subtrees: nat, i: nat, j: nat)
    requires 1 <= i <= Size(ta) && 1 <= j <= Size(tb)
  {
    Leftmost(ta, i) == 1 && Leftmost(tb, j) == 1 ==>
      && cell(i, j) == Min(Min(cell(i - 1, j) + 1, cell(i, j - 1) + 1),
                           cell(i - 1, j - 1) + Relabel(Sub(ta, i).tag, Sub(tb, j).tag))
      && subtrees == cell(i, j)
  }

  lemma {:induction false} TableCell<L>(ta: Forest<L>, tb: Forest<L>, i: nat, j: nat)
    requires i <= Size(ta) && j <= Size(tb)
    ensures ForestTable(ta, tb)(i, j) == Cell(ta, tb, i, j)
  {
  }

  lemma {:induction false} DetachedRuleFrom<L>(
    ta: Forest<L>, tb: Forest<L>, cell: (nat, nat) -> nat, subtrees: nat, i: nat, j: nat,
    here: nat, above: nat, before: nat, apart: nat)
    requires 1 <= i <= Size(ta) && 1 <= j <= Size(tb)
    requires cell(i, j) == here && cell(i - 1, j) == above && cell(i, j - 1) == before
    requires cell(Leftmost(ta, i) - 1, Leftmost(tb, j) - 1) == apart
    requires here == Min(Min(above + 1, before + 1), apart + subtrees)
    ensures DetachedRule(ta, tb, cell, subtrees, i, j)
  {
  }

  lemma {:induction false} DistanceDetachedRule<L>(ta: Forest<L>, tb: Forest<L>, i: nat, j: nat)
    requires 1 <= i <= Size(ta) && 1 <= j <= Size(tb)
    ensures DetachedRule(ta, tb, ForestTable(ta, tb), Distance(Sub(ta, i), Sub(tb, j)), i, j)
  {
    var x, y := Leftmost(ta, i) - 1, Leftmost(tb, j) - 1;
    TableCell(ta, tb, i, j);
    TableCell(ta, tb, i - 1, j);
    TableCell(ta, tb, i, j - 1);
    TableCell(ta, tb, x, y);
    DetachedCell(ta, tb, i, j);
    DetachedRuleFrom(ta, tb, ForestTable(ta, tb), Distance(Sub(ta, i), Sub(tb, j)), i, j,
                     Cell(ta, tb, i, j), Cell(ta, tb, i - 1, j), Cell(ta, tb, i, j - 1), Cell(ta, tb, x, y));
  }

  lemma {:induction false} SpineRuleFrom<L>(
    ta: Forest<L>, tb: Forest<L>, cell: (nat, nat) -> nat, i: nat, j: nat,
    here: nat, above: nat, before: nat, corner: nat)
    requires 1 <= i <= Size(ta) && 1 <= j <= Size(tb)
    requires cell(i, j) == here && cell(i - 1, j) == above && cell(i, j - 1) == before && cell(i - 1, j - 1) == corner
    requires here == Min(Min(above + 1, before + 1), corner + Relabel(Sub(ta, i).tag, Sub(tb, j).tag))
    ensures SpineRule(ta, tb, cell, here, i, j)
  {
  }

  lemma {:induction false} DistanceSpineRule<L>(ta: Forest<L>, tb: Forest<L>, i: nat, j: nat)
    requires 1 <= i <= Size(ta) && 1 <= j <= Size(tb)
    requires Leftmost(ta, i) == 1 && Leftmost(tb, j) == 1
    ensures SpineRule(ta, tb, ForestTable(ta, tb), Cell(ta, tb, i, j), i, j)
  {
    TableCell(ta, tb, i, j);
    TableCell(ta, tb, i - 1, j);
    TableCell(ta, tb, i, j - 1);
    TableCell(ta, tb, i - 1, j - 1);
    SpineCell(ta, tb, i, j);
    SpineRuleFrom(ta, tb, ForestTable(ta, tb), i, j,
                  Cell(ta, tb, i, j), Cell(ta, tb, i - 1, j), Cell(ta, tb, i, j - 1), Cell(ta, tb, i - 1, j - 1));
  }

  lemma {:induction false} DistancePrefixRule<L>(ta: Forest<L>, tb: Forest<L>, i: nat, j: nat)
    requires 1 <= i <= Size(ta) && 1 <= j <= Size(tb)
    ensures PrefixRule(ta, tb, ForestTable(ta, tb), Distance(Sub(ta, i), Sub(tb, j)), i, j)
  {
    DistanceDetachedRule(ta, tb, i, j);
    if Leftmost(ta, i) == 1 && Leftmost(tb, j) == 1 {
      DistanceSpineRule(ta, tb, i, j);
      SpineCell(ta, tb, i, j);
    }
  }

  /** Read through the arrays of the flat trees, the rule on prefixes is the rule of a pass. */
  lemma {:induction false} CellRuleFromPrefixes<L>(
    a: FlatTree<L>, b: FlatTree<L>, rootA: nat, rootB: nat, ta: Forest<L>, tb: Forest<L>,
    cell: (nat, nat) -> nat, tree: (nat, nat) -> nat, i: nat, j: nat)
    requires NodeIs(a, rootA, ta, i) && NodeIs(b, rootB, tb, j)
    requires PrefixRule(ta, tb, cell, tree(i + a.leftmost[rootA] - 1, j + b.leftmost[rootB] - 1), i, j)
    ensures CellRule(a, b, rootA, rootB, cell, tree, i, j)
  {
  }

  lemma {:induction false} TreeTableUnder<L>(
    a: FlatTree<L>, b: FlatTree<L>, fa: Forest<L>, fb: Forest<L>, rootA: nat, rootB: nat, i: nat, j: nat)
    requires Describes(a, fa) && Describes(b, fb) && 1 <= rootA <= Size(fa) && 1 <= rootB <= Size(fb)
    requires 1 <= i <= Size(Sub(fa, rootA)) && 1 <= j <= Size(Sub(fb, rootB))
    ensures NodeIs(a, rootA, Sub(fa, rootA), i) && NodeIs(b, rootB, Sub(fb, rootB), j)
    ensures TreeTable(fa, fb)(i + a.leftmost[rootA] - 1, j + b.leftmost[rootB] - 1) ==
            Distance(Sub(Sub(fa, rootA), i), Sub(Sub(fb, rootB), j))
  {
    NodeInSubtree(a, fa, rootA, i);
    NodeInSubtree(b, fb, rootB, j);
  }

  lemma {:induction false} DistanceCellRule<L>(
    a: FlatTree<L>, b: FlatTree<L>, rootA: nat, rootB: nat, ta: Forest<L>, tb: Forest<L>, tree: (nat, nat) -> nat,
    i: nat, j: nat)
    requires NodeIs(a, rootA, ta, i) && NodeIs(b, rootB, tb, j)
    requires tree(i + a.leftmost[rootA] - 1, j + b.leftmost[rootB] - 1) == Distance(Sub(ta, i), Sub(tb, j))
    ensures CellRule(a, b, rootA, rootB, ForestTable(ta, tb), tree, i, j)
  {
    DistancePrefixRule(ta, tb, i, j);
    CellRuleFromPrefixes(a, b, rootA, rootB, ta, tb, ForestTable(ta, tb), tree, i, j);
  }

  lemma {:induction false} ForestTableBase<L>(ta: Forest<L>, tb: Forest<L>)
    ensures forall i: nat :: ForestTable(ta, tb)(i, 0) == i
    ensures forall j: nat :: ForestTable(ta, tb)(0, j) == j
  {
    EmptyPrefix(ta);
    EmptyPrefix(tb);
  }

  /** Distances between prefixes and between subtrees obey the rule a pass relies on. */
  lemma {:induction false} DistancePassRule<L>(
    a: FlatTree<L>, b: FlatTree<L>, fa: Forest<L>, fb: Forest<L>, rootA: nat, rootB: nat)
    requires Describes(a, fa) && Describes(b, fb) && 1 <= rootA <= Size(fa) && 1 <= rootB <= Size(fb)
    ensures Indexable(a, rootA) && Indexable(b, rootB)
    ensures PassRule(a, b, rootA, rootB, ForestTable(Sub(fa, rootA), Sub(fb, rootB)), TreeTable(fa, fb))
  {
    var ta, tb := Sub(fa, rootA), Sub(fb, rootB);
    DescribesIndexable(a, fa, rootA);
    DescribesIndexable(b, fb, rootB);
    ForestTableBase(ta, tb);
    forall i, j | 1 <= i <= Width(a, rootA) && 1 <= j <= Width(b, rootB)
      ensures CellRule(a, b, rootA, rootB, ForestTable(ta, tb), TreeTable(fa, fb), i, j)
    {
      TreeTableUnder(a, b, fa, fb, rootA, rootB, i, j);
      DistanceCellRule(a, b, rootA, rootB, ta, tb, TreeTable(fa, fb), i, j);
    }
  }

  lemma {:induction false} EmptyPrefix<L>(f: Forest<L>)
    ensures Pre(f, 0) == Empty
  {
    assert Size(Pre(f, 0)) == 0;
  }

  // ------------------------------------------------------------------ all passes

  /** `W(t)` summed over some of the keyroots: the sizes of their subtrees. */
  function WeightOf<L>(t: FlatTree<L>, ks: seq<nat>): nat
    requires forall i :: 0 <= i < |ks| ==> ks[i] < |t.leftmost| && t.leftmost[ks[i]] <= ks[i]
  {
    if ks == [] then 0
    else WeightOf(t, ks[..|ks| - 1]) + (ks[|ks| - 1] - t.leftmost[ks[|ks| - 1]] + 1)
  }

  ghost predicate Weighable<L>(t: FlatTree<L>) {
    forall i :: 0 <= i < |t.keyroots| ==> t.keyroots[i] < |t.leftmost| && t.leftmost[t.keyroots[i]] <= t.keyroots[i]
  }

  function KeyrootWeight<L>(t: FlatTree<L>): nat
    requires Weighable(t)
  {
    WeightOf(t, t.keyroots)
  }

  /** A pair of nodes is settled once the pass for its two keyroots is over. */
  ghost predicate Settled<L>(
    a: FlatTree<L>, b: FlatTree<L>, fa: Forest<L>, fb: Forest<L>, p: nat, q: nat, x: nat, y: nat)
    requires 1 <= x <= Size(fa) && 1 <= y <= Size(fb)
    requires p <= |a.keyroots| && q <= |b.keyroots|
  {
    || KeyrootOf(fa, x) in a.keyroots[..p]
    || (p < |a.keyroots| && KeyrootOf(fa, x) == a.keyroots[p] && KeyrootOf(fb, y) in b.keyroots[..q])
  }

  lemma {:induction false} EarlierKeyroot(ks: seq<nat>, p: nat, k: nat)
    requires Ascending(ks) && p < |ks| && k in ks && k < ks[p]
    ensures k in ks[..p]
  {
    var i :| 0 <= i < |ks| && ks[i] == k;
    assert i < p;
    assert ks[..p][i] == k;
  }

  /** What a pass reads from the tree table has been settled before it starts. */
  lemma {:induction false} ReadsAreSettled<L>(
    a: FlatTree<L>, b: FlatTree<L>, fa: Forest<L>, fb: Forest<L>, p: nat, q: nat, x: nat, y: nat)
    requires Describes(a, fa) && Describes(b, fb)
    requires p < |a.keyroots| && q < |b.keyroots|
    requires IsKeyroot(fa, a.keyroots[p]) && IsKeyroot(fb, b.keyroots[q])
    requires Leftmost(fa, a.keyroots[p]) <= x <= a.keyroots[p] && Leftmost(fb, b.keyroots[q]) <= y <= b.keyroots[q]
    requires !OnSpines(a, b, a.keyroots[p], b.keyroots[q], x, y)
    ensures Settled(a, b, fa, fb, p, q, x, y)
  {
    KeyrootsInside(fa, a.keyroots[p], x);
    KeyrootsInside(fb, b.keyroots[q], y);
    var kx, ky := KeyrootOf(fa, x), KeyrootOf(fb, y);
    assert kx in a.keyroots && ky in b.keyroots;
    if kx < a.keyroots[p] {
      EarlierKeyroot(a.keyroots, p, kx);
    } else {
      EarlierKeyroot(b.keyroots, q, ky);
    }
  }

  /** After the pass for keyroots `p` and `q`, what is newly settled lies under both of them. */
  lemma {:induction false} NewlySettled<L>(
    a: FlatTree<L>, b: FlatTree<L>, fa: Forest<L>, fb: Forest<L>, p: nat, q: nat, x: nat, y: nat)
    requires p < |a.keyroots| && q < |b.keyroots|
    requires 1 <= x <= Size(fa) && 1 <= y <= Size(fb)
    requires Settled(a, b, fa, fb, p, q + 1, x, y) && !Settled(a, b, fa, fb, p, q, x, y)
    ensures KeyrootOf(fa, x) == a.keyroots[p] && KeyrootOf(fb, y) == b.keyroots[q]
  {
    assert b.keyroots[..q + 1] == b.keyroots[..q] + [b.keyroots[q]];
  }

  lemma {:induction false} RowSettled<L>(
    a: FlatTree<L>, b: FlatTree<L>, fa: Forest<L>, fb: Forest<L>, p: nat, x: nat, y: nat)
    requires Describes(a, fa) && Describes(b, fb) && p < |a.keyroots|
    requires 1 <= x <= Size(fa) && 1 <= y <= Size(fb)
    requires Settled(a, b, fa, fb, p + 1, 0, x, y)
    ensures Settled(a, b, fa, fb, p, |b.keyroots|, x, y)
  {
    assert a.keyroots[..p + 1] == a.keyroots[..p] + [a.keyroots[p]];
    assert b.keyroots[..|b.keyroots|] == b.keyroots;
    assert IsKeyroot(fb, KeyrootOf(fb, y));
  }

  function KeyrootWidth<L>(t: FlatTree<L>, p: nat): nat
    requires Weighable(t) && p < |t.keyroots|
  {
    t.keyroots[p] - t.leftmost[t.keyroots[p]] + 1
  }

  lemma {:induction false} WeightStep<L>(t: FlatTree<L>, q: nat, x: nat)
    requires Weighable(t) && q < |t.keyroots|
    ensures x * WeightOf(t, t.keyroots[..q + 1]) == x * WeightOf(t, t.keyroots[..q]) + x * KeyrootWidth(t, q)
    ensures WeightOf(t, t.keyroots[..q + 1]) * x == WeightOf(t, t.keyroots[..q]) * x + KeyrootWidth(t, q) * x
  {
    assert t.keyroots[..q + 1][..q] == t.keyroots[..q];
    Distribute(x, WeightOf(t, t.keyroots[..q]), KeyrootWidth(t, q));
  }

  lemma {:induction false} Distribute(x: nat, y: nat, z: nat)
    ensures x * (y + z) == x * y + x * z
    ensures (y + z) * x == y * x + z * x
  {
  }

  lemma {:induction false} DescribesWeighable<L>(t: FlatTree<L>, f: Forest<L>)
    requires Describes(t, f)
    ensures Weighable(t)
    ensures Size(f) == 0 ==> KeyrootWeight(t) == 0
  {
    forall i | 0 <= i < |t.keyroots|
      ensures t.keyroots[i] < |t.leftmost| && t.leftmost[t.keyroots[i]] <= t.keyroots[i]
    {
      assert t.keyroots[i] in t.keyroots;
      assert IsKeyroot(f, t.keyroots[i]);
    }
    assert Size(f) == 0 ==> forall k :: !IsKeyroot(f, k);
    assert t.keyroots != [] ==> t.keyroots[0] in t.keyroots;
  }

  /** The tree table holds the distances of all settled pairs. */
  ghost predicate TableSettled<L>(
    a: FlatTree<L>, b: FlatTree<L>, fa: Forest<L>, fb: Forest<L>, p: nat, q: nat, td: array2<nat>)
    requires p <= |a.keyroots| && q <= |b.keyroots|
    requires td.Length0 == Size(fa) + 1 && td.Length1 == Size(fb) + 1
    reads td
  {
    forall x, y :: 1 <= x <= Size(fa) && 1 <= y <= Size(fb) && Settled(a, b, fa, fb, p, q, x, y) ==>
                     td[x, y] == TreeTable(fa, fb)(x, y)
  }

  /** Tables of the right size for the trees described by `fa` and `fb`. */
  ghost predicate Tables<L>(fa: Forest<L>, fb: Forest<L>, td: array2<nat>, fd: array2<nat>) {
    td.Length0 == fd.Length0 == Size(fa) + 1 && td.Length1 == fd.Length1 == Size(fb) + 1 && td != fd
  }

  lemma {:induction false} PassMayStart<L>(
    a: FlatTree<L>, b: FlatTree<L>, fa: Forest<L>, fb: Forest<L>, p: nat, q: nat, td: array2<nat>, x: nat, y: nat)
    requires Describes(a, fa) && Describes(b, fb) && p < |a.keyroots| && q < |b.keyroots|
    requires td.Length0 == Size(fa) + 1 && td.Length1 == Size(fb) + 1
    requires TableSettled(a, b, fa, fb, p, q, td)
    requires IsKeyroot(fa, a.keyroots[p]) && IsKeyroot(fb, b.keyroots[q])
    requires Leftmost(fa, a.keyroots[p]) <= x <= a.keyroots[p] && Leftmost(fb, b.keyroots[q]) <= y <= b.keyroots[q]
    ensures OnSpines(a, b, a.keyroots[p], b.keyroots[q], x, y) || td[x, y] == TreeTable(fa, fb)(x, y)
  {
    if !OnSpines(a, b, a.keyroots[p], b.keyroots[q], x, y) {
      ReadsAreSettled(a, b, fa, fb, p, q, x, y);
    }
  }

  /** The pass for one pair of keyroots settles one more column of keyroots. */
  method PassFor<L(==)>(
    a: FlatTree<L>, b: FlatTree<L>, ghost fa: Forest<L>, ghost fb: Forest<L>, p: nat, q: nat,
    td: array2<nat>, fd: array2<nat>)
    returns (ghost cells: nat)
    requires Describes(a, fa) && Describes(b, fb) && Weighable(a) && Weighable(b)
    requires p < |a.keyroots| && q < |b.keyroots| && Tables(fa, fb, td, fd)
    requires TableSettled(a, b, fa, fb, p, q, td)
    modifies td, fd
    ensures TableSettled(a, b, fa, fb, p, q + 1, td)
    ensures cells == KeyrootWidth(a, p) * KeyrootWidth(b, q)
  {
    var rootA, rootB := a.keyroots[p], b.keyroots[q];
    assert IsKeyroot(fa, rootA) && IsKeyroot(fb, rootB);
    DistancePassRule(a, b, fa, fb, rootA, rootB);
    forall x, y | a.leftmost[rootA] <= x <= rootA && b.leftmost[rootB] <= y <= rootB
      ensures OnSpines(a, b, rootA, rootB, x, y) || td[x, y] == TreeTable(fa, fb)(x, y)
    {
      PassMayStart(a, b, fa, fb, p, q, td, x, y);
    }
    cells := Pass(a, b, rootA, rootB, td, fd, ForestTable(Sub(fa, rootA), Sub(fb, rootB)), TreeTable(fa, fb));
    forall x, y | 1 <= x <= Size(fa) && 1 <= y <= Size(fb) && Settled(a, b, fa, fb, p, q + 1, x, y)
      ensures td[x, y] == TreeTable(fa, fb)(x, y)
    {
      if !Settled(a, b, fa, fb, p, q, x, y) {
        NewlySettled(a, b, fa, fb, p, q, x, y);
      }
    }
  }

  /** The passes of one keyroot of `a` against all keyroots of `b`. */
  method PassesFor<L(==)>(
    a: FlatTree<L>, b: FlatTree<L>, ghost fa: Forest<L>, ghost fb: Forest<L>, p: nat, td: array2<nat>, fd: array2<nat>)
    returns (ghost cells: nat)
    requires Describes(a, fa) && Describes(b, fb) && Weighable(a) && Weighable(b)
    requires p < |a.keyroots| && Tables(fa, fb, td, fd)
    requires TableSettled(a, b, fa, fb, p, 0, td)
    modifies td, fd
    ensures TableSettled(a, b, fa, fb, p + 1, 0, td)
    ensures cells == KeyrootWidth(a, p) * KeyrootWeight(b)
  {
    cells := 0;
    for q := 0 to |b.keyroots|
      invariant TableSettled(a, b, fa, fb, p, q, td)
      invariant cells == KeyrootWidth(a, p) * WeightOf(b, b.keyroots[..q])
    {
      ghost var more := PassFor(a, b, fa, fb, p, q, td, fd);
      WeightStep(b, q, KeyrootWidth(a, p));
      cells := cells + more;
    }
    assert b.keyroots[..|b.keyroots|] == b.keyroots;
    RowIsSettled(a, b, fa, fb, p, td);
  }

  lemma {:induction false} RowIsSettled<L>(
    a: FlatTree<L>, b: FlatTree<L>, fa: Forest<L>, fb: Forest<L>, p: nat, td: array2<nat>)
    requires Describes(a, fa) && Describes(b, fb) && p < |a.keyroots|
    requires td.Length0 == Size(fa) + 1 && td.Length1 == Size(fb) + 1
    requires TableSettled(a, b, fa, fb, p, |b.keyroots|, td)
    ensures TableSettled(a, b, fa, fb, p + 1, 0, td)
  {
    forall x, y | 1 <= x <= Size(fa) && 1 <= y <= Size(fb) && Settled(a, b, fa, fb, p + 1, 0, x, y)
      ensures td[x, y] == TreeTable(fa, fb)(x, y)
    {
      RowSettled(a, b, fa, fb, p, x, y);
    }
  }

  /** Once all passes are over, the last cell of the tree table compares the two whole trees. */
  lemma {:induction false} LastCell<L>(a: FlatTree<L>, b: FlatTree<L>, fa: Forest<L>, fb: Forest<L>, td: array2<nat>)
    requires Describes(a, fa) && Describes(b, fb) && IsTree(fa) && IsTree(fb)
    requires td.Length0 == Size(fa) + 1 && td.Length1 == Size(fb) + 1
    requires TableSettled(a, b, fa, fb, |a.keyroots|, 0, td)
    ensures td[Size(fa), Size(fb)] == Distance(fa, fb)
  {
    assert a.keyroots[..|a.keyroots|] == a.keyroots;
    assert IsKeyroot(fa, KeyrootOf(fa, Size(fa)));
    assert Settled(a, b, fa, fb, |a.keyroots|, 0, Size(fa), Size(fb));
    LastNode(fa);
    LastNode(fb);
  }

  lemma {:induction false} NothingSettledYet<L>(
    a: FlatTree<L>, b: FlatTree<L>, fa: Forest<L>, fb: Forest<L>, td: array2<nat>)
    requires td.Length0 == Size(fa) + 1 && td.Length1 == Size(fb) + 1
    ensures TableSettled(a, b, fa, fb, 0, 0, td)
  {
  }

  /** The passes for all pairs of keyroots, whatever the two tables hold at the start. */
  method AllPasses<L(==)>(
    a: FlatTree<L>, b: FlatTree<L>, ghost fa: Forest<L>, ghost fb: Forest<L>, td: array2<nat>, fd: array2<nat>)
    returns (ghost cells: nat)
    requires Describes(a, fa) && Describes(b, fb) && Weighable(a) && Weighable(b) && Tables(fa, fb, td, fd)
    modifies td, fd
    ensures TableSettled(a, b, fa, fb, |a.keyroots|, 0, td)
    ensures cells == KeyrootWeight(a) * KeyrootWeight(b)
  {
    cells := 0;
    NothingSettledYet(a, b, fa, fb, td);
    for p := 0 to |a.keyroots|
      invariant TableSettled(a, b, fa, fb, p, 0, td)
      invariant cells == WeightOf(a, a.keyroots[..p]) * KeyrootWeight(b)
    {
      ghost var more := PassesFor(a, b, fa, fb, p, td, fd);
      WeightStep(a, p, KeyrootWeight(b));
      cells := cells + more;
    }
    assert a.keyroots[..|a.keyroots|] == a.keyroots;
  }

  /**
    `tree_edit_distance`.  The result is the forest edit distance of the two trees, and the innermost
    loop runs exactly `W(a) * W(b)` times.
  */
  method TreeEditDistance<L(==)>(a: FlatTree<L>, b: FlatTree<L>, ghost fa: Forest<L>, ghost fb: Forest<L>)
    returns (d: nat, ghost cells: nat)
    requires Describes(a, fa) && Describes(b, fb)
    requires (fa.Empty? || IsTree(fa)) && (fb.Empty? || IsTree(fb))
    ensures d == Distance(fa, fb)
    ensures Weighable(a) && Weighable(b)
    ensures cells == KeyrootWeight(a) * KeyrootWeight(b)
  {
    DescribesWeighable(a, fa);
    DescribesWeighable(b, fb);
    var n1, n2 := a.Nodes(), b.Nodes();
    if n1 == 0 {
      return n2, 0;
    }
    if n2 == 0 {
      return n1, 0;
    }
    var td := new nat[n1 + 1, n2 + 1]((_, _) => 0);
    var fd := new nat[n1 + 1, n2 + 1]((_, _) => 0);
    cells := AllPasses(a, b, fa, fb, td, fd);
    LastCell(a, b, fa, fb, td);
    d := td[n1, n2];
  }
}

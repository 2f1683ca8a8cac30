/**
  Postorder numbering.  Node `i` of a forest (counting from 1) is the root of `Sub(f, i)`, and its
  subtree is the range `Leftmost(f, i) .. i`.  `Pre(f, i)` is what remains of `f` when every node
  after `i` is deleted; these prefixes are the forests the dynamic program works on.
*/
module PostOrder {
  import opened Forests

  /** Labels in postorder. */
  ghost function Labels<L>(f: Forest<L>): (s: seq<L>)
    ensures |s| == Size(f)
  {
    match f
    case Empty => []
    case Snoc(left, tag, kids) => Labels(left) + Labels(kids) + [tag]
  }

  /** For each node in postorder, where its subtree starts, when `before` nodes precede the forest. */
  ghost function Lefts<L>(f: Forest<L>, before: nat): (s: seq<nat>)
    ensures |s| == Size(f)
  {
    match f
    case Empty => []
    case Snoc(left, tag, kids) =>
      Lefts(left, before) + Lefts(kids, before + Size(left)) + [before + Size(left) + 1]
  }

  /** The subtree rooted at node `i`. */
  ghost function Sub<L>(f: Forest<L>, i: nat): (t: Forest<L>)
    requires 1 <= i <= Size(f)
    ensures IsTree(t) && 1 <= Size(t) <= i
  {
    if i <= Size(f.left) then Sub(f.left, i)
    else if i < Size(f) then Sub(f.kids, i - Size(f.left))
    else Single(f.tag, f.kids)
  }

  /** The number of the leftmost leaf under node `i`. */
  ghost function Leftmost<L>(f: Forest<L>, i: nat): (k: nat)
    requires 1 <= i <= Size(f)
    ensures 1 <= k <= i
  {
    i - Size(Sub(f, i)) + 1
  }

  /** The forest on nodes 1 to `i`. */
  ghost function Pre<L>(f: Forest<L>, i: nat): (p: Forest<L>)
    requires i <= Size(f)
    ensures Size(p) == i
  {
    if i == Size(f) then f
    else if i <= Size(f.left) then Pre(f.left, i)
    else Append(f.left, Pre(f.kids, i - Size(f.left)))
  }

  /** The last node of a forest is the root of its last tree. */
  lemma {:induction false} LastNode<L>(f: Forest<L>)
    requires f.Snoc?
    ensures Sub(f, Size(f)) == Single(f.tag, f.kids)
    ensures Leftmost(f, Size(f)) == Size(f.left) + 1
  {
    assert Size(Single(f.tag, f.kids)) == Size(f.kids) + 1;
  }

  // ------------------------------------------------------------------ the arrays describe the subtrees

  /** `leftmost[i]` is the first number of the range a subtree occupies. */
  lemma {:induction false} LeftsAt<L>(f: Forest<L>, before: nat, i: nat)
    requires 1 <= i <= Size(f)
    ensures Lefts(f, before)[i - 1] == before + Leftmost(f, i)
  {
    if i <= Size(f.left) {
      LeftsAt(f.left, before, i);
    } else if i < Size(f) {
      LeftsAt(f.kids, before + Size(f.left), i - Size(f.left));
    } else {
      LastNode(f);
    }
  }

  lemma {:induction false} LabelsAt<L>(f: Forest<L>, i: nat)
    requires 1 <= i <= Size(f)
    ensures Labels(f)[i - 1] == Sub(f, i).tag
  {
    if i <= Size(f.left) {
      LabelsAt(f.left, i);
    } else if i < Size(f) {
      LabelsAt(f.kids, i - Size(f.left));
    }
  }

  /**
    The subtree of node `r` holds exactly the nodes `Leftmost(f, r) .. r`, in the same order: the
    subtree at its position `i` is the subtree of `f` at `i` plus the offset.
  */
  lemma {:induction false} SubOfSub<L>(f: Forest<L>, r: nat, i: nat)
    requires 1 <= r <= Size(f)
    requires 1 <= i <= Size(Sub(f, r))
    ensures i + Leftmost(f, r) - 1 <= r
    ensures Sub(Sub(f, r), i) == Sub(f, i + Leftmost(f, r) - 1)
    ensures Leftmost(Sub(f, r), i) == Leftmost(f, i + Leftmost(f, r) - 1) - (Leftmost(f, r) - 1)
  {
    if r <= Size(f.left) {
      SubOfSub(f.left, r, i);
    } else if r < Size(f) {
      SubOfSub(f.kids, r - Size(f.left), i);
    }
  }

  /** Ranges of subtrees nest: what lies in the range of `r` has its own range inside it. */
  lemma {:induction false} RangesNest<L>(f: Forest<L>, r: nat, x: nat)
    requires 1 <= r <= Size(f)
    requires Leftmost(f, r) <= x <= r
    ensures Leftmost(f, r) <= Leftmost(f, x)
  {
    SubOfSub(f, r, x - Leftmost(f, r) + 1);
  }

  /** A node that starts at another one's start lies on its leftmost path, or the other way round. */
  lemma {:induction false} SameStartNests<L>(f: Forest<L>, x: nat, y: nat)
    requires 1 <= x <= y <= Size(f)
    ensures Leftmost(f, y) <= x ==> Leftmost(f, y) <= Leftmost(f, x)
    ensures Leftmost(f, x) == Leftmost(f, y) ==> Leftmost(f, y) <= x
  {
    if Leftmost(f, y) <= x {
      RangesNest(f, y, x);
    }
  }

  /** The leftmost node of a subtree is a leaf. */
  lemma {:induction false} LeftmostIsLeaf<L>(f: Forest<L>, i: nat)
    requires 1 <= i <= Size(f)
    ensures Leftmost(f, Leftmost(f, i)) == Leftmost(f, i)
  {
    var first := Leftmost(f, i);
    RangesNest(f, i, first);
  }

  // ------------------------------------------------------------------ prefixes

  /**
    The last tree of the prefix at `i` is the whole subtree of node `i`; what stands to its left
    is the prefix that ends just before that subtree; deleting its root leaves the prefix at `i - 1`.
  */
  lemma {:induction false} PrefixShape<L>(f: Forest<L>, i: nat)
    requires 1 <= i <= Size(f)
    ensures Pre(f, i).Snoc?
    ensures Single(Pre(f, i).tag, Pre(f, i).kids) == Sub(f, i)
    ensures Pre(f, i).left == Pre(f, Leftmost(f, i) - 1)
    ensures DropRoot(Pre(f, i)) == Pre(f, i - 1)
  {
    if i <= Size(f.left) {
      PrefixShape(f.left, i);
    } else if i < Size(f) {
      var m := Size(f.left);
      PrefixShape(f.kids, i - m);
      var p := Pre(f.kids, i - m);
      AppendAssociative(f.left, p.left, p.kids);
    } else {
      LastNode(f);
    }
  }
}

/**
  The recursive forest edit distance: unit-cost node deletions, insertions and relabellings.
  This is the specification `tree_edit_distance` is proved against, and it is proved here to be
  a metric.
*/
module EditDistance {
  import opened Naturals
  import opened Forests

  /** The cost of keeping a node: nothing when the labels agree, one relabelling otherwise. */
  ghost function Relabel<L>(a: L, b: L): nat {
    if a == b then 0 else 1
  }

  /**
    The cheapest way to turn `f` into `g`.  Either the root of the rightmost tree of `f` is
    deleted, or that of `g` is inserted, or the two are matched; a match sends children to
    children and what is left of the one root to what is left of the other.
  */
  ghost function Distance<L>(f: Forest<L>, g: Forest<L>): nat
    decreases Size(f) + Size(g)
  {
    if f.Empty? then Size(g)
    else if g.Empty? then Size(f)
    else Min(Min(Delete(f, g), Insert(f, g)), Match(f, g))
  }

  ghost function Delete<L>(f: Forest<L>, g: Forest<L>): nat
    requires f.Snoc?
    decreases Size(f) + Size(g), 0
  {
    Distance(DropRoot(f), g) + 1
  }

  ghost function Insert<L>(f: Forest<L>, g: Forest<L>): nat
    requires g.Snoc?
    decreases Size(f) + Size(g), 0
  {
    Distance(f, DropRoot(g)) + 1
  }

  ghost function Match<L>(f: Forest<L>, g: Forest<L>): nat
    requires f.Snoc? && g.Snoc?
    decreases Size(f) + Size(g), 0
  {
    Distance(f.left, g.left) + Distance(f.kids, g.kids) + Relabel(f.tag, g.tag)
  }

  // ------------------------------------------------------------------ one-step bounds

  /** Deleting or inserting a rightmost root costs at most one, also against the empty forest. */
  lemma {:induction false} DeleteBound<L>(f: Forest<L>, g: Forest<L>)
    requires f.Snoc?
    ensures Distance(f, g) <= Distance(DropRoot(f), g) + 1
  {
  }

  lemma {:induction false} InsertBound<L>(f: Forest<L>, g: Forest<L>)
    requires g.Snoc?
    ensures Distance(f, g) <= Distance(f, DropRoot(g)) + 1
  {
  }

  lemma {:induction false} MatchBound<L>(f: Forest<L>, g: Forest<L>)
    requires f.Snoc? && g.Snoc?
    ensures Distance(f, g) <= Match(f, g)
  {
  }

  /** What a cheapest edit does last. */
  datatype Choice = Deletes | Inserts | Matches

  ghost function Best<L>(f: Forest<L>, g: Forest<L>): (c: Choice)
    requires f.Snoc? && g.Snoc?
    ensures c.Deletes? ==> Distance(f, g) == Delete(f, g)
    ensures c.Inserts? ==> Distance(f, g) == Insert(f, g)
    ensures c.Matches? ==> Distance(f, g) == Match(f, g)
  {
    if Distance(f, g) == Delete(f, g) then Deletes
    else if Distance(f, g) == Insert(f, g) then Inserts
    else Matches
  }

  // ------------------------------------------------------------------ size bounds

  lemma {:induction false} SizeBounds<L>(f: Forest<L>, g: Forest<L>)
    ensures Size(f) <= Size(g) + Distance(f, g)
    ensures Size(g) <= Size(f) + Distance(f, g)
    ensures Distance(f, g) <= Size(f) + Size(g)
    decreases Size(f) + Size(g)
  {
    if f.Snoc? && g.Snoc? {
      SizeBounds(DropRoot(f), g);
      SizeBounds(f, DropRoot(g));
      SizeBounds(f.left, g.left);
      SizeBounds(f.kids, g.kids);
    }
  }

  // ------------------------------------------------------------------ subadditivity

  /** Editing two adjacent pieces separately is one way to edit the whole. */
  lemma {:induction false} Subadditive<L>(f1: Forest<L>, g1: Forest<L>, f2: Forest<L>, g2: Forest<L>)
    ensures Distance(Append(f1, f2), Append(g1, g2)) <= Distance(f1, g1) + Distance(f2, g2)
    decreases Size(f2) + Size(g2)
  {
    var f, g := Append(f1, f2), Append(g1, g2);
    if f2.Snoc? && (g2.Empty? || Best(f2, g2).Deletes?) {
      AppendAssociative(f1, f2.left, f2.kids);
      Subadditive(f1, g1, DropRoot(f2), g2);
      DeleteBound(f, g);
    } else if g2.Snoc? && (f2.Empty? || Best(f2, g2).Inserts?) {
      AppendAssociative(g1, g2.left, g2.kids);
      Subadditive(f1, g1, f2, DropRoot(g2));
      InsertBound(f, g);
    } else if f2.Snoc? && g2.Snoc? {
      Subadditive(f1, g1, f2.left, g2.left);
      MatchBound(f, g);
    }
  }

  // ------------------------------------------------------------------ metric laws

  lemma {:induction false} SelfDistance<L>(f: Forest<L>)
    ensures Distance(f, f) == 0
  {
    if f.Snoc? {
      SelfDistance(f.left);
      SelfDistance(f.kids);
      MatchBound(f, f);
    }
  }

  lemma {:induction false} ZeroMeansEqual<L>(f: Forest<L>, g: Forest<L>)
    requires Distance(f, g) == 0
    ensures f == g
  {
    if f.Snoc? && g.Snoc? {
      ZeroMeansEqual(f.left, g.left);
      ZeroMeansEqual(f.kids, g.kids);
    }
  }

  lemma {:induction false} Symmetric<L>(f: Forest<L>, g: Forest<L>)
    ensures Distance(f, g) == Distance(g, f)
    decreases Size(f) + Size(g)
  {
    if f.Snoc? && g.Snoc? {
      Symmetric(DropRoot(f), g);
      Symmetric(f, DropRoot(g));
      Symmetric(f.left, g.left);
      Symmetric(f.kids, g.kids);
    }
  }

  /** Two edits in a row are an edit: the detour over `g` is never cheaper than the direct way. */
  lemma {:induction false} Triangle<L>(f: Forest<L>, g: Forest<L>, h: Forest<L>)
    ensures Distance(f, h) <= Distance(f, g) + Distance(g, h)
    decreases Size(f) + Size(g) + Size(h)
  {
    if f.Empty? || g.Empty? || h.Empty? {
      SizeBounds(f, g);
      SizeBounds(g, h);
      SizeBounds(f, h);
    } else if Best(f, g).Deletes? {
      Triangle(DropRoot(f), g, h);
      DeleteBound(f, h);
    } else if Best(g, h).Inserts? {
      Triangle(f, g, DropRoot(h));
      InsertBound(f, h);
    } else if Best(f, g).Inserts? && Best(g, h).Deletes? {
      Triangle(f, DropRoot(g), h);
    } else if Best(f, g).Inserts? {
      Triangle(f, DropRoot(g), DropRoot(h));
      Subadditive(g.left, h.left, g.kids, h.kids);
      InsertBound(f, h);
    } else if Best(g, h).Deletes? {
      Triangle(DropRoot(f), DropRoot(g), h);
      Subadditive(f.left, g.left, f.kids, g.kids);
      DeleteBound(f, h);
    } else {
      Triangle(f.left, g.left, h.left);
      Triangle(f.kids, g.kids, h.kids);
      MatchBound(f, h);
    }
  }

  /** The bounds for two non-empty trees: the roots need never be deleted and inserted. */
  lemma {:induction false} TreeBounds<L>(a: Forest<L>, b: Forest<L>)
    requires IsTree(a) && IsTree(b)
    ensures Size(a) - Size(b) <= Distance(a, b)
    ensures Size(b) - Size(a) <= Distance(a, b)
    ensures Distance(a, b) <= Size(a) + Size(b) - 1
  {
    SizeBounds(a, b);
    SizeBounds(a.kids, b.kids);
    MatchBound(a, b);
  }
}

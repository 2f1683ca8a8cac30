/**
  Ordered labelled forests, built from the right.

  `Snoc(left, tag, kids)` is the forest `left` followed by one more tree, whose root carries
  `tag` and whose children are the forest `kids`.  The rightmost tree is the last one in
  postorder, which is the end from which the edit-distance recurrence takes a forest apart.
  A single tree is a forest with an empty `left`.
*/
module Forests {
  datatype Forest<L> = Empty | Snoc(left: Forest<L>, tag: L, kids: Forest<L>)

  /** The number of nodes. */
  function Size<L>(f: Forest<L>): nat {
    match f
    case Empty => 0
    case Snoc(left, _, kids) => Size(left) + Size(kids) + 1
  }

  /** `f` followed by `g`. */
  function Append<L>(f: Forest<L>, g: Forest<L>): (r: Forest<L>)
    ensures Size(r) == Size(f) + Size(g)
  {
    match g
    case Empty => f
    case Snoc(left, tag, kids) => Snoc(Append(f, left), tag, kids)
  }

  /** The forest that is left when the root of the rightmost tree is deleted: its children move up. */
  function DropRoot<L>(f: Forest<L>): (r: Forest<L>)
    requires f.Snoc?
    ensures Size(r) == Size(f) - 1
  {
    Append(f.left, f.kids)
  }

  /** One tree, as a forest. */
  function Single<L>(tag: L, kids: Forest<L>): Forest<L> {
    Snoc(Empty, tag, kids)
  }

  predicate IsTree<L>(f: Forest<L>) {
    f.Snoc? && f.left.Empty?
  }

  lemma {:induction false} AppendEmptyLeft<L>(f: Forest<L>)
    ensures Append(Empty, f) == f
  {
    match f
    case Empty =>
    case Snoc(left, _, _) => AppendEmptyLeft(left);
  }

  lemma {:induction false} AppendAssociative<L>(f: Forest<L>, g: Forest<L>, h: Forest<L>)
    ensures Append(Append(f, g), h) == Append(f, Append(g, h))
  {
    match h
    case Empty =>
    case Snoc(left, _, _) => AppendAssociative(f, g, left);
  }
}

/**
  What the distance measures: the length of a shortest script of node deletions, insertions and
  relabellings.  The operations are defined on whole forests with no reference to the recurrence;
  `Distance` is proved to be the minimum over all scripts.
*/
module EditScripts {
  import opened Forests
  import opened EditDistance

  /** `g` is `f` with one node deleted, anywhere; the children of the node take its place. */
  ghost predicate Deletes<L>(f: Forest<L>, g: Forest<L>) {
    f.Snoc? &&
    (g == DropRoot(f) ||
     (g.Snoc? && g.tag == f.tag &&
      ((g.kids == f.kids && Deletes(f.left, g.left)) ||
       (g.left == f.left && Deletes(f.kids, g.kids)))))
  }

  /** `g` is `f` with the label of one node replaced. */
  ghost predicate Relabels<L>(f: Forest<L>, g: Forest<L>) {
    f.Snoc? && g.Snoc? &&
    ((g.left == f.left && g.kids == f.kids) ||
     (g.tag == f.tag &&
      ((g.kids == f.kids && Relabels(f.left, g.left)) ||
       (g.left == f.left && Relabels(f.kids, g.kids)))))
  }

  /** One edit: a deletion, an insertion (a deletion read backwards) or a relabelling. */
  ghost predicate Edits<L>(f: Forest<L>, g: Forest<L>) {
    Deletes(f, g) || Deletes(g, f) || Relabels(f, g)
  }

  /** The forests a script passes through, from the first to the last. */
  ghost predicate IsScript<L>(s: seq<Forest<L>>, f: Forest<L>, g: Forest<L>) {
    |s| > 0 && s[0] == f && s[|s| - 1] == g &&
    forall i :: 0 <= i < |s| - 1 ==> Edits(s[i], s[i + 1])
  }

  ghost function Cost<L>(s: seq<Forest<L>>): int {
    |s| - 1
  }

  // ------------------------------------------------------------------ no script is shorter

  lemma {:induction false} DeletionCostsOne<L>(f: Forest<L>, g: Forest<L>)
    requires Deletes(f, g)
    ensures Distance(f, g) <= 1
  {
    if g == DropRoot(f) {
      SelfDistance(g);
      DeleteBound(f, g);
    } else if g.kids == f.kids && Deletes(f.left, g.left) {
      DeletionCostsOne(f.left, g.left);
      SelfDistance(f.kids);
      MatchBound(f, g);
    } else {
      DeletionCostsOne(f.kids, g.kids);
      SelfDistance(f.left);
      MatchBound(f, g);
    }
  }

  lemma {:induction false} RelabellingCostsOne<L>(f: Forest<L>, g: Forest<L>)
    requires Relabels(f, g)
    ensures Distance(f, g) <= 1
  {
    SelfDistance(f.left);
    SelfDistance(f.kids);
    MatchBound(f, g);
    if g.left == f.left && g.kids == f.kids {
    } else if g.kids == f.kids && Relabels(f.left, g.left) {
      RelabellingCostsOne(f.left, g.left);
    } else {
      RelabellingCostsOne(f.kids, g.kids);
    }
  }

  lemma {:induction false} EditCostsOne<L>(f: Forest<L>, g: Forest<L>)
    requires Edits(f, g)
    ensures Distance(f, g) <= 1
  {
    if Deletes(f, g) {
      DeletionCostsOne(f, g);
    } else if Deletes(g, f) {
      DeletionCostsOne(g, f);
      Symmetric(f, g);
    } else {
      RelabellingCostsOne(f, g);
    }
  }

  lemma {:induction false} NoScriptIsShorter<L>(s: seq<Forest<L>>, f: Forest<L>, g: Forest<L>)
    requires IsScript(s, f, g)
    ensures Distance(f, g) <= Cost(s)
    decreases |s|
  {
    if |s| == 1 {
      SelfDistance(f);
    } else {
      assert Edits(s[0], s[1]);
      EditCostsOne(f, s[1]);
      NoScriptIsShorter(s[1..], s[1], g);
      Triangle(f, s[1], g);
    }
  }

  // ------------------------------------------------------------------ a script that short exists

  /** The script `s` played inside the forest to the left of a fixed tree. */
  ghost function OnLeft<L>(s: seq<Forest<L>>, tag: L, kids: Forest<L>): (r: seq<Forest<L>>)
    ensures |r| == |s| && forall i :: 0 <= i < |s| ==> r[i] == Snoc(s[i], tag, kids)
  {
    seq(|s|, i requires 0 <= i < |s| => Snoc(s[i], tag, kids))
  }

  /** The script `s` played among the children of a fixed root. */
  ghost function OnKids<L>(left: Forest<L>, tag: L, s: seq<Forest<L>>): (r: seq<Forest<L>>)
    ensures |r| == |s| && forall i :: 0 <= i < |s| ==> r[i] == Snoc(left, tag, s[i])
  {
    seq(|s|, i requires 0 <= i < |s| => Snoc(left, tag, s[i]))
  }

  lemma {:induction false} OnLeftIsScript<L>(s: seq<Forest<L>>, f: Forest<L>, g: Forest<L>, tag: L, kids: Forest<L>)
    requires IsScript(s, f, g)
    ensures IsScript(OnLeft(s, tag, kids), Snoc(f, tag, kids), Snoc(g, tag, kids))
  {
    var r := OnLeft(s, tag, kids);
    forall i | 0 <= i < |r| - 1 ensures Edits(r[i], r[i + 1]) {
      assert Edits(s[i], s[i + 1]);
    }
  }

  lemma {:induction false} OnKidsIsScript<L>(left: Forest<L>, tag: L, s: seq<Forest<L>>, f: Forest<L>, g: Forest<L>)
    requires IsScript(s, f, g)
    ensures IsScript(OnKids(left, tag, s), Snoc(left, tag, f), Snoc(left, tag, g))
  {
    var r := OnKids(left, tag, s);
    forall i | 0 <= i < |r| - 1 ensures Edits(r[i], r[i + 1]) {
      assert Edits(s[i], s[i + 1]);
    }
  }

  /** Two scripts one after the other; the forest in which they meet is listed once. */
  ghost function Join<L>(s: seq<Forest<L>>, t: seq<Forest<L>>): seq<Forest<L>>
    requires |t| > 0
  {
    s + t[1..]
  }

  lemma {:induction false} JoinIsScript<L>(
    s: seq<Forest<L>>, t: seq<Forest<L>>, f: Forest<L>, g: Forest<L>, h: Forest<L>)
    requires IsScript(s, f, g) && IsScript(t, g, h)
    ensures IsScript(Join(s, t), f, h)
    ensures Cost(Join(s, t)) == Cost(s) + Cost(t)
  {
    var r := Join(s, t);
    forall i | 0 <= i < |r| - 1 ensures Edits(r[i], r[i + 1]) {
      if i < |s| - 1 {
        assert Edits(s[i], s[i + 1]);
      } else {
        assert Edits(t[i - |s| + 1], t[i - |s| + 2]);
      }
    }
  }

  /** Deletes every node, rightmost root first. */
  lemma {:induction false} EmptyingScript<L>(f: Forest<L>) returns (s: seq<Forest<L>>)
    ensures IsScript(s, f, Empty)
    ensures Cost(s) == Size(f)
    decreases Size(f)
  {
    if f.Empty? {
      s := [f];
    } else {
      var t := EmptyingScript(DropRoot(f));
      assert IsScript([f, DropRoot(f)], f, DropRoot(f));
      s := Join([f, DropRoot(f)], t);
      JoinIsScript([f, DropRoot(f)], t, f, DropRoot(f), Empty);
    }
  }

  ghost function Backwards<L>(s: seq<Forest<L>>): (r: seq<Forest<L>>)
    ensures |r| == |s| && forall i :: 0 <= i < |s| ==> r[i] == s[|s| - 1 - i]
  {
    seq(|s|, i requires 0 <= i < |s| => s[|s| - 1 - i])
  }

  lemma {:induction false} RelabelsBackwards<L>(f: Forest<L>, g: Forest<L>)
    requires Relabels(f, g)
    ensures Relabels(g, f)
  {
    if g.left == f.left && g.kids == f.kids {
    } else if g.kids == f.kids && Relabels(f.left, g.left) {
      RelabelsBackwards(f.left, g.left);
    } else {
      RelabelsBackwards(f.kids, g.kids);
    }
  }

  lemma {:induction false} BackwardsIsScript<L>(s: seq<Forest<L>>, f: Forest<L>, g: Forest<L>)
    requires IsScript(s, f, g)
    ensures IsScript(Backwards(s), g, f)
  {
    var r := Backwards(s);
    forall i | 0 <= i < |r| - 1 ensures Edits(r[i], r[i + 1]) {
      var k := |s| - 2 - i;
      assert Edits(s[k], s[k + 1]);
      if Relabels(s[k], s[k + 1]) {
        RelabelsBackwards(s[k], s[k + 1]);
      }
    }
  }

  /** A script that matches the two rightmost roots: what is left of them, their children, themselves. */
  lemma {:induction false} MatchScript<L>(f: Forest<L>, g: Forest<L>, s: seq<Forest<L>>, t: seq<Forest<L>>)
    returns (r: seq<Forest<L>>)
    requires f.Snoc? && g.Snoc?
    requires IsScript(s, f.left, g.left) && IsScript(t, f.kids, g.kids)
    ensures IsScript(r, f, g)
    ensures Cost(r) == Cost(s) + Cost(t) + Relabel(f.tag, g.tag)
  {
    var mid := Snoc(g.left, f.tag, f.kids);
    var end := Snoc(g.left, f.tag, g.kids);
    OnLeftIsScript(s, f.left, g.left, f.tag, f.kids);
    OnKidsIsScript(g.left, f.tag, t, f.kids, g.kids);
    var st := Join(OnLeft(s, f.tag, f.kids), OnKids(g.left, f.tag, t));
    JoinIsScript(OnLeft(s, f.tag, f.kids), OnKids(g.left, f.tag, t), f, mid, end);
    if f.tag == g.tag {
      r := st;
    } else {
      assert Edits(end, g);
      assert IsScript([end, g], end, g);
      r := Join(st, [end, g]);
      JoinIsScript(st, [end, g], f, end, g);
    }
  }

  lemma {:induction false} ShortestScript<L>(f: Forest<L>, g: Forest<L>) returns (s: seq<Forest<L>>)
    ensures IsScript(s, f, g)
    ensures Cost(s) == Distance(f, g)
    decreases Size(f) + Size(g)
  {
    if g.Empty? {
      s := EmptyingScript(f);
    } else if f.Empty? {
      var t := EmptyingScript(g);
      BackwardsIsScript(t, g, Empty);
      s := Backwards(t);
    } else if Best(f, g).Deletes? {
      var t := ShortestScript(DropRoot(f), g);
      assert IsScript([f, DropRoot(f)], f, DropRoot(f));
      JoinIsScript([f, DropRoot(f)], t, f, DropRoot(f), g);
      s := Join([f, DropRoot(f)], t);
    } else if Best(f, g).Inserts? {
      var t := ShortestScript(f, DropRoot(g));
      assert IsScript([DropRoot(g), g], DropRoot(g), g);
      JoinIsScript(t, [DropRoot(g), g], f, DropRoot(g), g);
      s := Join(t, [DropRoot(g), g]);
    } else {
      var s1 := ShortestScript(f.left, g.left);
      var s2 := ShortestScript(f.kids, g.kids);
      s := MatchScript(f, g, s1, s2);
    }
  }

  /** `d` is the number of edits in a shortest script from `f` to `g`. */
  ghost predicate IsMinimumEditCount<L(!new)>(f: Forest<L>, g: Forest<L>, d: int) {
    (exists s :: IsScript(s, f, g) && Cost(s) == d) &&
    (forall s :: IsScript(s, f, g) ==> d <= Cost(s))
  }

  /** The recurrence computes exactly the minimum number of edits. */
  lemma {:induction false} DistanceIsMinimum<L(!new)>(f: Forest<L>, g: Forest<L>, d: int)
    ensures IsMinimumEditCount(f, g, d) <==> d == Distance(f, g)
  {
    var best := ShortestScript(f, g);
    forall s | IsScript(s, f, g) ensures Distance(f, g) <= Cost(s) {
      NoScriptIsShorter(s, f, g);
    }
  }
}

/** The flattened tree of `parse_tree`: postorder labels, leftmost descendants and keyroots. */
module FlatTrees {
  import opened Forests
  import opened PostOrder
  import opened Options

  /** Position 0 of `labels` and `leftmost` is a sentinel; nodes are numbered from 1. */
  datatype FlatTree<L> = FlatTree(labels: seq<Option<L>>, leftmost: seq<nat>, keyroots: seq<nat>, depth: nat)
  {
    function Nodes(): nat
      requires |labels| > 0
    {
      |labels| - 1
    }
  }

  /** No later node has the same leftmost descendant. */
  ghost predicate IsKeyroot<L>(f: Forest<L>, k: nat) {
    1 <= k <= Size(f) && forall j :: k < j <= Size(f) ==> Leftmost(f, j) != Leftmost(f, k)
  }

  ghost predicate Ascending(s: seq<nat>) {
    forall i, j :: 0 <= i < j < |s| ==> s[i] < s[j]
  }

  /** `t` is the flat form of `f`. */
  ghost predicate Describes<L>(t: FlatTree<L>, f: Forest<L>) {
    && |t.labels| == |t.leftmost| == Size(f) + 1
    && t.labels[0] == None && t.leftmost[0] == 0
    && (forall i :: 1 <= i <= Size(f) ==> t.labels[i] == Some(Sub(f, i).tag))
    && (forall i :: 1 <= i <= Size(f) ==> t.leftmost[i] == Leftmost(f, i))
    && Ascending(t.keyroots)
    && (forall k :: k in t.keyroots <==> IsKeyroot(f, k))
  }

  // ------------------------------------------------------------------ keyroots

  /** The one keyroot that has the same leftmost descendant as `x`. */
  ghost function KeyrootOf<L>(f: Forest<L>, x: nat): (k: nat)
    requires 1 <= x <= Size(f)
    ensures IsKeyroot(f, k) && x <= k && Leftmost(f, k) == Leftmost(f, x)
    decreases Size(f) - x
  {
    if IsKeyroot(f, x) then x
    else
      var j :| x < j <= Size(f) && Leftmost(f, j) == Leftmost(f, x);
      KeyrootOf(f, j)
  }

  lemma {:induction false} KeyrootIsUnique<L>(f: Forest<L>, r: nat, x: nat)
    requires IsKeyroot(f, r) && 1 <= x <= Size(f) && Leftmost(f, r) == Leftmost(f, x)
    ensures KeyrootOf(f, x) == r
  {
  }

  /** Every node under a keyroot is handled by that keyroot's pass or by an earlier one. */
  lemma {:induction false} KeyrootsInside<L>(f: Forest<L>, r: nat, x: nat)
    requires IsKeyroot(f, r) && Leftmost(f, r) <= x <= r
    ensures KeyrootOf(f, x) <= r
    ensures KeyrootOf(f, x) == r <==> Leftmost(f, x) == Leftmost(f, r)
  {
    var k := KeyrootOf(f, x);
    RangesNest(f, r, x);
    if r < k {
      RangesNest(f, k, r);
      assert false;
    }
  }

  /** The leaves below `n`, as the flat form recognises them: nodes that are their own leftmost descendant. */
  ghost function Leaves<L>(f: Forest<L>, n: nat): (s: set<nat>)
    requires n <= Size(f)
  {
    set i: nat | 1 <= i <= n && Leftmost(f, i) == i
  }

  ghost function Elements(s: seq<nat>): set<nat> {
    set k | k in s
  }

  lemma {:induction false} AscendingCount(s: seq<nat>)
    requires Ascending(s)
    ensures |Elements(s)| == |s|
  {
    if s != [] {
      var init, last := s[..|s| - 1], s[|s| - 1];
      AscendingCount(init);
      assert Elements(s) == Elements(init) + {last};
    }
  }

  /** There are as many keyroots as leaves: the leftmost leaf tells keyroots apart, and each leaf has one. */
  lemma {:induction false} KeyrootPerLeaf<L>(t: FlatTree<L>, f: Forest<L>)
    requires Describes(t, f)
    ensures |t.keyroots| == |Leaves(f, Size(f))|
  {
    var ks, leaves := Elements(t.keyroots), Leaves(f, Size(f));
    AscendingCount(t.keyroots);
    var first := map k: nat | k in ks :: Leftmost(f, k);
    forall k | k in ks ensures first[k] in leaves {
      LeftmostIsLeaf(f, k);
    }
    forall i | i in leaves ensures KeyrootOf(f, i) in ks && first[KeyrootOf(f, i)] == i {
    }
    InjectionOnto(ks, leaves, first, map i: nat | i in leaves :: KeyrootOf(f, i));
  }

  /** Two finite sets with mutually inverse maps between them have the same number of elements. */
  lemma {:induction false} InjectionOnto(a: set<nat>, b: set<nat>, there: map<nat, nat>, back: map<nat, nat>)
    requires forall x :: x in a ==> x in there && there[x] in b && there[x] in back && back[there[x]] == x
    requires forall y :: y in b ==> y in back && back[y] in a && back[y] in there && there[back[y]] == y
    ensures |a| == |b|
    decreases |a|
  {
    if a == {} {
      assert forall y :: y in b ==> back[y] in a;
      assert b == {};
    } else {
      var x :| x in a;
      var y := there[x];
      InjectionOnto(a - {x}, b - {y}, there, back);
      assert a == (a - {x}) + {x} && b == (b - {y}) + {y};
    }
  }

  // ------------------------------------------------------------------ recursive postorder

  ghost function Wrapped<L>(s: seq<L>): (r: seq<Option<L>>)
    ensures |r| == |s| && forall i :: 0 <= i < |s| ==> r[i] == Some(s[i])
  {
    seq(|s|, i requires 0 <= i < |s| => Some(s[i]))
  }

  /** After the sentinel, the two arrays of a flat tree are the recursive postorder of the tree. */
  lemma {:induction false} FlatFormIsPostorder<L>(t: FlatTree<L>, f: Forest<L>)
    requires Describes(t, f)
    ensures t.labels == [None] + Wrapped(Labels(f))
    ensures t.leftmost == [0] + Lefts(f, 0)
  {
    forall i | 1 <= i <= Size(f)
      ensures t.labels[i] == Some(Labels(f)[i - 1]) && t.leftmost[i] == Lefts(f, 0)[i - 1]
    {
      LabelsAt(f, i);
      LeftsAt(f, 0, i);
    }
  }
}

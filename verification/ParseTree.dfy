/**
  `parse_tree`: a nested document is flattened with an explicit stack.  The loop is proved against
  the recursive postorder of the document, and it fails exactly on documents that have a node
  without a label or with children that are no sequence.
*/
module ParseTree {
  import opened Naturals
  import opened Forests
  import opened PostOrder
  import opened FlatTrees
  import opened Options

  /** A document node: a mapping, or any other value, which is a leaf labelled by itself. */
  datatype Doc<L> = Scalar(value: L) | Mapping(tag: Option<L>, children: Children<L>)

  /** The children entry of a mapping: missing or falsy, a sequence, or something else. */
  datatype Children<L> = Missing | Items(items: seq<Doc<L>>) | NotASequence

  // ------------------------------------------------------------------ recursive specification

  ghost predicate WellFormed<L>(doc: Doc<L>)
    decreases doc, 1
  {
    match doc
    case Scalar(_) => true
    case Mapping(tag, Missing) => tag.Some?
    case Mapping(tag, Items(items)) => tag.Some? && AllWellFormed(items)
    case Mapping(_, NotASequence) => false
  }

  ghost predicate AllWellFormed<L>(docs: seq<Doc<L>>)
    decreases docs, 0
  {
    docs == [] || (AllWellFormed(docs[..|docs| - 1]) && WellFormed(docs[|docs| - 1]))
  }

  function TagOf<L>(doc: Doc<L>): Option<L> {
    match doc
    case Scalar(value) => Some(value)
    case Mapping(tag, _) => tag
  }

  function KidsOf<L>(doc: Doc<L>): seq<Doc<L>> {
    if doc.Mapping? && doc.children.Items? then doc.children.items else []
  }

  /** The forest a sequence of documents stands for. */
  ghost function ToForest<L>(docs: seq<Doc<L>>): Forest<L>
    requires AllWellFormed(docs)
    decreases docs, 0
  {
    if docs == [] then Empty
    else
      var last := docs[|docs| - 1];
      assert WellFormed(last);
      Snoc(ToForest(docs[..|docs| - 1]), TagOf(last).value, KidsForest(last))
  }

  ghost function KidsForest<L>(doc: Doc<L>): Forest<L>
    requires WellFormed(doc)
    decreases doc, 1
  {
    match doc
    case Mapping(_, Items(items)) => ToForest(items)
    case _ => Empty
  }

  /** The tree of one document, or the empty tree when there is none. */
  ghost function TreeOf<L>(root: Option<Doc<L>>): (f: Forest<L>)
    requires root.Some? ==> WellFormed(root.value)
    ensures f.Empty? || IsTree(f)
  {
    if root.None? then Empty else DocTree(root.value)
  }

  ghost function DocTree<L>(doc: Doc<L>): Forest<L>
    requires WellFormed(doc)
  {
    Single(TagOf(doc).value, KidsForest(doc))
  }

  /** The number of nodes of some documents, well-formed or not. */
  ghost function DocSize<L>(docs: seq<Doc<L>>): nat
    decreases docs, 0
  {
    if docs == [] then 0 else DocSize(docs[..|docs| - 1]) + 1 + KidsSize(docs[|docs| - 1])
  }

  ghost function KidsSize<L>(doc: Doc<L>): nat
    decreases doc, 1
  {
    match doc
    case Mapping(_, Items(items)) => DocSize(items)
    case _ => 0
  }

  /** The number of levels of the deepest of some documents. */
  ghost function Height<L>(docs: seq<Doc<L>>): nat
    decreases docs, 0
  {
    if docs == [] then 0 else Max(Height(docs[..|docs| - 1]), 1 + KidsHeight(docs[|docs| - 1]))
  }

  ghost function KidsHeight<L>(doc: Doc<L>): nat
    decreases doc, 1
  {
    match doc
    case Mapping(_, Items(items)) => Height(items)
    case _ => 0
  }

  /** The tree of the last document is the last tree of the forest. */
  lemma {:induction false} DocAt<L>(docs: seq<Doc<L>>, i: nat)
    requires AllWellFormed(docs) && i < |docs|
    ensures AllWellFormed(docs[..i]) && AllWellFormed(docs[..i + 1])
    ensures Size(ToForest(docs[..i + 1])) == Size(ToForest(docs[..i])) + Size(DocTree(docs[i]))
    ensures Size(ToForest(docs[..i + 1])) <= Size(ToForest(docs))
    ensures Sub(ToForest(docs), Size(ToForest(docs[..i + 1]))) == DocTree(docs[i])
    decreases |docs|
  {
    var init := docs[..|docs| - 1];
    if i == |docs| - 1 {
      assert docs[..i + 1] == docs && docs[..i] == init;
    } else {
      assert init[..i] == docs[..i] && init[..i + 1] == docs[..i + 1];
      DocAt(init, i);
    }
  }

  // ------------------------------------------------------------------ the stack

  /** A node still to be expanded, or one whose children are done, with where its subtree started. */
  datatype Frame<L> = Frame(doc: Doc<L>, expanded: bool, start: nat, depth: nat)

  ghost predicate FrameOk<L>(frame: Frame<L>) {
    if frame.expanded then TagOf(frame.doc).Some? else WellFormed(frame.doc)
  }

  ghost predicate StackOk<L>(stack: seq<Frame<L>>) {
    stack == [] || (FrameOk(stack[|stack| - 1]) && StackOk(stack[..|stack| - 1]))
  }

  /** The frame holds node number `e` of the tree. */
  ghost predicate FrameAt<L>(tree: Forest<L>, frame: Frame<L>, e: nat) {
    && 1 <= e <= Size(tree)
    && WellFormed(frame.doc) && Sub(tree, e) == DocTree(frame.doc)
    && (frame.expanded ==> frame.start == Leftmost(tree, e))
  }

  /** The first node number the frame will emit. */
  ghost function First<L>(tree: Forest<L>, frame: Frame<L>, e: nat): nat
    requires 1 <= e <= Size(tree)
  {
    if frame.expanded then e else Leftmost(tree, e)
  }

  /**
    The frames of a stack cover the nodes from `next` to the root: frame `k` holds node `ends[k]`,
    and each frame goes on where the one above it stops.
  */
  ghost predicate Placed<L>(tree: Forest<L>, stack: seq<Frame<L>>, ends: seq<nat>, next: nat) {
    if stack == [] then ends == [] && next == Size(tree) + 1
    else
      && |ends| == |stack|
      && FrameAt(tree, stack[|stack| - 1], ends[|stack| - 1])
      && next == First(tree, stack[|stack| - 1], ends[|stack| - 1])
      && Placed(tree, stack[..|stack| - 1], ends[..|stack| - 1], ends[|stack| - 1] + 1)
  }

  lemma {:induction false} PushPlaced<L>(tree: Forest<L>, stack: seq<Frame<L>>, ends: seq<nat>, frame: Frame<L>, e: nat)
    requires Placed(tree, stack, ends, e + 1) && FrameAt(tree, frame, e)
    ensures Placed(tree, stack + [frame], ends + [e], First(tree, frame, e))
  {
    assert |ends| == |stack|;
    assert (stack + [frame])[..|stack|] == stack && (ends + [e])[..|stack|] == ends;
  }

  /** Twice the nodes to expand plus the nodes to emit: what is left for the loop to do. */
  ghost function Work<L>(stack: seq<Frame<L>>): nat {
    if stack == [] then 0
    else FrameWork(stack[|stack| - 1]) + Work(stack[..|stack| - 1])
  }

  ghost function FrameWork<L>(frame: Frame<L>): nat {
    if frame.expanded then 1 else 2 * (1 + KidsSize(frame.doc))
  }

  /** The deepest level the unexpanded frames will reach. */
  ghost function Reach<L>(stack: seq<Frame<L>>): nat {
    if stack == [] then 0
    else Max(FrameReach(stack[|stack| - 1]), Reach(stack[..|stack| - 1]))
  }

  ghost function FrameReach<L>(frame: Frame<L>): nat {
    if frame.expanded then 0 else frame.depth + KidsHeight(frame.doc)
  }

  lemma {:induction false} PushWork<L>(stack: seq<Frame<L>>, frame: Frame<L>)
    ensures Work(stack + [frame]) == FrameWork(frame) + Work(stack)
    ensures Reach(stack + [frame]) == Max(FrameReach(frame), Reach(stack))
    ensures StackOk(stack + [frame]) <==> StackOk(stack) && FrameOk(frame)
  {
    assert (stack + [frame])[..|stack|] == stack;
  }

  /** Child `i` of node `e`: its number, and the number its subtree starts with. */
  lemma {:induction false} ChildAt<L>(tree: Forest<L>, e: nat, doc: Doc<L>, i: nat)
    requires 1 <= e <= Size(tree) && WellFormed(doc) && Sub(tree, e) == DocTree(doc)
    requires i < |KidsOf(doc)|
    ensures AllWellFormed(KidsOf(doc)) && AllWellFormed(KidsOf(doc)[..i]) && AllWellFormed(KidsOf(doc)[..i + 1])
    ensures var last := Leftmost(tree, e) - 1 + Size(ToForest(KidsOf(doc)[..i + 1]));
            1 <= last <= Size(tree) && Sub(tree, last) == DocTree(KidsOf(doc)[i]) &&
            Leftmost(tree, last) == Leftmost(tree, e) + Size(ToForest(KidsOf(doc)[..i]))
  {
    var kids := KidsOf(doc);
    DocAt(kids, i);
    var pos := Size(ToForest(kids[..i + 1]));
    assert Size(Sub(tree, e)) == Size(ToForest(kids)) + 1;
    assert Sub(DocTree(doc), pos) == Sub(ToForest(kids), pos);
    SubOfSub(tree, e, pos);
  }

  // ------------------------------------------------------------------ the loops

  /** The deepest level below a node at level `parent` whose children are `kids`. */
  ghost function KidsReach<L>(kids: seq<Doc<L>>, parent: nat): nat {
    if kids == [] then 0 else parent + Height(kids)
  }

  /** The frames pushed for some children: the last child first, so that the first one is on top. */
  ghost function Pushed<L>(kids: seq<Doc<L>>, depth: nat): seq<Frame<L>> {
    if kids == [] then [] else [Frame(kids[|kids| - 1], false, 0, depth)] + Pushed(kids[..|kids| - 1], depth)
  }

  lemma {:induction false} PushedSplits<L>(below: seq<Frame<L>>, kids: seq<Doc<L>>, depth: nat)
    requires kids != []
    ensures below + Pushed(kids, depth) ==
            (below + [Frame(kids[|kids| - 1], false, 0, depth)]) + Pushed(kids[..|kids| - 1], depth)
  {
  }

  lemma {:induction false} PushedMeasures<L>(below: seq<Frame<L>>, kids: seq<Doc<L>>, parent: nat)
    ensures Work(below + Pushed(kids, parent + 1)) == Work(below) + 2 * DocSize(kids)
    ensures Reach(below + Pushed(kids, parent + 1)) == Max(Reach(below), KidsReach(kids, parent))
    ensures StackOk(below + Pushed(kids, parent + 1)) <==> StackOk(below) && AllWellFormed(kids)
    decreases |kids|
  {
    if kids == [] {
      assert below + Pushed(kids, parent + 1) == below;
    } else {
      var last := Frame(kids[|kids| - 1], false, 0, parent + 1);
      PushedSplits(below, kids, parent + 1);
      PushWork(below, last);
      PushedMeasures(below + [last], kids[..|kids| - 1], parent);
    }
  }

  /** The document is the one at node `e`. */
  ghost predicate AtNode<L>(tree: Forest<L>, doc: Doc<L>, e: nat) {
    1 <= e <= Size(tree) && WellFormed(doc) && Sub(tree, e) == DocTree(doc)
  }

  /** One child more. */
  lemma {:induction false} ChildPlaced<L>(
    tree: Forest<L>, doc: Doc<L>, e: nat, below: seq<Frame<L>>, ends: seq<nat>, i: nat, depth: nat)
    returns (frame: Frame<L>, last: nat)
    requires AtNode(tree, doc, e) && 1 <= i <= |KidsOf(doc)| && AllWellFormed(KidsOf(doc)[..i])
    requires Placed(tree, below, ends, Leftmost(tree, e) + Size(ToForest(KidsOf(doc)[..i])))
    ensures AllWellFormed(KidsOf(doc)[..i - 1])
    ensures Placed(tree, below + [frame], ends + [last], Leftmost(tree, e) + Size(ToForest(KidsOf(doc)[..i - 1])))
    ensures below + Pushed(KidsOf(doc)[..i], depth) == (below + [frame]) + Pushed(KidsOf(doc)[..i - 1], depth)
  {
    var kids := KidsOf(doc);
    last := Leftmost(tree, e) - 1 + Size(ToForest(kids[..i]));
    frame := Frame(kids[i - 1], false, 0, depth);
    ChildAt(tree, e, doc, i - 1);
    assert kids[..i][..i - 1] == kids[..i - 1] && kids[..i][i - 1] == kids[i - 1];
    PushPlaced(tree, below, ends, frame, last);
    PushedSplits(below, kids[..i], depth);
  }

  lemma {:induction false} PushedPlaced<L>(
    tree: Forest<L>, doc: Doc<L>, e: nat, below: seq<Frame<L>>, ends: seq<nat>, i: nat, depth: nat)
    returns (all: seq<nat>)
    requires AtNode(tree, doc, e) && i <= |KidsOf(doc)| && AllWellFormed(KidsOf(doc)[..i])
    requires Placed(tree, below, ends, Leftmost(tree, e) + Size(ToForest(KidsOf(doc)[..i])))
    ensures Placed(tree, below + Pushed(KidsOf(doc)[..i], depth), all, Leftmost(tree, e))
    decreases i
  {
    if i == 0 {
      assert below + Pushed(KidsOf(doc)[..0], depth) == below;
      all := ends;
    } else {
      var frame, last := ChildPlaced(tree, doc, e, below, ends, i, depth);
      all := PushedPlaced(tree, doc, e, below + [frame], ends + [last], i - 1, depth);
    }
  }

  /** Pushes some children in reverse, so that the first one is expanded next. */
  method PushChildren<L>(below: seq<Frame<L>>, kids: seq<Doc<L>>, depth: nat) returns (stack: seq<Frame<L>>)
    ensures stack == below + Pushed(kids, depth)
  {
    stack := below;
    var i := |kids|;
    assert kids[..i] == kids;
    while i > 0
      invariant 0 <= i <= |kids|
      invariant stack + Pushed(kids[..i], depth) == below + Pushed(kids, depth)
    {
      i := i - 1;
      assert kids[..i + 1][..i] == kids[..i];
      PushedSplits(stack, kids[..i + 1], depth);
      stack := stack + [Frame(kids[i], false, 0, depth)];
    }
  }

  /** What has been written so far is the flat form of the first nodes of the tree. */
  ghost predicate Written<L>(tree: Forest<L>, labels: seq<Option<L>>, leftmost: seq<nat>) {
    && 1 <= |labels| == |leftmost| <= Size(tree) + 1
    && labels[0] == None && leftmost[0] == 0
    && (forall i :: 1 <= i < |labels| ==> labels[i] == Some(Sub(tree, i).tag))
    && (forall i :: 1 <= i < |leftmost| ==> leftmost[i] == Leftmost(tree, i))
  }

  /** The flat form has been written up to the frames of the stack, which cover the rest of the tree. */
  ghost predicate Covers<L>(tree: Forest<L>, stack: seq<Frame<L>>, labels: seq<Option<L>>, leftmost: seq<nat>) {
    Written(tree, labels, leftmost) && exists ends :: Placed(tree, stack, ends, |labels|)
  }

  lemma {:induction false} StartCovers<L>(root: Doc<L>)
    requires WellFormed(root)
    ensures Covers(DocTree(root), [Frame(root, false, 0, 1)], [None], [0])
  {
    var tree := DocTree(root);
    LastNode(tree);
    PushPlaced(tree, [], [], Frame(root, false, 0, 1), Size(tree));
    assert [] + [Frame(root, false, 0, 1)] == [Frame(root, false, 0, 1)];
    assert [] + [Size(tree)] == [Size(tree)];
  }

  lemma {:induction false} EmitCovers<L>(
    tree: Forest<L>, stack: seq<Frame<L>>, labels: seq<Option<L>>, leftmost: seq<nat>)
    requires stack != [] && stack[|stack| - 1].expanded && Covers(tree, stack, labels, leftmost)
    ensures var top := stack[|stack| - 1];
            Covers(tree, stack[..|stack| - 1], labels + [TagOf(top.doc)], leftmost + [top.start])
  {
    var ends :| Placed(tree, stack, ends, |labels|);
    assert Placed(tree, stack[..|stack| - 1], ends[..|stack| - 1], |labels| + 1);
  }

  lemma {:induction false} ExpandCovers<L>(
    tree: Forest<L>, rest: seq<Frame<L>>, top: Frame<L>, labels: seq<Option<L>>, leftmost: seq<nat>)
    requires !top.expanded && Covers(tree, rest + [top], labels, leftmost)
    ensures Covers(tree, (rest + [Frame(top.doc, true, |labels|, top.depth)]) + Pushed(KidsOf(top.doc), top.depth + 1),
                   labels, leftmost)
  {
    var stack := rest + [top];
    var ends :| Placed(tree, stack, ends, |labels|);
    assert stack[..|rest|] == rest;
    var e, again := ends[|rest|], Frame(top.doc, true, |labels|, top.depth);
    var kids := KidsOf(top.doc);
    PushPlaced(tree, rest, ends[..|rest|], again, e);
    assert kids[..|kids|] == kids;
    assert AllWellFormed(kids) && Size(DocTree(top.doc)) == Size(ToForest(kids)) + 1;
    var all := PushedPlaced(tree, top.doc, e, rest + [again], ends[..|rest|] + [e], |kids|, top.depth + 1);
  }

  lemma {:induction false} DoneCovers<L>(tree: Forest<L>, labels: seq<Option<L>>, leftmost: seq<nat>)
    requires Covers(tree, [], labels, leftmost)
    ensures |labels| == Size(tree) + 1
  {
  }

  /** What the loop has still to do and to find, for well-formed and malformed documents alike. */
  ghost predicate Bounded<L>(root: Doc<L>, stack: seq<Frame<L>>, maxDepth: nat) {
    && (StackOk(stack) <==> WellFormed(root))
    && Max(maxDepth, Reach(stack)) == 1 + KidsHeight(root)
  }

  lemma {:induction false} EmitBounded<L>(root: Doc<L>, rest: seq<Frame<L>>, top: Frame<L>, maxDepth: nat)
    requires top.expanded && Bounded(root, rest + [top], maxDepth)
    ensures TagOf(top.doc).None? ==> !WellFormed(root)
    ensures TagOf(top.doc).Some? ==> Bounded(root, rest, maxDepth)
    ensures Work(rest) < Work(rest + [top])
  {
    PushWork(rest, top);
  }

  lemma {:induction false} ExpandBounded<L>(root: Doc<L>, rest: seq<Frame<L>>, top: Frame<L>, here: nat, maxDepth: nat)
    requires !top.expanded && Bounded(root, rest + [top], maxDepth)
    ensures top.doc.Mapping? && top.doc.children.NotASequence? ==> !WellFormed(root)
    ensures var now := (rest + [Frame(top.doc, true, here, top.depth)]) + Pushed(KidsOf(top.doc), top.depth + 1);
            (!(top.doc.Mapping? && top.doc.children.NotASequence?) ==> Bounded(root, now, Max(maxDepth, top.depth))) &&
            Work(now) < Work(rest + [top])
  {
    var again := Frame(top.doc, true, here, top.depth);
    PushWork(rest, top);
    PushWork(rest, again);
    PushedMeasures(rest + [again], KidsOf(top.doc), top.depth);
    assert Height<L>([]) == 0;
    assert KidsHeight(top.doc) == Height(KidsOf(top.doc));
  }

  /** The stack loop of `parse_tree`. */
  method Flatten<L>(root: Doc<L>) returns (r: Result<(seq<Option<L>>, seq<nat>, nat)>)
    ensures r.Success? <==> WellFormed(root)
    ensures r.Success? ==> |r.value.0| == Size(DocTree(root)) + 1 && Written(DocTree(root), r.value.0, r.value.1)
    ensures r.Success? ==> r.value.2 == 1 + KidsHeight(root)
  {
    var labels: seq<Option<L>>, leftmost: seq<nat>, maxDepth := [None], [0], 0;
    var stack := [Frame(root, false, 0, 1)];
    PushWork([], stack[0]);
    assert [] + [stack[0]] == stack;
    if WellFormed(root) {
      StartCovers(root);
    }
    while stack != []
      invariant Bounded(root, stack, maxDepth)
      invariant WellFormed(root) ==> Covers(DocTree(root), stack, labels, leftmost)
      decreases Work(stack)
    {
      var top, rest := stack[|stack| - 1], stack[..|stack| - 1];
      assert rest + [top] == stack;
      if top.expanded {
        EmitBounded(root, rest, top, maxDepth);
        if TagOf(top.doc).None? {
          return Failure;
        }
        if WellFormed(root) {
          EmitCovers(DocTree(root), stack, labels, leftmost);
        }
        labels, leftmost, stack := labels + [TagOf(top.doc)], leftmost + [top.start], rest;
      } else {
        ExpandBounded(root, rest, top, |labels|, maxDepth);
        maxDepth := Max(maxDepth, top.depth);
        if top.doc.Mapping? && top.doc.children.NotASequence? {
          return Failure;
        }
        if WellFormed(root) {
          ExpandCovers(DocTree(root), rest, top, labels, leftmost);
        }
        stack := PushChildren(rest + [Frame(top.doc, true, |labels|, top.depth)], KidsOf(top.doc), top.depth + 1);
      }
    }
    if WellFormed(root) {
      DoneCovers(DocTree(root), labels, leftmost);
    }
    return Success((labels, leftmost, maxDepth));
  }

  // ------------------------------------------------------------------ keyroots

  /** A node is a keyroot unless some later node shares its leftmost descendant; read off from the end. */
  method Keyroots<L>(leftmost: seq<nat>, ghost tree: Forest<L>) returns (keyroots: seq<nat>)
    requires |leftmost| == Size(tree) + 1
    requires forall i :: 1 <= i <= Size(tree) ==> leftmost[i] == Leftmost(tree, i)
    ensures Ascending(keyroots)
    ensures forall k :: k in keyroots <==> IsKeyroot(tree, k)
  {
    var seen: set<nat> := {};
    var found: seq<nat> := [];
    var k := |leftmost| - 1;
    while k > 0
      invariant 0 <= k < |leftmost|
      invariant forall v :: v in seen <==> exists j :: k < j < |leftmost| && leftmost[j] == v
      invariant forall i, j :: 0 <= i < j < |found| ==> found[i] > found[j]
      invariant forall i :: 0 <= i < |found| ==> found[i] > k
      invariant forall x :: x in found <==> x > k && IsKeyroot(tree, x)
    {
      if leftmost[k] !in seen {
        seen := seen + {leftmost[k]};
        found := found + [k];
      }
      k := k - 1;
    }
    keyroots := seq(|found|, i requires 0 <= i < |found| => found[|found| - 1 - i]);
    ReadBackwards(found, keyroots);
  }

  lemma {:induction false} ReadBackwards(found: seq<nat>, s: seq<nat>)
    requires |s| == |found| && forall i :: 0 <= i < |s| ==> s[i] == found[|s| - 1 - i]
    requires forall i, j :: 0 <= i < j < |found| ==> found[i] > found[j]
    ensures Ascending(s)
    ensures forall x :: x in s <==> x in found
  {
    forall x | x in found ensures x in s {
      var i :| 0 <= i < |found| && found[i] == x;
      assert s[|s| - 1 - i] == x;
    }
  }

  // ------------------------------------------------------------------ parse_tree

  /** `parse_tree`: the flat form of the document's tree, or a failure when a node is malformed. */
  method Parse<L>(root: Option<Doc<L>>) returns (r: Result<FlatTree<L>>)
    ensures r.Success? <==> (root.Some? ==> WellFormed(root.value))
    ensures r.Success? ==> Describes(r.value, TreeOf(root))
    ensures r.Success? ==> r.value.depth == if root.None? then 0 else 1 + KidsHeight(root.value)
  {
    if root.None? {
      return Success(FlatTree([None], [0], [], 0));
    }
    var flat := Flatten(root.value);
    if flat.Failure? {
      return Failure;
    }
    var (labels, leftmost, depth) := flat.value;
    var keyroots := Keyroots(leftmost, DocTree(root.value));
    return Success(FlatTree(labels, leftmost, keyroots, depth));
  }
}

/**
  Forests written as documents.  What the parser reads from a document is what was written, for every
  well-formed document: the rendering is stated on trees and labels, and every well-formed document is one.
*/
module Renderings {
  import opened Options
  import opened Forests
  import opened EditDistance
  import opened ParseTree

  /** A leaf may be written as its bare label, or as a mapping with no children entry or an empty one. */
  datatype Style = Bare | NoEntry | EmptyEntry

  /** A label, and how it is written when it is that of a leaf. */
  datatype Styled<L> = Styled(name: L, style: Style)

  /** A forest as a sequence of documents. */
  function Rendered<L>(f: Forest<Styled<L>>): (docs: seq<Doc<L>>)
    ensures |docs| == 0 <==> f.Empty?
    decreases f, 0
  {
    match f
    case Empty => []
    case Snoc(left, tag, kids) => Rendered(left) + [RenderedNode(tag, kids)]
  }

  function RenderedNode<L>(tag: Styled<L>, kids: Forest<Styled<L>>): Doc<L>
    decreases kids, 1
  {
    if kids.Snoc? then Mapping(Some(tag.name), Items(Rendered(kids)))
    else match tag.style
      case Bare => Scalar(tag.name)
      case NoEntry => Mapping(Some(tag.name), Missing)
      case EmptyEntry => Mapping(Some(tag.name), Items([]))
  }

  /** The forest of the labels. */
  function Plain<L>(f: Forest<Styled<L>>): (r: Forest<L>)
    ensures r.Empty? <==> f.Empty?
    ensures Size(r) == Size(f)
  {
    match f
    case Empty => Empty
    case Snoc(left, tag, kids) => Snoc(Plain(left), tag.name, Plain(kids))
  }

  /** What is written is well formed, and is read as it was. */
  lemma {:induction false} RenderedIsRead<L>(f: Forest<Styled<L>>)
    ensures AllWellFormed(Rendered(f)) && ToForest(Rendered(f)) == Plain(f)
  {
    if f.Snoc? {
      RenderedIsRead(f.left);
      RenderedIsRead(f.kids);
      var docs, node := Rendered(f), RenderedNode(f.tag, f.kids);
      assert docs[..|docs| - 1] == Rendered(f.left) && docs[|docs| - 1] == node;
      assert WellFormed(node) && DocTree(node) == Single(f.tag.name, Plain(f.kids));
    }
  }

  /** Every sequence of well-formed documents is written that way. */
  lemma {:induction false} EveryDocumentIsRendered<L>(docs: seq<Doc<L>>) returns (f: Forest<Styled<L>>)
    requires AllWellFormed(docs)
    ensures Rendered(f) == docs
    decreases docs, 0
  {
    if docs == [] {
      f := Empty;
    } else {
      var left := EveryDocumentIsRendered(docs[..|docs| - 1]);
      var tag, kids := EveryNodeIsRendered(docs[|docs| - 1]);
      f := Snoc(left, tag, kids);
      assert docs == docs[..|docs| - 1] + [docs[|docs| - 1]];
    }
  }

  lemma {:induction false} EveryNodeIsRendered<L>(doc: Doc<L>) returns (tag: Styled<L>, kids: Forest<Styled<L>>)
    requires WellFormed(doc)
    ensures RenderedNode(tag, kids) == doc
    decreases doc, 1
  {
    match doc {
      case Scalar(value) => tag, kids := Styled(value, Bare), Empty;
      case Mapping(name, Missing) => tag, kids := Styled(name.value, NoEntry), Empty;
      case Mapping(name, Items(items)) =>
        tag := Styled(name.value, EmptyEntry);
        kids := EveryDocumentIsRendered(items);
    }
  }

  /** Documents are well formed if and only if they are written from some forest. */
  lemma {:induction false} WellFormedExactly<L>(docs: seq<Doc<L>>)
    ensures AllWellFormed(docs) <==> exists f :: Rendered(f) == docs
  {
    if AllWellFormed(docs) {
      var f := EveryDocumentIsRendered(docs);
    } else if f :| Rendered(f) == docs {
      RenderedIsRead(f);
    }
  }

  // ------------------------------------------------------------------ one tree

  /** All leaves in one style. */
  function InStyle<L>(f: Forest<L>, style: Style): (r: Forest<Styled<L>>)
    ensures r.Empty? <==> f.Empty?
  {
    match f
    case Empty => Empty
    case Snoc(left, tag, kids) => Snoc(InStyle(left, style), Styled(tag, style), InStyle(kids, style))
  }

  lemma {:induction false} StyleIsDropped<L>(f: Forest<L>, style: Style)
    ensures Plain(InStyle(f, style)) == f
  {
    if f.Snoc? {
      StyleIsDropped(f.left, style);
      StyleIsDropped(f.kids, style);
    }
  }

  /** A tree as a document. */
  function DocOf<L>(f: Forest<L>, style: Style): Doc<L>
    requires IsTree(f)
  {
    RenderedNode(Styled(f.tag, style), InStyle(f.kids, style))
  }

  /** A document that is written from a tree is read as that tree, whatever the style of its leaves. */
  lemma {:induction false} RoundTrip<L>(f: Forest<L>, style: Style)
    requires IsTree(f)
    ensures WellFormed(DocOf(f, style)) && TreeOf(Some(DocOf(f, style))) == f
  {
    var styled := InStyle(f, style);
    StyleIsDropped(f, style);
    RenderedIsRead(styled);
    assert Rendered(styled) == [DocOf(f, style)];
    assert Rendered(styled)[..0] == [];
  }

  /** So documents that are written from different trees are at a distance. */
  lemma {:induction false} DifferentTreesDiffer<L>(f: Forest<L>, g: Forest<L>, style: Style, other: Style)
    requires IsTree(f) && IsTree(g)
    ensures WellFormed(DocOf(f, style)) && WellFormed(DocOf(g, other))
    ensures Distance(TreeOf(Some(DocOf(f, style))), TreeOf(Some(DocOf(g, other)))) == 0 <==> f == g
  {
    RoundTrip(f, style);
    RoundTrip(g, other);
    SelfDistance(f);
    if Distance(f, g) == 0 {
      ZeroMeansEqual(f, g);
    }
  }

  // ------------------------------------------------------------------ depth

  /** The number of levels of a forest. */
  function Levels<L>(f: Forest<L>): nat {
    match f
    case Empty => 0
    case Snoc(left, _, kids) => if Levels(left) > 1 + Levels(kids) then Levels(left) else 1 + Levels(kids)
  }

  /** The depth that is reported for a document is the number of levels of its tree. */
  lemma {:induction false} RenderedDepth<L>(f: Forest<Styled<L>>)
    ensures Height(Rendered(f)) == Levels(Plain(f))
  {
    if f.Snoc? {
      RenderedDepth(f.left);
      RenderedDepth(f.kids);
      var docs, node := Rendered(f), RenderedNode(f.tag, f.kids);
      assert docs[..|docs| - 1] == Rendered(f.left) && docs[|docs| - 1] == node;
      assert KidsHeight(node) == Levels(Plain(f.kids));
    }
  }
}

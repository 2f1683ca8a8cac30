/**
  What the score of two boxes is.  On a grid a box is a set of cells, and the score is the number of
  cells in both boxes over the number of cells in either.  Any finite number of boxes with rational
  coordinates, hence of floating-point boxes, lies on a common grid.
*/
module BoxCells {
  import opened Reals
  import opened BoxGeometry

  /** A box in whole steps of a grid. */
  datatype Block = Block(x: int, y: int, w: nat, h: nat)
  {
    function Count(): nat { w * h }
  }

  /** The unit cells that it covers, each known by its lower corner. */
  ghost function Cells(b: Block): set<(int, int)> {
    set i, j | b.x <= i < b.x + b.w && b.y <= j < b.y + b.h :: (i, j)
  }

  /** A part of a whole, and 0 when there is nothing. */
  function Ratio(part: nat, all: nat): real {
    if all == 0 then 0.0 else part as real / all as real
  }

  /** The block as a box. */
  function Whole(b: Block): Box {
    Box(b.x as real, b.y as real, b.w as real, b.h as real)
  }

  // ------------------------------------------------------------------ counting cells

  ghost function Column(x: int, y: int, h: nat): set<(int, int)> {
    set j | y <= j < y + h :: (x, j)
  }

  lemma {:induction false} ColumnCount(x: int, y: int, h: nat)
    ensures |Column(x, y, h)| == h
  {
    if h > 0 {
      ColumnCount(x, y, h - 1);
      assert Column(x, y, h) == Column(x, y, h - 1) + {(x, y + h - 1)};
    } else {
      assert Column(x, y, h) == {};
    }
  }

  lemma {:induction false} CellCount(b: Block)
    ensures |Cells(b)| == b.Count()
    decreases b.w
  {
    if b.w > 0 {
      var rest := b.(w := b.w - 1);
      CellCount(rest);
      LastColumn(b);
      ColumnCount(b.x + b.w - 1, b.y, b.h);
      assert (b.w - 1) * b.h + b.h == b.w * b.h;
    } else {
      assert Cells(b) == {};
    }
  }

  lemma {:induction false} LastColumn(b: Block)
    requires b.w > 0
    ensures |Cells(b)| == |Cells(b.(w := b.w - 1))| + |Column(b.x + b.w - 1, b.y, b.h)|
  {
    var rest, last := Cells(b.(w := b.w - 1)), Column(b.x + b.w - 1, b.y, b.h);
    assert Cells(b) == rest + last;
    assert rest !! last;
  }

  /** The block that two blocks have in common. */
  function Common(a: Block, b: Block): Block {
    var x, y := if a.x >= b.x then a.x else b.x, if a.y >= b.y then a.y else b.y;
    var x2 := if a.x + a.w <= b.x + b.w then a.x + a.w else b.x + b.w;
    var y2 := if a.y + a.h <= b.y + b.h then a.y + a.h else b.y + b.h;
    Block(x, y, if x2 >= x then x2 - x else 0, if y2 >= y then y2 - y else 0)
  }

  /** The cells in both blocks, and with them those in either. */
  lemma {:induction false} CommonCount(a: Block, b: Block)
    ensures |Cells(a) * Cells(b)| == Common(a, b).Count()
    ensures |Cells(a) * Cells(b)| + |Cells(a) + Cells(b)| == a.Count() + b.Count()
  {
    assert Cells(Common(a, b)) == Cells(a) * Cells(b);
    CellCount(a);
    CellCount(b);
    CellCount(Common(a, b));
  }

  lemma {:induction false} WholeSides(a: Block, b: Block)
    ensures var p, q := Whole(a), Whole(b);
            && Overlap(p.x, p.X2(), q.x, q.X2()) == Common(a, b).w as real
            && Overlap(p.y, p.Y2(), q.y, q.Y2()) == Common(a, b).h as real
  {
  }

  lemma {:induction false} WholeArea(a: Block)
    ensures Whole(a).Area() == a.Count() as real
  {
    AsReal(a.w, a.h);
  }

  lemma {:induction false} WholeIntersection(a: Block, b: Block)
    ensures Intersection(Whole(a), Whole(b)) == Common(a, b).Count() as real
  {
    WholeSides(a, b);
    AsReal(Common(a, b).w, Common(a, b).h);
  }

  /** On whole numbers the score is the number of cells in both boxes over the number in either. */
  lemma {:induction false} WholeCounts(a: Block, b: Block)
    ensures Iou(Whole(a), Whole(b)) == Ratio(|Cells(a) * Cells(b)|, |Cells(a) + Cells(b)|)
  {
    CommonCount(a, b);
    WholeArea(a);
    WholeArea(b);
    WholeIntersection(a, b);
    IouOfCounts(Whole(a), Whole(b), |Cells(a) * Cells(b)|, |Cells(a) + Cells(b)|, a.Count(), b.Count());
  }

  lemma {:induction false} AsReal(m: nat, n: nat)
    ensures (m * n) as real == m as real * n as real
  {
  }

  lemma {:induction false} IouOfCounts(p: Box, q: Box, both: nat, either: nat, m: nat, n: nat)
    requires p.Area() == m as real && q.Area() == n as real && Intersection(p, q) == both as real
    requires both + either == m + n
    ensures Iou(p, q) == Ratio(both, either)
  {
    assert m as real + n as real - both as real == either as real;
  }

  // ------------------------------------------------------------------ other grids

  lemma {:induction false} Sign(d: real, s: real)
    requires s > 0.0
    ensures d >= 0.0 <==> d * s >= 0.0
  {
  }

  lemma {:induction false} Difference(a: real, b: real, s: real)
    ensures (b - a) * s == b * s - a * s
  {
  }

  lemma {:induction false} LinesInOrder(start: real, s: real, a: real, b: real, p: real, q: real)
    requires s > 0.0 && p == start + a * s && q == start + b * s
    ensures Max(p, q) == start + Max(a, b) * s
    ensures Min(p, q) == start + Min(a, b) * s
  {
    Difference(a, b, s);
    Sign(b - a, s);
    Difference(b, a, s);
    Sign(a - b, s);
  }

  lemma {:induction false} SpanStretches(start: real, s: real, from: real, to: real)
    requires s > 0.0
    ensures Max(0.0, (start + to * s) - (start + from * s)) == Max(0.0, to - from) * s
  {
    Difference(from, to, s);
    Sign(to - from, s);
  }

  lemma {:induction false} OverlapStretches(
    start: real, s: real, a1: real, a2: real, b1: real, b2: real, p1: real, p2: real, q1: real, q2: real)
    requires s > 0.0 && p1 == start + a1 * s && p2 == start + a2 * s && q1 == start + b1 * s && q2 == start + b2 * s
    ensures Overlap(p1, p2, q1, q2) == Overlap(a1, a2, b1, b2) * s
  {
    LinesInOrder(start, s, a1, b1, p1, q1);
    LinesInOrder(start, s, a2, b2, p2, q2);
    SpanStretches(start, s, Max(a1, b1), Min(a2, b2));
  }

  lemma {:induction false} Stretches(u: real, v: real, u': real, s: real)
    requires u' == u * s
    ensures u' * v == (u * v) * s && v * u' == (v * u) * s
  {
  }

  lemma {:induction false} Cancels(i: real, u: real, s: real)
    requires s > 0.0 && u > 0.0 && u * s > 0.0
    ensures i * s / (u * s) == i / u
  {
    var r := i / u;
    assert r * u == i;
    assert r * (u * s) == i * s;
  }

  lemma {:induction false} RatioStays(common: real, a: real, b: real, s: real)
    requires s > 0.0
    ensures OverUnion(common * s, a * s, b * s) == OverUnion(common, a, b)
  {
    var union := a + b - common;
    assert a * s + b * s - common * s == union * s;
    Sign(union, s);
    Sign(-union, s);
    if union > 0.0 {
      Cancels(common, union, s);
    }
  }

  lemma {:induction false} IouFromAreas(p: Box, q: Box, a: Box, b: Box, s: real)
    requires s > 0.0 && Intersection(p, q) == Intersection(a, b) * s
    requires p.Area() == a.Area() * s && q.Area() == b.Area() * s
    ensures Iou(p, q) == Iou(a, b)
  {
    RatioStays(Intersection(a, b), a.Area(), b.Area(), s);
  }

  /** Box `p` is box `a` moved and stretched from left to right. */
  ghost predicate Wider(a: Box, p: Box, start: real, s: real) {
    p.x == start + a.x * s && p.w == a.w * s && p.y == a.y && p.h == a.h
  }

  lemma {:induction false} FarEdge(start: real, s: real, x: real, w: real, x': real, w': real)
    requires x' == start + x * s && w' == w * s
    ensures x' + w' == start + (x + w) * s
  {
  }

  lemma {:induction false} WiderOverlap(a: Box, b: Box, p: Box, q: Box, start: real, s: real)
    requires s > 0.0 && Wider(a, p, start, s) && Wider(b, q, start, s)
    ensures Overlap(p.x, p.X2(), q.x, q.X2()) == Overlap(a.x, a.X2(), b.x, b.X2()) * s
  {
    FarEdge(start, s, a.x, a.w, p.x, p.w);
    FarEdge(start, s, b.x, b.w, q.x, q.w);
    OverlapStretches(start, s, a.x, a.X2(), b.x, b.X2(), p.x, p.X2(), q.x, q.X2());
  }

  lemma {:induction false} IntersectionFromSides(a: Box, b: Box, p: Box, q: Box, s: real)
    requires Overlap(p.x, p.X2(), q.x, q.X2()) == Overlap(a.x, a.X2(), b.x, b.X2()) * s
    requires Overlap(p.y, p.Y2(), q.y, q.Y2()) == Overlap(a.y, a.Y2(), b.y, b.Y2())
    ensures Intersection(p, q) == Intersection(a, b) * s
  {
    Stretches(Overlap(a.x, a.X2(), b.x, b.X2()), Overlap(a.y, a.Y2(), b.y, b.Y2()),
              Overlap(p.x, p.X2(), q.x, q.X2()), s);
  }

  lemma {:induction false} WiderIntersection(a: Box, b: Box, p: Box, q: Box, start: real, s: real)
    requires s > 0.0 && Wider(a, p, start, s) && Wider(b, q, start, s)
    ensures Intersection(p, q) == Intersection(a, b) * s
  {
    WiderOverlap(a, b, p, q, start, s);
    IntersectionFromSides(a, b, p, q, s);
  }

  lemma {:induction false} WiderArea(a: Box, p: Box, start: real, s: real)
    requires Wider(a, p, start, s)
    ensures p.Area() == a.Area() * s
  {
    Stretches(a.w, a.h, p.w, s);
  }

  lemma {:induction false} WiderIou(a: Box, b: Box, p: Box, q: Box, start: real, s: real)
    requires s > 0.0 && Wider(a, p, start, s) && Wider(b, q, start, s)
    ensures Iou(p, q) == Iou(a, b)
  {
    WiderIntersection(a, b, p, q, start, s);
    WiderArea(a, p, start, s);
    WiderArea(b, q, start, s);
    IouFromAreas(p, q, a, b, s);
  }

  /** The axes exchanged. */
  function Turned(b: Box): Box {
    Box(b.y, b.x, b.h, b.w)
  }

  lemma {:induction false} TurnedIntersection(a: Box, b: Box)
    ensures Intersection(Turned(a), Turned(b)) == Intersection(a, b)
  {
    var u, v := Overlap(a.x, a.X2(), b.x, b.X2()), Overlap(a.y, a.Y2(), b.y, b.Y2());
    assert u * v == v * u;
  }

  lemma {:induction false} TurnedIou(a: Box, b: Box)
    ensures Iou(Turned(a), Turned(b)) == Iou(a, b)
  {
    TurnedIntersection(a, b);
    assert Turned(a).Area() == a.Area() && Turned(b).Area() == b.Area();
  }

  lemma {:induction false} HigherIou(a: Box, b: Box, p: Box, q: Box, start: real, s: real)
    requires s > 0.0 && Wider(Turned(a), Turned(p), start, s) && Wider(Turned(b), Turned(q), start, s)
    ensures Iou(p, q) == Iou(a, b)
  {
    TurnedIou(a, b);
    TurnedIou(p, q);
    WiderIou(Turned(a), Turned(b), Turned(p), Turned(q), start, s);
  }

  /** A grid: where it starts, and the sides of its cells. */
  datatype Grid = Grid(x: real, y: real, dx: real, dy: real)
  {
    ghost predicate Valid() { dx > 0.0 && dy > 0.0 }

    /** Box `p` is box `a`, moved and stretched onto this grid. */
    ghost predicate Places(a: Box, p: Box) {
      p.x == x + a.x * dx && p.y == y + a.y * dy && p.w == a.w * dx && p.h == a.h * dy
    }
  }

  lemma {:induction false} Halfway(g: Grid, a: Box, p: Box) returns (m: Box)
    requires g.Places(a, p)
    ensures Wider(a, m, g.x, g.dx) && Wider(Turned(m), Turned(p), g.y, g.dy)
  {
    m := Box(p.x, a.y, p.w, a.h);
  }

  /** The score does not change when both boxes are moved and stretched alike. */
  lemma {:induction false} IouStays(g: Grid, a: Box, b: Box, p: Box, q: Box)
    requires g.Valid() && g.Places(a, p) && g.Places(b, q)
    ensures Iou(p, q) == Iou(a, b)
  {
    var m := Halfway(g, a, p);
    var n := Halfway(g, b, q);
    WiderIou(a, b, m, n, g.x, g.dx);
    HigherIou(m, n, p, q, g.y, g.dy);
  }

  /** Intersection over union: on any grid the cells in both boxes over those in either, and 0 when there are none. */
  lemma {:induction false} IouCountsCells(g: Grid, a: Block, b: Block, p: Box, q: Box)
    requires g.Valid() && g.Places(Whole(a), p) && g.Places(Whole(b), q)
    ensures Iou(p, q) == Ratio(|Cells(a) * Cells(b)|, |Cells(a) + Cells(b)|)
  {
    IouStays(g, Whole(a), Whole(b), p, q);
    WholeCounts(a, b);
  }
}

/** Rectangles and their intersection over union, over the reals. */
module BoxGeometry {
  import opened Reals

  datatype Box = Box(x: real, y: real, w: real, h: real)
  {
    function X2(): real { x + w }
    function Y2(): real { y + h }
    function Area(): real { w * h }

    /** Boxes of negative extent are rejected on entry. */
    predicate Valid() { w >= 0.0 && h >= 0.0 }
  }

  /** The length of the common part of two intervals. */
  function Overlap(a1: real, a2: real, b1: real, b2: real): real {
    Max(0.0, Min(a2, b2) - Max(a1, b1))
  }

  function Intersection(a: Box, b: Box): real {
    Overlap(a.x, a.X2(), b.x, b.X2()) * Overlap(a.y, a.Y2(), b.y, b.Y2())
  }

  /** What two areas have in common, as a part of what they cover together. */
  function OverUnion(common: real, a: real, b: real): real {
    var union := a + b - common;
    if union <= 0.0 then 0.0 else common / union
  }

  function Iou(a: Box, b: Box): real {
    OverUnion(Intersection(a, b), a.Area(), b.Area())
  }

  lemma {:induction false} ProductBound(a: real, b: real, c: real, d: real)
    requires 0.0 <= a <= c && 0.0 <= b <= d
    ensures 0.0 <= a * b <= c * d
    ensures a * b == c * d && c * d > 0.0 ==> a == c && b == d
  {
    assert a * b <= a * d <= c * d;
    if a * b == c * d && c * d > 0.0 {
      assert d > 0.0 && c > 0.0;
      assert (c - a) * d == 0.0;
      assert a * (d - b) == 0.0;
    }
  }

  lemma {:induction false} IntersectionBound(a: Box, b: Box)
    requires a.Valid() && b.Valid()
    ensures 0.0 <= Intersection(a, b) <= a.Area() && Intersection(a, b) <= b.Area()
  {
    var w, h := Overlap(a.x, a.X2(), b.x, b.X2()), Overlap(a.y, a.Y2(), b.y, b.Y2());
    ProductBound(w, h, a.w, a.h);
    ProductBound(w, h, b.w, b.h);
  }

  lemma {:induction false} DivideBound(p: real, q: real)
    requires 0.0 <= p <= q && q > 0.0
    ensures 0.0 <= p / q <= 1.0
    ensures p / q == 1.0 <==> p == q
    ensures p / q > 0.0 <==> p > 0.0
  {
    var r := p / q;
    assert r * q == p;
  }

  /**
    The score of two boxes is in [0, 1] and symmetric; it is positive exactly for boxes that share
    area, and 1 exactly for equal boxes that have area.
  */
  lemma {:induction false} IouMeaning(a: Box, b: Box)
    requires a.Valid() && b.Valid()
    ensures 0.0 <= Iou(a, b) <= 1.0
    ensures Iou(a, b) == Iou(b, a)
    ensures Iou(a, b) > 0.0 <==> Intersection(a, b) > 0.0
    ensures Iou(a, b) == 1.0 <==> a == b && a.Area() > 0.0
  {
    IntersectionBound(a, b);
    var i := Intersection(a, b);
    var union := a.Area() + b.Area() - i;
    assert Intersection(b, a) == i;
    if union > 0.0 {
      DivideBound(i, union);
      if i == union {
        SameBox(a, b);
      }
    }
    if a == b {
      assert i == a.Area();
    }
  }

  /** Boxes that share all their area are equal. */
  lemma {:induction false} SameBox(a: Box, b: Box)
    requires a.Valid() && b.Valid() && a.Area() > 0.0
    requires Intersection(a, b) == a.Area() == b.Area()
    ensures a == b
  {
    var w, h := Overlap(a.x, a.X2(), b.x, b.X2()), Overlap(a.y, a.Y2(), b.y, b.Y2());
    ProductBound(w, h, a.w, a.h);
    ProductBound(w, h, b.w, b.h);
  }
}

/** Boxes and their intersection over union, as both the tracker and the detector compute it. */
module Geometry {
  import opened Products

  datatype BBox = BBox(x: real, y: real, width: real, height: real)

  datatype Detection = Detection(bbox: BBox, classId: int, confidence: real)

  function Max(a: real, b: real): real { if a < b then b else a }

  function Min(a: real, b: real): real { if b < a then b else a }

  /** How far two intervals given by start and length overlap. */
  function Overlap(a: real, aLen: real, b: real, bLen: real): real {
    Max(0.0, Min(a + aLen, b + bLen) - Max(a, b))
  }

  function IntersectionArea(a: BBox, b: BBox): real {
    Overlap(a.x, a.width, b.x, b.width) * Overlap(a.y, a.height, b.y, b.height)
  }

  function ComputeIou(a: BBox, b: BBox): real {
    var inter := IntersectionArea(a, b);
    var union := a.width * a.height + b.width * b.height - inter;
    if union > 0.0 then inter / union else 0.0
  }

  predicate Sized(b: BBox) { b.width >= 0.0 && b.height >= 0.0 }

  lemma ProductMonotone(a: real, b: real, c: real, d: real)
    requires 0.0 <= a <= c && 0.0 <= b <= d
    ensures 0.0 <= a * b <= c * d
  {
    assert a * b <= a * d;
    assert a * d <= c * d;
  }

  lemma QuotientBounds(a: real, b: real)
    requires 0.0 <= a <= b && b > 0.0
    ensures 0.0 <= a / b <= 1.0
  {
    var q := a / b;
    assert q * b == a;
    FactorSign(q, b);
    assert (1.0 - q) * b == b - a;
    FactorSign(1.0 - q, b);
  }

  lemma OverlapFits(a: real, aLen: real, b: real, bLen: real)
    requires aLen >= 0.0 && bLen >= 0.0
    ensures 0.0 <= Overlap(a, aLen, b, bLen) <= aLen && Overlap(a, aLen, b, bLen) <= bLen
  {
  }

  lemma OverlapSymmetric(a: real, aLen: real, b: real, bLen: real)
    ensures Overlap(a, aLen, b, bLen) == Overlap(b, bLen, a, aLen)
  {
  }

  /** A box of negative size overlaps nothing. */
  lemma UnsizedIsApart(a: BBox, b: BBox)
    requires !Sized(a) || !Sized(b)
    ensures IntersectionArea(a, b) == 0.0
  {
    var w, h := Overlap(a.x, a.width, b.x, b.width), Overlap(a.y, a.height, b.y, b.height);
    assert w == 0.0 || h == 0.0;
  }

  lemma SizedIou(a: BBox, b: BBox)
    requires Sized(a) && Sized(b)
    ensures 0.0 <= ComputeIou(a, b) <= 1.0
  {
    hide Overlap;
    var w, h := Overlap(a.x, a.width, b.x, b.width), Overlap(a.y, a.height, b.y, b.height);
    OverlapFits(a.x, a.width, b.x, b.width);
    OverlapFits(a.y, a.height, b.y, b.height);
    ProductMonotone(w, h, a.width, a.height);
    ProductMonotone(w, h, b.width, b.height);
    FractionOfUnion(IntersectionArea(a, b), a.width * a.height, b.width * b.height);
  }

  /** Any two boxes overlap by a fraction between 0 and 1. */
  lemma IouIsAFraction(a: BBox, b: BBox)
    ensures 0.0 <= ComputeIou(a, b) <= 1.0
  {
    if Sized(a) && Sized(b) {
      SizedIou(a, b);
    } else {
      hide IntersectionArea;
      UnsizedIsApart(a, b);
    }
  }

  /** A box of positive size overlaps itself entirely. */
  lemma IouOfItself(b: BBox)
    requires b.width > 0.0 && b.height > 0.0
    ensures ComputeIou(b, b) == 1.0
  {
    hide Overlap, IntersectionArea;
    var area := b.width * b.height;
    ProductPositive(b.width, b.height);
    assert IntersectionArea(b, b) == area by { SelfIntersection(b); }
    assert area / area == 1.0;
  }

  lemma SelfIntersection(b: BBox)
    requires b.width > 0.0 && b.height > 0.0
    ensures IntersectionArea(b, b) == b.width * b.height
  {
    assert Overlap(b.x, b.width, b.x, b.width) == b.width;
    assert Overlap(b.y, b.height, b.y, b.height) == b.height;
  }

  lemma FractionOfUnion(inter: real, areaA: real, areaB: real)
    requires 0.0 <= inter <= areaA && inter <= areaB
    ensures var union := areaA + areaB - inter;
            union > 0.0 ==> 0.0 <= inter / union <= 1.0
  {
    var union := areaA + areaB - inter;
    if union > 0.0 {
      QuotientBounds(inter, union);
    }
  }

  lemma IouSymmetric(a: BBox, b: BBox)
    ensures ComputeIou(a, b) == ComputeIou(b, a)
  {
    hide Overlap;
    OverlapSymmetric(a.x, a.width, b.x, b.width);
    OverlapSymmetric(a.y, a.height, b.y, b.height);
    assert IntersectionArea(a, b) == IntersectionArea(b, a);
  }

  // ------------------------------------------------------ what the overlap is

  /** The point (x, y) lies in the closed box. */
  predicate Contains(b: BBox, x: real, y: real) {
    b.x <= x <= b.x + b.width && b.y <= y <= b.y + b.height
  }

  ghost predicate Touch(a: BBox, b: BBox) {
    exists x, y :: Contains(a, x, y) && Contains(b, x, y)
  }

  /** Box m holds exactly the points of both a and b. */
  ghost predicate IsCommonPart(a: BBox, b: BBox, m: BBox) {
    Sized(m) && forall x, y :: Contains(m, x, y) <==> Contains(a, x, y) && Contains(b, x, y)
  }

  /** Boxes that touch have a common part, which is a box; the intersection area is its area. */
  lemma IntersectionIsCommonPart(a: BBox, b: BBox) returns (m: BBox)
    requires Sized(a) && Sized(b) && Touch(a, b)
    ensures IsCommonPart(a, b, m) && IntersectionArea(a, b) == m.width * m.height
  {
    var left, top := Max(a.x, b.x), Max(a.y, b.y);
    m := BBox(left, top, Min(a.x + a.width, b.x + b.width) - left, Min(a.y + a.height, b.y + b.height) - top);
  }

  /** Boxes that do not touch have no intersection area. */
  lemma ApartHasNoArea(a: BBox, b: BBox)
    requires Sized(a) && Sized(b) && !Touch(a, b)
    ensures IntersectionArea(a, b) == 0.0
  {
    hide Contains;
    var x, y := Max(a.x, b.x), Max(a.y, b.y);
    assert !(Contains(a, x, y) && Contains(b, x, y));
    assert Overlap(a.x, a.width, b.x, b.width) == 0.0 || Overlap(a.y, a.height, b.y, b.height) == 0.0 by {
      CornerInBoth(a, b);
    }
  }

  lemma CornerInBoth(a: BBox, b: BBox)
    requires Sized(a) && Sized(b)
    ensures Overlap(a.x, a.width, b.x, b.width) > 0.0 && Overlap(a.y, a.height, b.y, b.height) > 0.0 ==>
              Contains(a, Max(a.x, b.x), Max(a.y, b.y)) && Contains(b, Max(a.x, b.x), Max(a.y, b.y))
  {
  }

  /** An open rectangle inside both boxes. */
  ghost predicate OpenInBoth(a: BBox, b: BBox, r: BBox) {
    && r.width > 0.0 && r.height > 0.0
    && forall x, y :: r.x < x < r.x + r.width && r.y < y < r.y + r.height ==> Contains(a, x, y) && Contains(b, x, y)
  }

  /** The intersection area is positive exactly when some open rectangle lies in both. */
  lemma AreaExactlyWhenOpen(a: BBox, b: BBox)
    requires Sized(a) && Sized(b)
    ensures IntersectionArea(a, b) > 0.0 <==> exists r :: OpenInBoth(a, b, r)
  {
    if IntersectionArea(a, b) > 0.0 {
      if !Touch(a, b) { ApartHasNoArea(a, b); }
      var m := IntersectionIsCommonPart(a, b);
      PositiveSides(m.width, m.height);
      forall x, y | m.x < x < m.x + m.width && m.y < y < m.y + m.height
        ensures Contains(a, x, y) && Contains(b, x, y)
      {
        assert Contains(m, x, y);
      }
      assert OpenInBoth(a, b, m);
    }
    if r :| OpenInBoth(a, b, r) {
      var x0, x1 := r.x + r.width / 4.0, r.x + 3.0 * r.width / 4.0;
      var y0, y1 := r.y + r.height / 4.0, r.y + 3.0 * r.height / 4.0;
      assert Contains(a, x0, y0) && Contains(b, x0, y0) && Contains(a, x1, y1) && Contains(b, x1, y1);
      ProductPositive(Overlap(a.x, a.width, b.x, b.width), Overlap(a.y, a.height, b.y, b.height));
    }
  }

  lemma PositiveSides(w: real, h: real)
    requires w >= 0.0 && h >= 0.0 && w * h > 0.0
    ensures w > 0.0 && h > 0.0
  {
  }

  /** The ratio is what its name says: the intersection over what the two areas leave of the union,
      and nothing for boxes without area. */
  lemma IouIsTheRatio(a: BBox, b: BBox)
    ensures var union := a.width * a.height + b.width * b.height - IntersectionArea(a, b);
            && (union > 0.0 ==> ComputeIou(a, b) * union == IntersectionArea(a, b))
            && (union <= 0.0 ==> ComputeIou(a, b) == 0.0)
  {
    hide IntersectionArea;
  }

  /** Boxes of positive size overlap at all exactly when an open rectangle lies in both. */
  lemma IouPositiveExactly(a: BBox, b: BBox)
    requires a.width > 0.0 && a.height > 0.0 && b.width > 0.0 && b.height > 0.0
    ensures ComputeIou(a, b) > 0.0 <==> exists r :: OpenInBoth(a, b, r)
  {
    hide Overlap, IntersectionArea, OpenInBoth;
    AreaExactlyWhenOpen(a, b);
    IouIsAFraction(a, b);
    IouIsTheRatio(a, b);
    ProductPositive(a.width, a.height);
    ProductPositive(b.width, b.height);
    AreaWithin(a, b);
    var inter := IntersectionArea(a, b);
    SignOfRatio(ComputeIou(a, b), a.width * a.height + b.width * b.height - inter, inter);
  }

  lemma AreaWithin(a: BBox, b: BBox)
    requires Sized(a) && Sized(b)
    ensures 0.0 <= IntersectionArea(a, b) <= a.width * a.height && IntersectionArea(a, b) <= b.width * b.height
  {
    hide Overlap;
    var w, h := Overlap(a.x, a.width, b.x, b.width), Overlap(a.y, a.height, b.y, b.height);
    OverlapFits(a.x, a.width, b.x, b.width);
    OverlapFits(a.y, a.height, b.y, b.height);
    ProductMonotone(w, h, a.width, a.height);
    ProductMonotone(w, h, b.width, b.height);
  }

  lemma SignOfRatio(q: real, union: real, inter: real)
    requires q >= 0.0 && union > 0.0 && inter >= 0.0 && q * union == inter
    ensures q > 0.0 <==> inter > 0.0
  {
  }

  // ------------------------------------------------------ what it does not depend on

  function Moved(b: BBox, dx: real, dy: real): BBox { b.(x := b.x + dx, y := b.y + dy) }

  function Transposed(b: BBox): BBox { BBox(b.y, b.x, b.height, b.width) }

  /** Moving both boxes by the same way changes nothing. */
  lemma IouTranslates(a: BBox, b: BBox, dx: real, dy: real)
    ensures IntersectionArea(Moved(a, dx, dy), Moved(b, dx, dy)) == IntersectionArea(a, b)
    ensures ComputeIou(Moved(a, dx, dy), Moved(b, dx, dy)) == ComputeIou(a, b)
  {
    hide Overlap;
    OverlapTranslates(a.x, a.width, b.x, b.width, dx);
    OverlapTranslates(a.y, a.height, b.y, b.height, dy);
    assert IntersectionArea(Moved(a, dx, dy), Moved(b, dx, dy)) == IntersectionArea(a, b);
  }

  lemma OverlapTranslates(a: real, aLen: real, b: real, bLen: real, d: real)
    ensures Overlap(a + d, aLen, b + d, bLen) == Overlap(a, aLen, b, bLen)
  {
  }

  /** Nor does exchanging the axes. */
  lemma IouTransposes(a: BBox, b: BBox)
    ensures IntersectionArea(Transposed(a), Transposed(b)) == IntersectionArea(a, b)
    ensures ComputeIou(Transposed(a), Transposed(b)) == ComputeIou(a, b)
  {
    hide Overlap;
    assert IntersectionArea(Transposed(a), Transposed(b)) == IntersectionArea(a, b);
    assert a.height * a.width == a.width * a.height && b.height * b.width == b.width * b.height;
  }
}

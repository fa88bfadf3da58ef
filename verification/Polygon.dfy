/** Ray casting against a lane polygon, in exact arithmetic. */
module Polygon {
  import opened Products

  datatype Point = Point(x: real, y: real)

  /** The edge between a and b straddles the ray's height. */
  predicate Straddles(p: Point, a: Point, b: Point) { (a.y > p.y) != (b.y > p.y) }

  /** The abscissa where the edge from a meets the ray's height. */
  function CrossingX(p: Point, a: Point, b: Point): real
    requires Straddles(p, a, b)
  {
    (b.x - a.x) * (p.y - a.y) / (b.y - a.y) + a.x
  }

  predicate Crosses(p: Point, a: Point, b: Point) {
    Straddles(p, a, b) && p.x < CrossingX(p, a, b)
  }

  // ------------------------------------------------- counting along a polygon

  ghost function One(b: bool): nat { if b then 1 else 0 }

  /** Edges of the open chain s that satisfy f, each taken from its later end. */
  ghost function Along(f: (Point, Point) -> bool, s: seq<Point>): nat {
    if |s| < 2 then 0 else Along(f, s[..|s| - 1]) + One(f(s[|s| - 1], s[|s| - 2]))
  }

  /** The same round the closed polygon. */
  ghost function Around(f: (Point, Point) -> bool, s: seq<Point>): nat {
    if s == [] then 0 else Along(f, s) + One(f(s[0], s[|s| - 1]))
  }

  lemma {:induction false} AlongConcat(f: (Point, Point) -> bool, s: seq<Point>, t: seq<Point>)
    requires s != [] && t != []
    ensures Along(f, s + t) == Along(f, s) + One(f(t[0], s[|s| - 1])) + Along(f, t)
  {
    var n := |s + t| - 1;
    if |t| == 1 {
      assert (s + t)[..n] == s;
    } else {
      AlongConcat(f, s, t[..|t| - 1]);
      assert (s + t)[..n] == s + t[..|t| - 1];
    }
  }

  /** Starting the polygon at another vertex changes no count. */
  lemma AroundRotated(f: (Point, Point) -> bool, s: seq<Point>, k: nat)
    requires k <= |s|
    ensures Around(f, s[k..] + s[..k]) == Around(f, s)
  {
    var a, b := s[..k], s[k..];
    if a == [] || b == [] {
      assert b + a == s;
    } else {
      AlongConcat(f, a, b);
      AlongConcat(f, b, a);
      assert s == a + b;
    }
  }

  ghost function Reversed(s: seq<Point>): (r: seq<Point>)
    ensures |r| == |s|
  {
    if s == [] then [] else [s[|s| - 1]] + Reversed(s[..|s| - 1])
  }

  lemma {:induction false} ReversedEnds(s: seq<Point>)
    requires s != []
    ensures Reversed(s)[0] == s[|s| - 1] && Reversed(s)[|s| - 1] == s[0]
  {
    if |s| <= 1 {
    } else {
      ReversedEnds(s[..|s| - 1]);
    }
  }

  lemma {:induction false} AlongReversed(f: (Point, Point) -> bool, s: seq<Point>)
    requires forall a, b :: f(a, b) == f(b, a)
    ensures Along(f, Reversed(s)) == Along(f, s)
  {
    if |s| < 2 {
    } else {
      var init := s[..|s| - 1];
      AlongReversed(f, init);
      AlongConcat(f, [s[|s| - 1]], Reversed(init));
      ReversedEnds(init);
    }
  }

  lemma AroundReversed(f: (Point, Point) -> bool, s: seq<Point>)
    requires forall a, b :: f(a, b) == f(b, a)
    ensures Around(f, Reversed(s)) == Around(f, s)
  {
    if s != [] {
      AlongReversed(f, s);
      ReversedEnds(s);
    }
  }

  /** Along a chain the straddling edges count the changes of side, up to parity. */
  lemma {:induction false} StraddlesAlong(p: Point, s: seq<Point>)
    requires s != []
    ensures (Along((a, b) => Straddles(p, a, b), s) % 2 == 1) <==> Straddles(p, s[0], s[|s| - 1])
  {
    if |s| <= 1 {
    } else {
      StraddlesAlong(p, s[..|s| - 1]);
    }
  }

  /** A closed polygon straddles any height an even number of times. */
  lemma StraddlesAroundEven(p: Point, s: seq<Point>)
    ensures Around((a, b) => Straddles(p, a, b), s) % 2 == 0
  {
    if s != [] {
      StraddlesAlong(p, s);
    }
  }

  lemma {:induction false} AlongAgrees(f: (Point, Point) -> bool, g: (Point, Point) -> bool, s: seq<Point>)
    requires forall i, j :: 0 <= i < |s| && 0 <= j < |s| ==> f(s[i], s[j]) == g(s[i], s[j])
    ensures Along(f, s) == Along(g, s) && Around(f, s) == Around(g, s)
  {
    if |s| < 2 {
    } else {
      AlongAgrees(f, g, s[..|s| - 1]);
    }
  }

  // ------------------------------------------------------------- the test

  /** Inside: an odd number of edges is crossed by the ray to the right. */
  ghost predicate Inside(p: Point, s: seq<Point>) {
    Around((a, b) => Crosses(p, a, b), s) % 2 == 1
  }

  method PointInPolygon(p: Point, polygon: seq<Point>) returns (inside: bool)
    ensures inside == Inside(p, polygon)
  {
    ghost var f := (a, b) => Crosses(p, a, b);
    inside := false;
    var n := |polygon|;
    var i, j := 0, n - 1;
    while i < n
      invariant 0 <= i <= n && (i < n ==> j == if i == 0 then n - 1 else i - 1)
      invariant inside == ((if i == 0 then 0 else Along(f, polygon[..i]) + One(f(polygon[0], polygon[n - 1]))) % 2 == 1)
      decreases n - i
    {
      hide Crosses;
      assert i > 0 ==> polygon[..i + 1][..i] == polygon[..i];
      if EdgeCrosses(p, polygon[i], polygon[j]) {
        inside := !inside;
      }
      i, j := i + 1, i;
    }
    assert polygon[..n] == polygon;
  }

  /** The condition of the loop, with the division guarded as in the source. */
  predicate EdgeCrosses(p: Point, a: Point, b: Point)
    ensures EdgeCrosses(p, a, b) == Crosses(p, a, b)
  {
    (a.y > p.y) != (b.y > p.y) && p.x < (b.x - a.x) * (p.y - a.y) / (b.y - a.y) + a.x
  }

  // ----------------------------------------------------------- properties

  lemma DivideBack(n: real, d: real)
    requires d != 0.0
    ensures n / d * d == n && n / d == (-n) / (-d)
  {
    var q := n / d;
    assert q * d == n;
    assert q * (-d) == -n;
  }

  /** The crossing point is on the edge: a blend of its ends. */
  lemma CrossingIsABlend(p: Point, a: Point, b: Point) returns (t: real)
    requires Straddles(p, a, b)
    ensures 0.0 <= t <= 1.0
    ensures CrossingX(p, a, b) == a.x + t * (b.x - a.x)
    ensures CrossingX(p, b, a) == a.x + t * (b.x - a.x)
  {
    var dy := b.y - a.y;
    t := (p.y - a.y) / dy;
    DivideBack(p.y - a.y, dy);
    RatioWithin(p.y - a.y, dy, t);
    var n := (b.x - a.x) * (p.y - a.y);
    ScaledQuotient(b.x - a.x, p.y - a.y, dy, t);
    var n' := (a.x - b.x) * (p.y - b.y);
    OtherEnd(b.x - a.x, p.y - a.y, dy, t, p.y - b.y);
  }

  /** The crossing point lies on the line through the edge's ends. */
  lemma CrossingOnEdge(p: Point, a: Point, b: Point)
    requires Straddles(p, a, b)
    ensures (CrossingX(p, a, b) - a.x) * (b.y - a.y) == (b.x - a.x) * (p.y - a.y)
  {
    DivideBack((b.x - a.x) * (p.y - a.y), b.y - a.y);
  }

  lemma RatioWithin(n: real, d: real, t: real)
    requires d != 0.0 && t * d == n && (0.0 <= n <= d || d <= n <= 0.0)
    ensures 0.0 <= t <= 1.0
  {
    var s, m := if d > 0.0 then d else -d, if d > 0.0 then n else -n;
    assert t * s == m;
    FactorSign(t, s);
    assert (1.0 - t) * s == s - m;
    FactorSign(1.0 - t, s);
  }

  lemma ScaledQuotient(w: real, n: real, d: real, t: real)
    requires d != 0.0 && t * d == n
    ensures w * n / d == t * w
  {
    assert w * n == (t * w) * d;
    QuotientUnique(w * n, d, t * w);
  }

  lemma QuotientUnique(n: real, d: real, q: real)
    requires d != 0.0 && q * d == n
    ensures n / d == q
  {
    var r := n / d;
    assert r * d == n;
    assert (r - q) * d == 0.0;
  }

  lemma OtherEnd(w: real, n: real, d: real, t: real, m: real)
    requires d != 0.0 && t * d == n && m == n - d
    ensures (-w) * m / (-d) + w == t * w
  {
    assert (-w) * m == (t * w - w) * (-d) by {
      assert (t * w - w) * (-d) == -(w * (t * d)) + w * d;
    }
    QuotientUnique((-w) * m, -d, t * w - w);
  }

  /** An edge is crossed or not whichever end it is read from. */
  lemma CrossesSymmetric(p: Point, a: Point, b: Point)
    ensures Crosses(p, a, b) == Crosses(p, b, a)
  {
    if Straddles(p, a, b) {
      var t := CrossingIsABlend(p, a, b);
    }
  }

  /** Rotating the vertex list does not change the answer. */
  lemma RotationInvariant(p: Point, s: seq<Point>, k: nat)
    requires k <= |s|
    ensures Inside(p, s[k..] + s[..k]) == Inside(p, s)
  {
    AroundRotated((a, b) => Crosses(p, a, b), s, k);
  }

  /** Reversing it does not either. */
  lemma ReversalInvariant(p: Point, s: seq<Point>)
    ensures Inside(p, Reversed(s)) == Inside(p, s)
  {
    forall a, b
      ensures Crosses(p, a, b) == Crosses(p, b, a)
    {
      CrossesSymmetric(p, a, b);
    }
    AroundReversed((a, b) => Crosses(p, a, b), s);
  }

  /** p lies in the closed bounding box of s. */
  ghost predicate InBox(p: Point, s: seq<Point>) {
    && (exists i :: 0 <= i < |s| && s[i].x <= p.x) && (exists i :: 0 <= i < |s| && p.x <= s[i].x)
    && (exists i :: 0 <= i < |s| && s[i].y <= p.y) && (exists i :: 0 <= i < |s| && p.y <= s[i].y)
  }

  /** Points outside the bounding box are never inside; to the left of it this is the
      parity of a closed polygon. */
  lemma OutsideBoxIsOutside(p: Point, s: seq<Point>)
    requires !InBox(p, s)
    ensures !Inside(p, s)
  {
    var crosses, straddles := (a, b) => Crosses(p, a, b), (a, b) => Straddles(p, a, b);
    var never := (a: Point, b: Point) => false;
    if forall i :: 0 <= i < |s| ==> s[i].x > p.x {
      forall i, j | 0 <= i < |s| && 0 <= j < |s|
        ensures crosses(s[i], s[j]) == straddles(s[i], s[j])
      {
        if Straddles(p, s[i], s[j]) { CrossingBetween(p, s[i], s[j]); }
      }
      AlongAgrees(crosses, straddles, s);
      StraddlesAroundEven(p, s);
    } else {
      forall i, j | 0 <= i < |s| && 0 <= j < |s|
        ensures crosses(s[i], s[j]) == never(s[i], s[j])
      {
        if Straddles(p, s[i], s[j]) { CrossingBetween(p, s[i], s[j]); }
      }
      AlongAgrees(crosses, never, s);
      NeverAround(s);
    }
  }

  lemma {:induction false} NeverAround(s: seq<Point>)
    ensures Along((a: Point, b: Point) => false, s) == 0 && Around((a: Point, b: Point) => false, s) == 0
  {
    if |s| < 2 {
    } else {
      NeverAround(s[..|s| - 1]);
    }
  }

  lemma CrossingBetween(p: Point, a: Point, b: Point)
    requires Straddles(p, a, b)
    ensures a.x <= CrossingX(p, a, b) <= b.x || b.x <= CrossingX(p, a, b) <= a.x
  {
    var t := CrossingIsABlend(p, a, b);
    hide CrossingX;
    var w := b.x - a.x;
    BlendBetween(a.x, w, t);
    assert CrossingX(p, a, b) == a.x + t * w;
  }

  lemma BlendBetween(a: real, w: real, t: real)
    requires 0.0 <= t <= 1.0
    ensures a <= a + t * w <= a + w || a + w <= a + t * w <= a
  {
    var rest := 1.0 - t;
    assert t * w + rest * w == w;
    if w >= 0.0 {
      assert t * w >= 0.0 && rest * w >= 0.0;
    } else {
      assert t * w <= 0.0 && rest * w <= 0.0;
    }
  }
}

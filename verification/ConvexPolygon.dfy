/** Which points are inside: for a convex polygon the ray test answers by the side of its edges. */
module ConvexPolygon {
  import opened Products
  import opened Polygon

  /** Twice the signed area of the triangle: positive when the way a, b, c turns left. */
  function Turn(a: Point, b: Point, c: Point): real {
    (b.x - a.x) * (c.y - a.y) - (b.y - a.y) * (c.x - a.x)
  }

  lemma TurnCycles(a: Point, b: Point, c: Point)
    ensures Turn(a, b, c) == Turn(b, c, a) == -Turn(b, a, c)
  {
  }

  /** The vertex before vertex i: edge i leads from there to vertex i. */
  function Before(s: seq<Point>, i: nat): Point
    requires i < |s|
  {
    if i == 0 then s[|s| - 1] else s[i - 1]
  }

  /** Every three vertices, in order, turn left. */
  ghost predicate TurnsLeft(s: seq<Point>) {
    |s| >= 3 && forall i, j, k :: 0 <= i < j < k < |s| ==> Turn(s[i], s[j], s[k]) > 0.0
  }

  // ---------------------------------------------------------- crossing by side

  predicate Up(p: Point, v: Point, u: Point) { u.y <= p.y < v.y }

  predicate Down(p: Point, v: Point, u: Point) { v.y <= p.y < u.y }

  /** A rising edge is crossed by the points on its left, a falling one by those on its right. */
  lemma CrossesBySide(p: Point, v: Point, u: Point)
    ensures Straddles(p, v, u) <==> Up(p, v, u) || Down(p, v, u)
    ensures Up(p, v, u) ==> (Crosses(p, v, u) <==> Turn(u, v, p) > 0.0)
    ensures Down(p, v, u) ==> (Crosses(p, v, u) <==> Turn(u, v, p) < 0.0)
  {
    if Straddles(p, v, u) {
      CrossesSymmetric(p, v, u);
      CrossingOnEdge(p, u, v);
      var gap := CrossingX(p, u, v) - p.x;
      assert Turn(u, v, p) == gap * (v.y - u.y) by { TurnAtCrossing(p, u, v, CrossingX(p, u, v)); }
      SignTimes(gap, v.y - u.y);
    }
  }

  lemma TurnAtCrossing(p: Point, u: Point, v: Point, x: real)
    requires (x - u.x) * (v.y - u.y) == (v.x - u.x) * (p.y - u.y)
    ensures Turn(u, v, p) == (x - p.x) * (v.y - u.y)
  {
  }

  lemma SignTimes(a: real, b: real)
    ensures b > 0.0 ==> (a * b > 0.0 <==> a > 0.0)
    ensures b < 0.0 ==> (a * b < 0.0 <==> a > 0.0)
  {
  }

  // ---------------------------------------------------------- counting edges

  /** f holds of edge i. */
  ghost predicate OnEdge(f: (Point, Point) -> bool, s: seq<Point>, i: nat)
    requires i < |s|
  {
    f(s[i], Before(s, i))
  }

  lemma {:induction false} AlongAtMost(f: (Point, Point) -> bool, s: seq<Point>)
    requires forall i, j :: 1 <= i < j < |s| ==> !(OnEdge(f, s, i) && OnEdge(f, s, j))
    ensures Along(f, s) <= 1
    ensures Along(f, s) == 1 <==> exists i :: 1 <= i < |s| && OnEdge(f, s, i)
  {
    if |s| < 2 {
    } else {
      var n := |s| - 1;
      forall i | 1 <= i < n
        ensures OnEdge(f, s[..n], i) == OnEdge(f, s, i)
      {
      }
      AlongAtMost(f, s[..n]);
      assert OnEdge(f, s, n) == f(s[n], s[n - 1]);
      if Along(f, s[..n]) == 1 {
        var i :| 1 <= i < n && OnEdge(f, s[..n], i);
        assert OnEdge(f, s, i);
      }
      if i :| 1 <= i < |s| && OnEdge(f, s, i) {
        assert i == n || OnEdge(f, s[..n], i);
      }
    }
  }

  ghost predicate SomeEdge(f: (Point, Point) -> bool, s: seq<Point>) {
    exists i :: 0 <= i < |s| && OnEdge(f, s, i)
  }

  ghost predicate AtMostOnce(f: (Point, Point) -> bool, s: seq<Point>) {
    forall i, j :: 0 <= i < j < |s| ==> !(OnEdge(f, s, i) && OnEdge(f, s, j))
  }

  /** If f holds of one edge at most, the count says whether it holds of one. */
  lemma AroundAtMost(f: (Point, Point) -> bool, s: seq<Point>)
    requires s != [] && AtMostOnce(f, s)
    ensures Around(f, s) == One(SomeEdge(f, s))
  {
    AlongAtMost(f, s);
    if Along(f, s) == 1 {
      var i :| 1 <= i < |s| && OnEdge(f, s, i);
      assert !OnEdge(f, s, 0);
    } else if OnEdge(f, s, 0) {
    }
  }

  lemma {:induction false} AlongSplits(f: (Point, Point) -> bool, g: (Point, Point) -> bool, h: (Point, Point) -> bool,
                                       s: seq<Point>)
    requires forall i :: 1 <= i < |s| ==> One(OnEdge(f, s, i)) == One(OnEdge(g, s, i)) + One(OnEdge(h, s, i))
    ensures Along(f, s) == Along(g, s) + Along(h, s)
  {
    if |s| < 2 {
    } else {
      var n := |s| - 1;
      forall i | 1 <= i < n
        ensures One(OnEdge(f, s[..n], i)) == One(OnEdge(g, s[..n], i)) + One(OnEdge(h, s[..n], i))
      {
        assert One(OnEdge(f, s, i)) == One(OnEdge(g, s, i)) + One(OnEdge(h, s, i));
      }
      AlongSplits(f, g, h, s[..n]);
      assert One(OnEdge(f, s, n)) == One(OnEdge(g, s, n)) + One(OnEdge(h, s, n));
    }
  }

  /** Counting f is counting g and h, where every edge with f has exactly one of them. */
  lemma AroundSplits(f: (Point, Point) -> bool, g: (Point, Point) -> bool, h: (Point, Point) -> bool, s: seq<Point>)
    requires forall i :: 0 <= i < |s| ==> One(OnEdge(f, s, i)) == One(OnEdge(g, s, i)) + One(OnEdge(h, s, i))
    ensures Around(f, s) == Around(g, s) + Around(h, s)
  {
    AlongSplits(f, g, h, s);
    if s != [] { assert One(OnEdge(f, s, 0)) == One(OnEdge(g, s, 0)) + One(OnEdge(h, s, 0)); }
  }

  predicate High(p: Point, v: Point) { v.y > p.y }

  lemma {:induction false} RisesBalance(p: Point, s: seq<Point>)
    requires s != []
    ensures Along((v, u) => Up(p, v, u), s) + One(High(p, s[0])) ==
            Along((v, u) => Down(p, v, u), s) + One(High(p, s[|s| - 1]))
  {
    if |s| == 1 {
    } else {
      RisesBalance(p, s[..|s| - 1]);
    }
  }

  /** Round a closed polygon as many edges rise through a height as fall through it. */
  lemma UpsAreDowns(p: Point, s: seq<Point>)
    ensures Around((v, u) => Up(p, v, u), s) == Around((v, u) => Down(p, v, u), s)
  {
    if s != [] { RisesBalance(p, s); }
  }

  // ---------------------------------------------------------- no zigzag

  /** The four triangles of a quadrilateral weigh its corners against each other. */
  lemma Quadrilateral(a: Point, b: Point, c: Point, d: Point, h: real)
    ensures Turn(b, c, d) * (a.y - h) + Turn(a, b, d) * (c.y - h) ==
            Turn(a, c, d) * (b.y - h) + Turn(a, b, c) * (d.y - h)
  {
  }

  /** Four vertices in order do not lie below, above, below, above a height. */
  lemma NoZigzag(p: Point, a: Point, b: Point, c: Point, d: Point)
    requires Turn(b, c, d) > 0.0 && Turn(a, b, d) > 0.0 && Turn(a, c, d) > 0.0 && Turn(a, b, c) > 0.0
    ensures !(!High(p, a) && High(p, b) && !High(p, c) && High(p, d))
    ensures !(High(p, a) && !High(p, b) && High(p, c) && !High(p, d))
  {
    hide Turn;
    Quadrilateral(a, b, c, d, p.y);
    Weights(Turn(b, c, d), a.y - p.y, Turn(a, b, d), c.y - p.y, Turn(a, c, d), b.y - p.y, Turn(a, b, c), d.y - p.y);
  }

  lemma Weights(k: real, a: real, l: real, c: real, m: real, b: real, n: real, d: real)
    requires k > 0.0 && l > 0.0 && m > 0.0 && n > 0.0 && k * a + l * c == m * b + n * d
    ensures !(a <= 0.0 && c <= 0.0 && b > 0.0 && d > 0.0) && !(a > 0.0 && c > 0.0 && b <= 0.0 && d <= 0.0)
  {
    SignTimes(a, k);
    SignTimes(c, l);
    SignTimes(b, m);
    SignTimes(d, n);
  }

  /** At most one edge rises through a height. */
  lemma OneRise(p: Point, s: seq<Point>, i: nat, j: nat)
    requires TurnsLeft(s) && i < j < |s|
    ensures !(Up(p, s[i], Before(s, i)) && Up(p, s[j], Before(s, j)))
  {
    hide Turn;
    if i > 0 && i < j - 1 {
      NoZigzag(p, s[i - 1], s[i], s[j - 1], s[j]);
    } else if i == 0 && 1 < j < |s| - 1 {
      NoZigzag(p, s[0], s[j - 1], s[j], s[|s| - 1]);
    }
  }

  lemma OneFall(p: Point, s: seq<Point>, i: nat, j: nat)
    requires TurnsLeft(s) && i < j < |s|
    ensures !(Down(p, s[i], Before(s, i)) && Down(p, s[j], Before(s, j)))
  {
    hide Turn;
    if i > 0 && i < j - 1 {
      NoZigzag(p, s[i - 1], s[i], s[j - 1], s[j]);
    } else if i == 0 && 1 < j < |s| - 1 {
      NoZigzag(p, s[0], s[j - 1], s[j], s[|s| - 1]);
    }
  }

  // ---------------------------------------------------------- inside the edges

  ghost predicate LeftOf(p: Point, s: seq<Point>, i: nat)
    requires i < |s|
  {
    Turn(Before(s, i), s[i], p) > 0.0
  }

  ghost predicate RightOf(p: Point, s: seq<Point>, i: nat)
    requires i < |s|
  {
    Turn(Before(s, i), s[i], p) < 0.0
  }

  /** p lies strictly on the left of every edge, or strictly on the right of some edge. */
  ghost predicate LeftOfAll(p: Point, s: seq<Point>) {
    forall i :: 0 <= i < |s| ==> LeftOf(p, s, i)
  }

  ghost predicate RightOfSome(p: Point, s: seq<Point>) {
    exists i :: 0 <= i < |s| && RightOf(p, s, i)
  }

  /** The turn at a vertex, and of the edges meeting there towards p. */
  lemma Corner(u: Point, v: Point, w: Point, p: Point)
    ensures Turn(u, v, w) * (p.y - v.y) == (w.y - v.y) * Turn(u, v, p) + (u.y - v.y) * Turn(v, w, p)
  {
  }

  lemma CornerIsNotExtreme(u: Point, v: Point, w: Point, p: Point)
    requires Turn(u, v, w) > 0.0 && Turn(u, v, p) > 0.0 && Turn(v, w, p) > 0.0
    ensures !(p.y < v.y <= u.y && v.y <= w.y) && !(p.y >= v.y >= u.y && v.y >= w.y)
  {
    Corner(u, v, w, p);
    var m, a, b := Turn(u, v, w), w.y - v.y, u.y - v.y;
    hide Turn;
    FlatCorner(u, v, w);
    CornerSigns(m, p.y - v.y, a, Turn(u, v, p), b, Turn(v, w, p));
  }

  lemma FlatCorner(u: Point, v: Point, w: Point)
    ensures w.y - v.y == 0.0 && u.y - v.y == 0.0 ==> Turn(u, v, w) == 0.0
  {
  }

  lemma CornerSigns(m: real, q: real, a: real, k: real, b: real, l: real)
    requires m > 0.0 && k > 0.0 && l > 0.0 && m * q == a * k + b * l && !(a == 0.0 && b == 0.0)
    ensures !(q < 0.0 && a >= 0.0 && b >= 0.0) && !(q >= 0.0 && a <= 0.0 && b <= 0.0)
  {
    SignTimes(q, m);
    SignTimes(a, k);
    SignTimes(b, l);
  }

  /** The turn at vertex i is to the left. */
  lemma CornerTurns(s: seq<Point>, i: nat)
    requires TurnsLeft(s) && i < |s|
    ensures Turn(Before(s, i), s[i], s[if i + 1 == |s| then 0 else i + 1]) > 0.0
  {
    var n := |s|;
    if i == 0 {
      TurnCycles(s[n - 1], s[0], s[1]);
    } else if i + 1 == n {
      TurnCycles(s[n - 2], s[n - 1], s[0]);
    }
  }

  lemma {:induction false} Lowest(s: seq<Point>, n: nat) returns (m: nat)
    requires 0 < n <= |s|
    ensures m < n && forall k :: 0 <= k < n ==> s[m].y <= s[k].y
  {
    if n == 1 {
      m := 0;
    } else {
      m := Lowest(s, n - 1);
      if s[n - 1].y < s[m].y { m := n - 1; }
    }
  }

  lemma {:induction false} Highest(s: seq<Point>, n: nat) returns (m: nat)
    requires 0 < n <= |s|
    ensures m < n && forall k :: 0 <= k < n ==> s[m].y >= s[k].y
  {
    if n == 1 {
      m := 0;
    } else {
      m := Highest(s, n - 1);
      if s[n - 1].y > s[m].y { m := n - 1; }
    }
  }

  function After(s: seq<Point>, i: nat): Point
    requires i < |s|
  {
    if i + 1 == |s| then s[0] else s[i + 1]
  }

  /** No vertex is extreme on the side of a point on the left of every edge. */
  lemma VertexNotExtreme(p: Point, s: seq<Point>, i: nat)
    requires TurnsLeft(s) && LeftOfAll(p, s) && i < |s|
    ensures var u, v, w := Before(s, i), s[i], After(s, i);
            !(p.y < v.y <= u.y && v.y <= w.y) && !(p.y >= v.y >= u.y && v.y >= w.y)
  {
    var j := if i + 1 == |s| then 0 else i + 1;
    hide Turn;
    CornerTurns(s, i);
    assert LeftOf(p, s, i) && LeftOf(p, s, j);
    CornerIsNotExtreme(Before(s, i), s[i], After(s, i), p);
  }

  /** A point on the left of every edge has vertices above it and vertices that are not. */
  lemma VerticesAround(p: Point, s: seq<Point>) returns (low: nat, high: nat)
    requires TurnsLeft(s) && LeftOfAll(p, s)
    ensures low < |s| && high < |s| && !High(p, s[low]) && High(p, s[high])
  {
    assert |s| >= 3;
    hide TurnsLeft, LeftOfAll;
    low := Lowest(s, |s|);
    VertexNotExtreme(p, s, low);
    high := Highest(s, |s|);
    VertexNotExtreme(p, s, high);
  }

  lemma {:induction false} RiseBetween(p: Point, s: seq<Point>, low: nat, high: nat) returns (i: nat)
    requires low < high < |s| && !High(p, s[low]) && High(p, s[high])
    ensures low < i <= high && Up(p, s[i], s[i - 1])
    decreases high - low
  {
    if High(p, s[low + 1]) {
      i := low + 1;
    } else {
      i := RiseBetween(p, s, low + 1, high);
    }
  }

  /** Some edge rises from a low vertex to a high one. */
  lemma SomeRise(p: Point, s: seq<Point>, low: nat, high: nat) returns (i: nat)
    requires low < |s| && high < |s| && !High(p, s[low]) && High(p, s[high])
    ensures i < |s| && Up(p, s[i], Before(s, i))
  {
    var n := |s|;
    if low < high {
      i := RiseBetween(p, s, low, high);
    } else if !High(p, s[0]) {
      i := RiseBetween(p, s, 0, high);
    } else if High(p, s[n - 1]) {
      i := RiseBetween(p, s, low, n - 1);
    } else {
      i := 0;
    }
  }

  /** A point strictly on the left of every edge of a left-turning polygon is inside. */
  lemma LeftOfAllIsInside(p: Point, s: seq<Point>)
    requires TurnsLeft(s) && LeftOfAll(p, s)
    ensures Inside(p, s)
  {
    hide Turn, Crosses, Up, Down, TurnsLeft;
    assert |s| >= 3 by { AtLeastThree(s); }
    var up, crosses := (v, u) => Up(p, v, u), (v, u) => Crosses(p, v, u);
    var low, high := VerticesAround(p, s);
    var e := SomeRise(p, s, low, high);
    assert OnEdge(up, s, e);
    forall i, j | 0 <= i < j < |s|
      ensures !(OnEdge(up, s, i) && OnEdge(up, s, j))
    {
      OneRise(p, s, i, j);
    }
    assert SomeEdge(up, s) && AtMostOnce(up, s);
    AroundAtMost(up, s);
    var never := (v: Point, u: Point) => false;
    forall i | 0 <= i < |s|
      ensures One(OnEdge(crosses, s, i)) == One(OnEdge(up, s, i)) + One(OnEdge(never, s, i))
    {
      assert LeftOf(p, s, i);
      CrossesBySide(p, s[i], Before(s, i));
      UpOrDown(p, s[i], Before(s, i));
    }
    AroundSplits(crosses, up, never, s);
    NeverAround(s);
  }

  lemma AtLeastThree(s: seq<Point>)
    requires TurnsLeft(s)
    ensures |s| >= 3
  {
  }

  lemma UpOrDown(p: Point, v: Point, u: Point)
    ensures !(Up(p, v, u) && Down(p, v, u)) && (Crosses(p, v, u) ==> Straddles(p, v, u))
  {
  }

  // ---------------------------------------------------------- outside the edges

  /** No vertex lies on the right of an edge. */
  lemma VertexLeftOf(s: seq<Point>, i: nat, k: nat)
    requires TurnsLeft(s) && i < |s| && k < |s|
    ensures Turn(Before(s, i), s[i], s[k]) >= 0.0
  {
    var n := |s|;
    if i == 0 {
      if 0 < k < n - 1 { TurnCycles(s[n - 1], s[0], s[k]); }
    } else if k < i - 1 {
      TurnCycles(s[i - 1], s[i], s[k]);
    }
  }

  /** The point where edge (u, v) meets the height of p is a blend of u and v. */
  lemma MeetingPoint(p: Point, v: Point, u: Point) returns (t: real)
    requires Straddles(p, u, v)
    ensures 0.0 <= t <= 1.0
    ensures CrossingX(p, u, v) == u.x + t * (v.x - u.x) && p.y == u.y + t * (v.y - u.y)
  {
    t := (p.y - u.y) / (v.y - u.y);
    DivideBack(p.y - u.y, v.y - u.y);
    RatioWithin(p.y - u.y, v.y - u.y, t);
    ScaledQuotient(v.x - u.x, p.y - u.y, v.y - u.y, t);
  }

  lemma TurnOfBlend(a: Point, b: Point, u: Point, v: Point, t: real)
    ensures Turn(a, b, Point(u.x + t * (v.x - u.x), u.y + t * (v.y - u.y))) ==
            (1.0 - t) * Turn(a, b, u) + t * Turn(a, b, v)
  {
  }

  /** So it does not lie on the right of any edge either. */
  lemma MeetingLeftOf(p: Point, s: seq<Point>, e: nat, i: nat)
    requires TurnsLeft(s) && e < |s| && i < |s| && Straddles(p, Before(s, e), s[e])
    ensures Turn(Before(s, i), s[i], Point(CrossingX(p, Before(s, e), s[e]), p.y)) >= 0.0
  {
    hide Turn, Straddles, CrossingX, TurnsLeft;
    var u, v, a, b := Before(s, e), s[e], Before(s, i), s[i];
    var t := MeetingPoint(p, v, u);
    TurnOfBlend(a, b, u, v, t);
    BeforeIsVertex(s, e);
    var k := if e == 0 then |s| - 1 else e - 1;
    VertexLeftOf(s, i, k);
    VertexLeftOf(s, i, e);
    ProductSign(1.0 - t, Turn(a, b, u));
    ProductSign(t, Turn(a, b, v));
  }

  lemma BeforeIsVertex(s: seq<Point>, e: nat)
    requires e < |s|
    ensures Before(s, e) == s[if e == 0 then |s| - 1 else e - 1]
  {
  }

  /** Between two points at one height that are not on the right of an edge there is none that is. */
  lemma BetweenLeftOf(a: Point, b: Point, x0: real, x1: real, p: Point)
    requires Turn(a, b, Point(x0, p.y)) >= 0.0 && Turn(a, b, Point(x1, p.y)) >= 0.0 && x0 <= p.x <= x1
    ensures Turn(a, b, p) >= 0.0
  {
    var c := b.y - a.y;
    assert Turn(a, b, p) == Turn(a, b, Point(x0, p.y)) - c * (p.x - x0);
    assert Turn(a, b, p) == Turn(a, b, Point(x1, p.y)) + c * (x1 - p.x);
    if c >= 0.0 { ProductSign(c, x1 - p.x); } else { ProductSign(-c, p.x - x0); }
  }

  /** At one height the falling edge is met on the left of the rising one. */
  lemma FallBeforeRise(p: Point, s: seq<Point>, rise: nat, fall: nat)
    requires TurnsLeft(s) && rise < |s| && fall < |s|
    requires Up(p, s[rise], Before(s, rise)) && Down(p, s[fall], Before(s, fall))
    ensures CrossingX(p, Before(s, fall), s[fall]) <= CrossingX(p, Before(s, rise), s[rise])
  {
    MeetingLeftOf(p, s, rise, fall);
    var x := CrossingX(p, Before(s, rise), s[rise]);
    hide TurnsLeft;
    var u, v := Before(s, fall), s[fall];
    CrossingOnEdge(p, u, v);
    var q := Point(x, p.y);
    TurnAtCrossing(q, u, v, CrossingX(p, u, v));
    SignTimes(CrossingX(p, u, v) - x, v.y - u.y);
  }

  /** A point strictly on the right of some edge is crossed by both straddling edges or by none. */
  lemma CrossedByBoth(p: Point, s: seq<Point>, rise: nat, fall: nat)
    requires TurnsLeft(s) && RightOfSome(p, s) && rise < |s| && fall < |s|
    requires Up(p, s[rise], Before(s, rise)) && Down(p, s[fall], Before(s, fall))
    ensures Crosses(p, s[rise], Before(s, rise)) == Crosses(p, s[fall], Before(s, fall))
  {
    hide Turn, TurnsLeft, CrossingX;
    var i :| 0 <= i < |s| && RightOf(p, s, i);
    FallBeforeRise(p, s, rise, fall);
    MeetingLeftOf(p, s, rise, i);
    MeetingLeftOf(p, s, fall, i);
    var x0, x1 := CrossingX(p, Before(s, fall), s[fall]), CrossingX(p, Before(s, rise), s[rise]);
    if x0 <= p.x <= x1 { BetweenLeftOf(Before(s, i), s[i], x0, x1, p); }
    CrossesSymmetric(p, s[rise], Before(s, rise));
    CrossesSymmetric(p, s[fall], Before(s, fall));
  }

  ghost function Rising(p: Point): (Point, Point) -> bool { (v, u) => Up(p, v, u) }

  ghost function Falling(p: Point): (Point, Point) -> bool { (v, u) => Down(p, v, u) }

  /** The rising and the falling edges among the crossed ones. */
  ghost function RisingCrossed(p: Point): (Point, Point) -> bool { (v, u) => Up(p, v, u) && Crosses(p, v, u) }

  ghost function FallingCrossed(p: Point): (Point, Point) -> bool { (v, u) => Down(p, v, u) && Crosses(p, v, u) }

  lemma StraddlingOnce(p: Point, s: seq<Point>)
    requires TurnsLeft(s)
    ensures AtMostOnce(Rising(p), s) && AtMostOnce(Falling(p), s)
    ensures AtMostOnce(RisingCrossed(p), s) && AtMostOnce(FallingCrossed(p), s)
  {
    hide Turn, Crosses, Up, Down, TurnsLeft;
    forall i, j | 0 <= i < j < |s|
      ensures !(OnEdge(Rising(p), s, i) && OnEdge(Rising(p), s, j))
      ensures !(OnEdge(Falling(p), s, i) && OnEdge(Falling(p), s, j))
      ensures !(OnEdge(RisingCrossed(p), s, i) && OnEdge(RisingCrossed(p), s, j))
      ensures !(OnEdge(FallingCrossed(p), s, i) && OnEdge(FallingCrossed(p), s, j))
    {
      OneRise(p, s, i, j);
      OneFall(p, s, i, j);
    }
  }

  lemma CrossedSplits(p: Point, s: seq<Point>)
    ensures Around((a, b) => Crosses(p, a, b), s) == Around(RisingCrossed(p), s) + Around(FallingCrossed(p), s)
  {
    hide Crosses, Up, Down;
    var crosses := (a, b) => Crosses(p, a, b);
    forall i | 0 <= i < |s|
      ensures One(OnEdge(crosses, s, i)) == One(OnEdge(RisingCrossed(p), s, i)) + One(OnEdge(FallingCrossed(p), s, i))
    {
      CrossesBySide(p, s[i], Before(s, i));
      UpOrDown(p, s[i], Before(s, i));
    }
    AroundSplits(crosses, RisingCrossed(p), FallingCrossed(p), s);
  }

  lemma RiseMatchesFall(p: Point, s: seq<Point>)
    requires TurnsLeft(s) && RightOfSome(p, s) && SomeEdge(Rising(p), s) == SomeEdge(Falling(p), s)
    ensures SomeEdge(RisingCrossed(p), s) == SomeEdge(FallingCrossed(p), s)
  {
    hide Turn, Crosses, Up, Down, TurnsLeft, RightOfSome;
    if i :| 0 <= i < |s| && OnEdge(RisingCrossed(p), s, i) {
      assert OnEdge(Rising(p), s, i);
      var j :| 0 <= j < |s| && OnEdge(Falling(p), s, j);
      CrossedByBoth(p, s, i, j);
      assert OnEdge(FallingCrossed(p), s, j);
    }
    if j :| 0 <= j < |s| && OnEdge(FallingCrossed(p), s, j) {
      assert OnEdge(Falling(p), s, j);
      var i :| 0 <= i < |s| && OnEdge(Rising(p), s, i);
      CrossedByBoth(p, s, i, j);
      assert OnEdge(RisingCrossed(p), s, i);
    }
  }

  /** A point strictly on the right of some edge of a left-turning polygon is not inside. */
  lemma RightOfSomeIsOutside(p: Point, s: seq<Point>)
    requires TurnsLeft(s) && RightOfSome(p, s)
    ensures !Inside(p, s)
  {
    AtLeastThree(s);
    hide Turn, TurnsLeft, RightOfSome, SomeEdge, AtMostOnce, Rising, Falling, RisingCrossed, FallingCrossed, Around;
    StraddlingOnce(p, s);
    RisesAreFalls(p, s);
    AroundAtMost(Rising(p), s);
    AroundAtMost(Falling(p), s);
    AroundAtMost(RisingCrossed(p), s);
    AroundAtMost(FallingCrossed(p), s);
    RiseMatchesFall(p, s);
    CrossedSplits(p, s);
  }

  lemma RisesAreFalls(p: Point, s: seq<Point>)
    ensures Around(Rising(p), s) == Around(Falling(p), s)
  {
    UpsAreDowns(p, s);
  }

  // ---------------------------------------------------------- either orientation

  ghost predicate TurnsRight(s: seq<Point>) {
    |s| >= 3 && forall i, j, k :: 0 <= i < j < k < |s| ==> Turn(s[i], s[j], s[k]) < 0.0
  }

  /** Strictly on the inner side of every edge of a convex polygon, in either orientation. */
  ghost predicate StrictlyInner(p: Point, s: seq<Point>) {
    || (TurnsLeft(s) && forall i :: 0 <= i < |s| ==> LeftOf(p, s, i))
    || (TurnsRight(s) && forall i :: 0 <= i < |s| ==> RightOf(p, s, i))
  }

  /** Strictly on the outer side of some edge. */
  ghost predicate StrictlyOuter(p: Point, s: seq<Point>) {
    || (TurnsLeft(s) && exists i :: 0 <= i < |s| && RightOf(p, s, i))
    || (TurnsRight(s) && exists i :: 0 <= i < |s| && LeftOf(p, s, i))
  }

  lemma {:induction false} ReversedAt(s: seq<Point>, k: nat)
    requires k < |s|
    ensures Reversed(s)[k] == s[|s| - 1 - k]
  {
    if k == 0 {
    } else {
      ReversedAt(s[..|s| - 1], k - 1);
    }
  }

  lemma ReversedTurnsLeft(s: seq<Point>)
    requires TurnsRight(s)
    ensures TurnsLeft(Reversed(s))
  {
    hide Turn;
    var r, n := Reversed(s), |s|;
    forall i, j, k | 0 <= i < j < k < n
      ensures Turn(r[i], r[j], r[k]) > 0.0
    {
      ReversedAt(s, i);
      ReversedAt(s, j);
      ReversedAt(s, k);
      var a, b, c := s[n - 1 - k], s[n - 1 - j], s[n - 1 - i];
      TurnCycles(a, b, c);
      TurnCycles(b, c, a);
      TurnCycles(c, b, a);
    }
  }

  /** Edge i of the reversed polygon is edge n - i of the polygon, read backwards. */
  lemma ReversedSides(p: Point, s: seq<Point>, i: nat)
    requires i < |s|
    ensures var j := if i == 0 then 0 else |s| - i;
            && (LeftOf(p, Reversed(s), i) <==> RightOf(p, s, j))
            && (RightOf(p, Reversed(s), i) <==> LeftOf(p, s, j))
  {
    hide Turn;
    var n, r := |s|, Reversed(s);
    var j := if i == 0 then 0 else n - i;
    ReversedAt(s, i);
    ReversedAt(s, if i == 0 then n - 1 else i - 1);
    TurnCycles(Before(s, j), s[j], p);
  }

  /** The ray test is right about convex polygons: strictly inner points are inside and strictly
      outer points are not. */
  lemma ConvexInside(p: Point, s: seq<Point>)
    ensures StrictlyInner(p, s) ==> Inside(p, s)
    ensures StrictlyOuter(p, s) ==> !Inside(p, s)
  {
    hide Turn, LeftOf, RightOf, Inside;
    if TurnsLeft(s) {
      if LeftOfAll(p, s) { LeftOfAllIsInside(p, s); }
      if RightOfSome(p, s) { RightOfSomeIsOutside(p, s); }
    }
    if TurnsRight(s) {
      var r := Reversed(s);
      ReversedTurnsLeft(s);
      ReversalInvariant(p, s);
      if forall i :: 0 <= i < |s| ==> RightOf(p, s, i) {
        forall i | 0 <= i < |r|
          ensures LeftOf(p, r, i)
        {
          ReversedSides(p, s, i);
        }
        LeftOfAllIsInside(p, r);
      }
      if i :| 0 <= i < |s| && LeftOf(p, s, i) {
        ReversedSides(p, s, if i == 0 then 0 else |s| - i);
        RightOfSomeIsOutside(p, r);
      }
    }
  }

  // ---------------------------------------------------------- vertices along an edge

  /** The point a part t of the way from u to v. */
  function Between(u: Point, v: Point, t: real): Point { Point(u.x + t * (v.x - u.x), u.y + t * (v.y - u.y)) }

  lemma HeightBetween(u: Point, v: Point, t: real)
    requires 0.0 <= t <= 1.0
    ensures u.y <= Between(u, v, t).y <= v.y || v.y <= Between(u, v, t).y <= u.y
  {
    var w := v.y - u.y;
    BlendBetween(u.y, w, t);
    assert u.y + w == v.y;
    assert Between(u, v, t).y == u.y + t * w;
  }

  lemma ScaledSign(a: real, t: real, product: real)
    requires t > 0.0 && product == t * a
    ensures product > 0.0 <==> a > 0.0
    ensures product < 0.0 <==> a < 0.0
  {
  }

  lemma SplitTurns(u: Point, v: Point, t: real, p: Point)
    ensures Turn(u, Between(u, v, t), p) == t * Turn(u, v, p)
    ensures Turn(Between(u, v, t), v, p) == (1.0 - t) * Turn(u, v, p)
  {
  }

  lemma SplitTurnSigns(u: Point, v: Point, t: real, p: Point)
    requires 0.0 < t < 1.0
    ensures Turn(u, Between(u, v, t), p) > 0.0 <==> Turn(u, v, p) > 0.0
    ensures Turn(Between(u, v, t), v, p) > 0.0 <==> Turn(u, v, p) > 0.0
    ensures Turn(u, Between(u, v, t), p) < 0.0 <==> Turn(u, v, p) < 0.0
    ensures Turn(Between(u, v, t), v, p) < 0.0 <==> Turn(u, v, p) < 0.0
  {
    hide Turn, Between;
    var k, first, second := Turn(u, v, p), Turn(u, Between(u, v, t), p), Turn(Between(u, v, t), v, p);
    SplitTurns(u, v, t, p);
    ScaledSign(k, t, first);
    ScaledSign(k, 1.0 - t, second);
  }

  /** A vertex between two others, seen from p on the same side of both, changes no crossing. */
  lemma SplitSides(p: Point, u: Point, v: Point, m: Point)
    requires u.y <= m.y <= v.y || v.y <= m.y <= u.y
    requires Turn(u, m, p) > 0.0 <==> Turn(u, v, p) > 0.0
    requires Turn(m, v, p) > 0.0 <==> Turn(u, v, p) > 0.0
    requires Turn(u, m, p) < 0.0 <==> Turn(u, v, p) < 0.0
    requires Turn(m, v, p) < 0.0 <==> Turn(u, v, p) < 0.0
    ensures (One(Crosses(p, m, u)) + One(Crosses(p, v, m))) % 2 == One(Crosses(p, v, u))
  {
    hide Turn, CrossingX;
    CrossesBySide(p, v, u);
    CrossesBySide(p, m, u);
    CrossesBySide(p, v, m);
  }

  /** A vertex added on an edge changes no crossing: the ray crosses one half or none. */
  lemma SplitEdgeCrossing(p: Point, u: Point, v: Point, t: real)
    requires 0.0 <= t <= 1.0
    ensures (One(Crosses(p, Between(u, v, t), u)) + One(Crosses(p, v, Between(u, v, t)))) % 2 == One(Crosses(p, v, u))
  {
    hide Turn, CrossingX;
    var m := Between(u, v, t);
    if t == 0.0 {
      assert m == u;
    } else if t == 1.0 {
      assert m == v;
    } else {
      hide Between;
      HeightBetween(u, v, t);
      SplitTurnSigns(u, v, t, p);
      SplitSides(p, u, v, m);
    }
  }

  /** So a convex polygon may be given with further vertices along its edges: adding one on the
      closing edge changes no answer (and any edge is the closing one of a rotated list). */
  lemma VertexOnEdge(p: Point, s: seq<Point>, t: real)
    requires s != [] && 0.0 <= t <= 1.0
    ensures Inside(p, s + [Between(s[|s| - 1], s[0], t)]) == Inside(p, s)
  {
    hide Crosses;
    var m := Between(s[|s| - 1], s[0], t);
    var f := (a, b) => Crosses(p, a, b);
    SplitEdgeCrossing(p, s[|s| - 1], s[0], t);
    AlongConcat(f, s, [m]);
  }

  /** A triangle that turns left holds every point to the left of its three edges. */
  lemma TriangleHolds(p: Point, a: Point, b: Point, c: Point)
    requires Turn(a, b, c) > 0.0
    requires Turn(c, a, p) > 0.0 && Turn(a, b, p) > 0.0 && Turn(b, c, p) > 0.0
    ensures Inside(p, [a, b, c])
  {
    hide Turn, Inside;
    var s := [a, b, c];
    assert TurnsLeft(s) by {
      assert s[0] == a && s[1] == b && s[2] == c;
    }
    ConvexInside(p, s);
  }

  /** For instance, the point (2.5, 1) is inside the triangle (0, 0), (4, 0), (0, 4). */
  lemma TriangleHoldsPoint()
    ensures Inside(Point(2.5, 1.0), [Point(0.0, 0.0), Point(4.0, 0.0), Point(0.0, 4.0)])
  {
    hide Inside;
    TriangleHolds(Point(2.5, 1.0), Point(0.0, 0.0), Point(4.0, 0.0), Point(0.0, 4.0));
  }
}

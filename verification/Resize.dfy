/** The fused bilinear resize: cached coefficients and the convex blend they give. */
module Resize {
  import opened Numbers
  import opened Products

  /** Row y holds 3 * cols channel values. */
  datatype Image = Image(cols: nat, rows: nat, isBgr8: bool, pixels: seq<seq<int>>)

  ghost predicate WellFormedImage(f: Image) {
    && |f.pixels| == f.rows
    && (forall y :: 0 <= y < f.rows ==> |f.pixels[y]| == 3 * f.cols)
    && forall y, k :: 0 <= y < f.rows && 0 <= k < 3 * f.cols ==> 0 <= f.pixels[y][k] <= 255
  }

  /** The source coordinate under the centre of output cell o. */
  function SourceCoordinate(src: nat, dst: nat, o: nat): real
    requires dst > 0
  {
    (o as real + 0.5) * (src as real / dst as real) - 0.5
  }

  /** Left neighbour and fraction: together they name the clamped source coordinate. */
  ghost predicate Samples(src: nat, dst: nat, o: nat, idx: int, w: real)
    requires dst > 0
  {
    && 0 <= idx <= src - 2 && 0.0 <= w <= 1.0
    && idx as real + w == Clip(SourceCoordinate(src, dst, o), 0.0, src as real - 1.0)
  }

  ghost predicate Table(src: nat, dst: nat, idx: seq<int>, w: seq<real>)
    requires dst > 0
  {
    |idx| == |w| == dst && forall o :: 0 <= o < dst ==> Samples(src, dst, o, idx[o], w[o])
  }

  /** One axis of the coefficient tables. */
  method BuildTable(src: nat, dst: nat) returns (idx: seq<int>, w: seq<real>)
    requires src >= 2 && dst > 0
    ensures Table(src, dst, idx, w)
  {
    var scale := src as real / dst as real;
    idx, w := [], [];
    for o := 0 to dst
      invariant |idx| == |w| == o
      invariant forall k :: 0 <= k < o ==> Samples(src, dst, k, idx[k], w[k])
    {
      var fx := (o as real + 0.5) * scale - 0.5;
      var x0 := fx.Floor;
      var wx := fx - x0 as real;
      if x0 < 0 { x0, wx := 0, 0.0; }
      if x0 > src - 2 { x0, wx := src - 2, 1.0; }
      assert Samples(src, dst, o, x0, wx);
      idx, w := idx + [x0], w + [wx];
    }
  }

  function Lerp(a: real, b: real, w: real): real { a + w * (b - a) }

  /** The four neighbours of channel c at (x, y), blended along both axes. */
  ghost function Blend(f: Image, c: nat, x: int, wx: real, y: int, wy: real): real
    requires WellFormedImage(f) && c < 3 && 0 <= x <= f.cols - 2 && 0 <= y <= f.rows - 2
  {
    var top := Lerp(f.pixels[y][3 * x + c] as real, f.pixels[y][3 * x + 3 + c] as real, wx);
    var bottom := Lerp(f.pixels[y + 1][3 * x + c] as real, f.pixels[y + 1][3 * x + 3 + c] as real, wx);
    Lerp(top, bottom, wy) * (1.0 / 255.0)
  }

  lemma LerpWithin(a: real, b: real, w: real, lo: real, hi: real)
    requires lo <= a <= hi && lo <= b <= hi && 0.0 <= w <= 1.0
    ensures lo <= Lerp(a, b, w) <= hi
  {
    var v := 1.0 - w;
    assert Lerp(a, b, w) == v * a + w * b;
    ProductSign(v, a - lo);
    ProductSign(w, b - lo);
    ProductSign(v, hi - a);
    ProductSign(w, hi - b);
  }

  /** Every blend of neighbours is a convex one: it stays between 0 and 1. */
  lemma BlendWithin(f: Image, c: nat, x: int, wx: real, y: int, wy: real)
    requires WellFormedImage(f) && c < 3 && 0 <= x <= f.cols - 2 && 0 <= y <= f.rows - 2
    requires 0.0 <= wx <= 1.0 && 0.0 <= wy <= 1.0
    ensures 0.0 <= Blend(f, c, x, wx, y, wy) <= 1.0
  {
    hide Lerp;
    var p00, p01 := f.pixels[y][3 * x + c] as real, f.pixels[y][3 * x + 3 + c] as real;
    var p10, p11 := f.pixels[y + 1][3 * x + c] as real, f.pixels[y + 1][3 * x + 3 + c] as real;
    LerpWithin(p00, p01, wx, 0.0, 255.0);
    LerpWithin(p10, p11, wx, 0.0, 255.0);
    LerpWithin(Lerp(p00, p01, wx), Lerp(p10, p11, wx), wy, 0.0, 255.0);
  }

  // ------------------------------------------------------------ what is sampled

  /** The centres of the output cells lie evenly over the source, src / dst apart, and symmetrically:
      a cell and its mirror image sample mirrored coordinates. */
  lemma CentresAlign(src: nat, dst: nat, o: nat)
    requires o < dst
    ensures (SourceCoordinate(src, dst, o + 1) - SourceCoordinate(src, dst, o)) * (dst as real) == src as real
    ensures SourceCoordinate(src, dst, o) + SourceCoordinate(src, dst, dst - 1 - o) == src as real - 1.0
    ensures src == dst ==> SourceCoordinate(src, dst, o) == o as real
  {
    var scale := src as real / dst as real;
    assert scale * (dst as real) == src as real;
    assert (o as real + 0.5) * scale + ((dst - 1 - o) as real + 0.5) * scale == dst as real * scale;
    assert (o as real + 1.5) * scale - (o as real + 0.5) * scale == scale;
  }

  function Pixel(f: Image, c: nat, y: nat, x: nat): real
    requires WellFormedImage(f) && c < 3 && y < f.rows && x < f.cols
  {
    f.pixels[y][3 * x + c] as real
  }

  /** A bilinear surface; over four neighbouring pixels every image is one. */
  datatype Surface = Surface(a: real, b: real, g: real, d: real) {
    function At(x: real, y: real): real { a + b * x + g * y + d * (x * y) }
  }

  /** Channel c of the frame samples the surface. */
  ghost predicate IsSurface(f: Image, c: nat, s: Surface)
    requires WellFormedImage(f) && c < 3
  {
    forall y, x :: 0 <= y < f.rows && 0 <= x < f.cols ==> Pixel(f, c, y, x) == s.At(x as real, y as real)
  }

  lemma LerpAlongX(s: Surface, x: real, y: real, w: real)
    ensures Lerp(s.At(x, y), s.At(x + 1.0, y), w) == s.At(x + w, y)
  {
    assert (x + 1.0) * y == x * y + y;
    assert w * (s.b + s.d * y) == w * s.b + w * (s.d * y);
  }

  lemma LerpAlongY(s: Surface, x: real, y: real, w: real)
    ensures Lerp(s.At(x, y), s.At(x, y + 1.0), w) == s.At(x, y + w)
  {
    assert x * (y + 1.0) == x * y + x;
    assert w * (s.g + s.d * x) == w * s.g + w * (s.d * x);
  }

  lemma BlendOfSurface(f: Image, c: nat, x: int, wx: real, y: int, wy: real, s: Surface)
    requires WellFormedImage(f) && c < 3 && 0 <= x <= f.cols - 2 && 0 <= y <= f.rows - 2 && IsSurface(f, c, s)
    ensures Blend(f, c, x, wx, y, wy) * 255.0 == s.At(x as real + wx, y as real + wy)
  {
    hide Lerp;
    var u, v := x as real, y as real;
    assert Pixel(f, c, y, x) == s.At(u, v) && Pixel(f, c, y, x + 1) == s.At(u + 1.0, v);
    assert Pixel(f, c, y + 1, x) == s.At(u, v + 1.0) && Pixel(f, c, y + 1, x + 1) == s.At(u + 1.0, v + 1.0);
    assert 3 * (x + 1) + c == 3 * x + 3 + c;
    hide Surface.At;
    LerpAlongX(s, u, v, wx);
    LerpAlongX(s, u, v + 1.0, wx);
    LerpAlongY(s, u + wx, v, wy);
  }

  // ------------------------------------------------------------ tensor layout

  function Place(w: nat, h: nat, c: nat, y: nat, x: nat): nat { c * (w * h) + (y * w + x) }

  lemma PlaneIndex(w: nat, h: nat, y: nat, x: nat)
    requires y < h && x < w
    ensures 0 <= y * w + x < w * h
  {
    TimesMonotone(y + 1, h, w);
    assert (y + 1) * w == y * w + w;
  }

  lemma CellInRange(w: nat, h: nat, c: nat, y: nat, x: nat)
    requires c < 3 && y < h && x < w
    ensures Place(w, h, c, y, x) < 3 * (w * h)
  {
    PlaneIndex(w, h, y, x);
    TimesMonotone(c, 2, w * h);
  }

  lemma PairsDiffer(w: nat, a: nat, x: nat, b: nat, y: nat)
    requires x < w && y < w && (a, x) != (b, y)
    ensures a * w + x != b * w + y
  {
    if a < b {
      TimesMonotone(a + 1, b, w);
      assert (a + 1) * w == a * w + w;
    } else if b < a {
      TimesMonotone(b + 1, a, w);
      assert (b + 1) * w == b * w + w;
    }
  }

  /** Different cells have different places. */
  lemma CellsDiffer(w: nat, h: nat, c: nat, y: nat, x: nat, c': nat, y': nat, x': nat)
    requires y < h && x < w && y' < h && x' < w && (c, y, x) != (c', y', x')
    ensures Place(w, h, c, y, x) != Place(w, h, c', y', x')
  {
    PlaneIndex(w, h, y, x);
    PlaneIndex(w, h, y', x');
    if (y, x) != (y', x') { PairsDiffer(w, y, x, y', x'); }
    PairsDiffer(w * h, c, y * w + x, c', y' * w + x');
  }

  lemma PlacesApart(w: nat, h: nat, c: nat, y: nat, x: nat)
    requires c < 3 && y < h && x < w
    ensures forall c', y', x' :: 0 <= c' < 3 && 0 <= y' < h && 0 <= x' < w ==>
      && Place(w, h, c', y', x') < 3 * (w * h)
      && ((c', y', x') != (c, y, x) ==> Place(w, h, c', y', x') != Place(w, h, c, y, x))
  {
    forall c', y', x' | 0 <= c' < 3 && 0 <= y' < h && 0 <= x' < w
      ensures Place(w, h, c', y', x') < 3 * (w * h)
      ensures (c', y', x') != (c, y, x) ==> Place(w, h, c', y', x') != Place(w, h, c, y, x)
    {
      CellInRange(w, h, c', y', x');
      if (c', y', x') != (c, y, x) { CellsDiffer(w, h, c', y', x', c, y, x); }
    }
  }

  /** Every cell that held its wanted value in t still does in t'. */
  ghost predicate Keeps(t: seq<real>, t': seq<real>, f: Image, w: nat, h: nat, ax: Axis, ay: Axis)
    requires WellFormedImage(f) && Tabulates(f, w, h, ax, ay)
  {
    forall c, y, x :: 0 <= c < 3 && 0 <= y < h && 0 <= x < w && Holds(t, f, w, h, ax, ay, c, y, x) ==>
      Holds(t', f, w, h, ax, ay, c, y, x)
  }

  /** The coefficients of one axis. */
  datatype Axis = Axis(idx: seq<int>, w: seq<real>)

  ghost predicate Tabulates(f: Image, w: nat, h: nat, ax: Axis, ay: Axis) {
    w > 0 && h > 0 && Table(f.cols, w, ax.idx, ax.w) && Table(f.rows, h, ay.idx, ay.w)
  }

  /** What a usable frame leaves in cell (c, y, x). */
  ghost function Wanted(f: Image, w: nat, h: nat, ax: Axis, ay: Axis, c: nat, y: nat, x: nat): (v: real)
    requires WellFormedImage(f) && Tabulates(f, w, h, ax, ay) && c < 3 && y < h && x < w
    ensures 0.0 <= v <= 1.0
  {
    assert Samples(f.cols, w, x, ax.idx[x], ax.w[x]) && Samples(f.rows, h, y, ay.idx[y], ay.w[y]);
    BlendWithin(f, c, ax.idx[x], ax.w[x], ay.idx[y], ay.w[y]);
    Blend(f, c, ax.idx[x], ax.w[x], ay.idx[y], ay.w[y])
  }

  ghost predicate Holds(t: seq<real>, f: Image, w: nat, h: nat, ax: Axis, ay: Axis, c: nat, y: nat, x: nat)
    requires WellFormedImage(f) && Tabulates(f, w, h, ax, ay) && c < 3 && y < h && x < w
  {
    Place(w, h, c, y, x) < |t| && t[Place(w, h, c, y, x)] == Wanted(f, w, h, ax, ay, c, y, x)
  }

  class Preprocessor {
    const dstW: nat
    const dstH: nat
    var srcW: nat
    var srcH: nat
    var xAxis: Axis
    var yAxis: Axis
    var tensor: seq<real>

    /** The cached tables belong to the cached frame size. */
    ghost predicate Valid()
      reads this
    {
      && dstW > 0 && dstH > 0
      && (srcW == srcH == 0 ||
          (srcW >= 2 && srcH >= 2 && Table(srcW, dstW, xAxis.idx, xAxis.w) && Table(srcH, dstH, yAxis.idx, yAxis.w)))
    }

    constructor (dstW: nat, dstH: nat)
      requires dstW > 0 && dstH > 0
      ensures Valid() && this.dstW == dstW && this.dstH == dstH && tensor == []
    {
      this.dstW, this.dstH := dstW, dstH;
      srcW, srcH, xAxis, yAxis, tensor := 0, 0, Axis([], []), Axis([], []), [];
    }

    method BuildResizeCoeffs(cols: nat, rows: nat)
      requires dstW > 0 && dstH > 0 && cols >= 2 && rows >= 2
      modifies this`srcW, this`srcH, this`xAxis, this`yAxis
      ensures Valid() && srcW == cols && srcH == rows
    {
      var xIdx, xW := BuildTable(cols, dstW);
      var yIdx, yW := BuildTable(rows, dstH);
      xAxis, yAxis := Axis(xIdx, xW), Axis(yIdx, yW);
      srcW, srcH := cols, rows;
    }

    /** Fills the tensor; only 8-bit BGR frames large enough to sample from are used, another leaves it alone. */
    method Preprocess(f: Image)
      requires Valid() && WellFormedImage(f)
      modifies this
      ensures Valid() && |tensor| == 3 * (dstW * dstH)
      ensures f.isBgr8 && f.cols >= 2 && f.rows >= 2 ==> Tabulates(f, dstW, dstH, xAxis, yAxis)
      ensures f.isBgr8 && f.cols >= 2 && f.rows >= 2 ==>
        forall c, y, x :: 0 <= c < 3 && 0 <= y < dstH && 0 <= x < dstW ==>
          Holds(tensor, f, dstW, dstH, xAxis, yAxis, c, y, x)
      ensures !(f.isBgr8 && f.cols >= 2 && f.rows >= 2) && |old(tensor)| == 3 * (dstW * dstH) ==> tensor == old(tensor)
    {
      hide WellFormedImage, Table, Holds, Place;
      var size := 3 * (dstW * dstH);
      tensor := if |tensor| >= size then tensor[..size] else tensor + seq(size - |tensor|, _ => 0.0);
      if !f.isBgr8 || f.cols < 2 || f.rows < 2 {
        return;
      }
      if f.cols != srcW || f.rows != srcH {
        BuildResizeCoeffs(f.cols, f.rows);
      }
      ghost var ax, ay := xAxis, yAxis;
      for oy := 0 to dstH
        invariant |tensor| == size && xAxis == ax && yAxis == ay
        invariant srcW == f.cols && srcH == f.rows
        invariant forall c, y, x :: 0 <= c < 3 && 0 <= y < oy && 0 <= x < dstW ==>
          Holds(tensor, f, dstW, dstH, ax, ay, c, y, x)
      {
        for ox := 0 to dstW
          invariant |tensor| == size && xAxis == ax && yAxis == ay
          invariant srcW == f.cols && srcH == f.rows
          invariant forall c, y, x :: 0 <= c < 3 && 0 <= y <= oy && 0 <= x < dstW && (y < oy || x < ox) ==>
            Holds(tensor, f, dstW, dstH, ax, ay, c, y, x)
        {
          FillPixel(f, oy, ox);
        }
      }
    }

    /** The three channels of one output pixel. */
    method FillPixel(f: Image, oy: nat, ox: nat)
      requires WellFormedImage(f) && Tabulates(f, dstW, dstH, xAxis, yAxis)
      requires |tensor| == 3 * (dstW * dstH) && oy < dstH && ox < dstW
      modifies this`tensor
      ensures |tensor| == |old(tensor)|
      ensures forall c :: 0 <= c < 3 ==> Holds(tensor, f, dstW, dstH, xAxis, yAxis, c, oy, ox)
      ensures Keeps(old(tensor), tensor, f, dstW, dstH, xAxis, yAxis)
    {
      ghost var ax, ay := xAxis, yAxis;
      for c := 0 to 3
        invariant |tensor| == |old(tensor)|
        invariant forall c' :: 0 <= c' < c ==> Holds(tensor, f, dstW, dstH, ax, ay, c', oy, ox)
        invariant Keeps(old(tensor), tensor, f, dstW, dstH, ax, ay)
      {
        hide WellFormedImage, Tabulates, Wanted, Holds, Place;
        var value := SampleChannel(f, c, oy, ox);
        WriteCell(tensor, f, dstW, dstH, ax, ay, c, oy, ox, value);
        tensor := tensor[c * (dstW * dstH) + (oy * dstW + ox) := value];
      }
    }

    /** Bilinear blend of the four neighbours of one channel. */
    method SampleChannel(f: Image, c: nat, oy: nat, ox: nat) returns (value: real)
      requires WellFormedImage(f) && Tabulates(f, dstW, dstH, xAxis, yAxis)
      requires c < 3 && oy < dstH && ox < dstW
      ensures value == Wanted(f, dstW, dstH, xAxis, yAxis, c, oy, ox)
    {
      SampledPlace(f, dstW, dstH, xAxis, yAxis, oy, ox);
      hide Table, Samples, WellFormedImage, Lerp;
      var y0, wy, x0, wx := yAxis.idx[oy], yAxis.w[oy], xAxis.idx[ox], xAxis.w[ox];
      var row0, row1 := f.pixels[y0], f.pixels[y0 + 1];
      var c0 := x0 * 3;
      var c1 := c0 + 3;
      var p00, p01 := row0[c0 + c] as real, row0[c1 + c] as real;
      var p10, p11 := row1[c0 + c] as real, row1[c1 + c] as real;
      var top := Lerp(p00, p01, wx);
      var bottom := Lerp(p10, p11, wx);
      value := Lerp(top, bottom, wy) * (1.0 / 255.0);
    }
  }

  /** The neighbours an output cell blends are in the frame. */
  lemma SampledPlace(f: Image, w: nat, h: nat, ax: Axis, ay: Axis, y: nat, x: nat)
    requires WellFormedImage(f) && Tabulates(f, w, h, ax, ay) && y < h && x < w
    ensures |ax.idx| == |ax.w| == w && |ay.idx| == |ay.w| == h
    ensures 0 <= ax.idx[x] <= f.cols - 2 && 0 <= ay.idx[y] <= f.rows - 2
    ensures |f.pixels| == f.rows
    ensures |f.pixels[ay.idx[y]]| == |f.pixels[ay.idx[y] + 1]| == 3 * f.cols
  {
    assert Samples(f.cols, w, x, ax.idx[x], ax.w[x]) && Samples(f.rows, h, y, ay.idx[y], ay.w[y]);
  }

  /** Writing the wanted value of one cell establishes it and keeps every other. */
  lemma WriteCell(t: seq<real>, f: Image, w: nat, h: nat, ax: Axis, ay: Axis, c: nat, y: nat, x: nat, value: real)
    requires WellFormedImage(f) && Tabulates(f, w, h, ax, ay) && |t| == 3 * (w * h) && c < 3 && y < h && x < w
    requires value == Wanted(f, w, h, ax, ay, c, y, x)
    ensures 0 <= c * (w * h) + (y * w + x) < |t|
    ensures var t' := t[c * (w * h) + (y * w + x) := value];
            Holds(t', f, w, h, ax, ay, c, y, x) && Keeps(t, t', f, w, h, ax, ay)
  {
    hide Wanted;
    var place := Place(w, h, c, y, x);
    assert place == c * (w * h) + (y * w + x);
    PlacesApart(w, h, c, y, x);
    hide Place;
    CellInRange(w, h, c, y, x);
  }

  /** A filled tensor reproduces every bilinear image: plane c, row y, column x holds a 255th of its
      value under the centre of the output cell, clamped to the frame. */
  lemma SurfaceReproduced(t: seq<real>, f: Image, w: nat, h: nat, ax: Axis, ay: Axis, c: nat, y: nat, x: nat,
                          s: Surface)
    requires WellFormedImage(f) && Tabulates(f, w, h, ax, ay) && c < 3 && y < h && x < w
    requires Holds(t, f, w, h, ax, ay, c, y, x) && IsSurface(f, c, s)
    ensures 0 <= (c * h + y) * w + x < |t|
    ensures t[(c * h + y) * w + x] * 255.0 ==
            s.At(Clip(SourceCoordinate(f.cols, w, x), 0.0, f.cols as real - 1.0),
                 Clip(SourceCoordinate(f.rows, h, y), 0.0, f.rows as real - 1.0))
  {
    assert Samples(f.cols, w, x, ax.idx[x], ax.w[x]) && Samples(f.rows, h, y, ay.idx[y], ay.w[y]);
    assert Place(w, h, c, y, x) == (c * h + y) * w + x;
    hide WellFormedImage, Table, Place, Clip, SourceCoordinate, Blend, Lerp, Surface.At, IsSurface;
    BlendOfSurface(f, c, ax.idx[x], ax.w[x], ay.idx[y], ay.w[y], s);
  }
}

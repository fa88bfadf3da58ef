/** The self-validating decoder of the detection tensor. */
module Decoder {
  import opened Products
  import opened Geometry
  import opened Numbers
  import opened Wrappers

  const MAX_DIM: int := 0x100_0000

  /** The tensor is [1, 4 + classes, anchors], row-major. */
  datatype Tensor = Tensor(data: seq<real>, channels: nat, anchors: nat)

  ghost predicate Fits(t: Tensor) {
    t.channels > 4 && t.anchors > 0 && t.channels * t.anchors <= |t.data|
  }

  lemma IndexInRange(t: Tensor, k: nat, i: nat)
    requires Fits(t) && k < t.channels && i < t.anchors
    ensures 0 <= k * t.anchors + i < |t.data|
  {
    TimesMonotone(k + 1, t.channels, t.anchors);
    assert (k + 1) * t.anchors == k * t.anchors + t.anchors;
    TimesMonotone(0, k, t.anchors);
  }

  ghost function Channel(t: Tensor, k: nat, i: nat): real
    requires Fits(t) && k < t.channels && i < t.anchors
  {
    IndexInRange(t, k, i);
    t.data[k * t.anchors + i]
  }

  ghost function ClassScore(t: Tensor, c: nat, i: nat): real
    requires Fits(t) && c < t.channels - 4 && i < t.anchors
  {
    Channel(t, 4 + c, i)
  }

  /** cls is the first class of greatest positive score at anchor i, or -1 if none is positive. */
  ghost predicate FirstArgmax(t: Tensor, i: nat, n: nat, cls: int, score: real)
    requires Fits(t) && i < t.anchors && n <= t.channels - 4
  {
    && score >= 0.0 && -1 <= cls < n
    && (cls == -1 <==> score == 0.0)
    && (cls >= 0 ==> ClassScore(t, cls, i) == score)
    && (forall c :: 0 <= c < n ==> ClassScore(t, c, i) <= score)
    && (forall c :: 0 <= c < cls ==> ClassScore(t, c, i) < score)
  }

  lemma FirstArgmaxUnique(t: Tensor, i: nat, n: nat, cls: int, score: real, cls': int, score': real)
    requires Fits(t) && i < t.anchors && n <= t.channels - 4
    requires FirstArgmax(t, i, n, cls, score) && FirstArgmax(t, i, n, cls', score')
    ensures cls == cls' && score == score'
  {
    if cls >= 0 && cls' >= 0 {
      assert ClassScore(t, cls, i) <= score' && ClassScore(t, cls', i) <= score;
    }
  }

  predicate Vehicular(cls: int) { cls in {2, 3, 5, 7} }

  datatype Frame = Frame(frameW: int, frameH: int, inputW: int, inputH: int)

  ghost function BoxAt(t: Tensor, f: Frame, i: nat): BBox
    requires Fits(t) && i < t.anchors && f.inputW > 0 && f.inputH > 0
  {
    var scaleX, scaleY := f.frameW as real / f.inputW as real, f.frameH as real / f.inputH as real;
    var cx, cy, w, h := Channel(t, 0, i), Channel(t, 1, i), Channel(t, 2, i), Channel(t, 3, i);
    BBox((cx - w / 2.0) * scaleX, (cy - h / 2.0) * scaleY, w * scaleX, h * scaleY)
  }

  /** The first argmax exists: scan the first n classes. */
  ghost function BestUpTo(t: Tensor, i: nat, n: nat): (r: (int, real))
    requires Fits(t) && i < t.anchors && n <= t.channels - 4
    ensures FirstArgmax(t, i, n, r.0, r.1)
  {
    if n == 0 then (-1, 0.0)
    else
      var r := BestUpTo(t, i, n - 1);
      if ClassScore(t, n - 1, i) > r.1 then (n - 1, ClassScore(t, n - 1, i)) else r
  }

  /** What anchor i detects. */
  ghost function AnchorDetection(t: Tensor, f: Frame, i: nat): (d: Detection)
    requires Fits(t) && i < t.anchors && f.inputW > 0 && f.inputH > 0
    ensures FirstArgmax(t, i, t.channels - 4, d.classId, d.confidence) && d.bbox == BoxAt(t, f, i)
  {
    var (cls, score) := BestUpTo(t, i, t.channels - 4);
    Detection(BoxAt(t, f, i), cls, score)
  }

  predicate ConfidentVehicle(d: Detection, threshold: real) {
    d.confidence >= threshold && Vehicular(d.classId)
  }

  /** The confident vehicles among the first n anchors, in anchor order. */
  ghost function Decoded(t: Tensor, f: Frame, threshold: real, n: nat): seq<Detection>
    requires Fits(t) && n <= t.anchors && f.inputW > 0 && f.inputH > 0
  {
    if n == 0 then []
    else
      var d := AnchorDetection(t, f, n - 1);
      Decoded(t, f, threshold, n - 1) + if ConfidentVehicle(d, threshold) then [d] else []
  }

  /** Decoding is filtering: the detections of the passing anchors, none lost, none moved. */
  lemma {:induction false} DecodedIsFilter(t: Tensor, f: Frame, threshold: real, n: nat) returns (at: seq<nat>)
    requires Fits(t) && n <= t.anchors && f.inputW > 0 && f.inputH > 0
    ensures |at| == |Decoded(t, f, threshold, n)|
    ensures forall i, j :: 0 <= i < j < |at| ==> at[i] < at[j]
    ensures forall k :: 0 <= k < |at| ==> at[k] < n && Decoded(t, f, threshold, n)[k] == AnchorDetection(t, f, at[k])
    ensures forall i :: 0 <= i < n ==> (i in at <==> ConfidentVehicle(AnchorDetection(t, f, i), threshold))
  {
    hide AnchorDetection, ConfidentVehicle, Fits;
    if n == 0 {
      at := [];
    } else {
      at := DecodedIsFilter(t, f, threshold, n - 1);
      if ConfidentVehicle(AnchorDetection(t, f, n - 1), threshold) {
        at := at + [n - 1];
      }
    }
  }

  /** The box around the decoded centre, scaled from the model's input to the frame. */
  lemma BoxIsScaled(t: Tensor, f: Frame, i: nat)
    requires Fits(t) && i < t.anchors && f.inputW > 0 && f.inputH > 0
    ensures 3 * t.anchors + i < |t.data|
    ensures var b := BoxAt(t, f, i);
            && (b.x + b.width / 2.0) * f.inputW as real == t.data[i] * f.frameW as real
            && (b.y + b.height / 2.0) * f.inputH as real == t.data[t.anchors + i] * f.frameH as real
            && b.width * f.inputW as real == t.data[2 * t.anchors + i] * f.frameW as real
            && b.height * f.inputH as real == t.data[3 * t.anchors + i] * f.frameH as real
  {
    var cx, cy, w, h := Channel(t, 0, i), Channel(t, 1, i), Channel(t, 2, i), Channel(t, 3, i);
    Indices(t, i);
    hide Fits, Channel;
    ScaledSpan(cx, w, f.frameW as real, f.inputW as real);
    ScaledSpan(cy, h, f.frameH as real, f.inputH as real);
  }

  /** Scaling a span from its start and length scales its middle too. */
  lemma ScaledSpan(middle: real, length: real, frame: real, input: real)
    requires input > 0.0
    ensures var scale := frame / input;
            && ((middle - length / 2.0) * scale + length * scale / 2.0) * input == middle * frame
            && length * scale * input == length * frame
  {
    var scale := frame / input;
    assert scale * input == frame;
    assert (middle - length / 2.0) * scale + length * scale / 2.0 == middle * scale;
    assert middle * scale * input == middle * (scale * input);
    assert length * scale * input == length * (scale * input);
  }

  /** The score of class c at anchor i, in the row after the four of the boxes. */
  lemma ScoreInRow(t: Tensor, c: nat, i: nat)
    requires Fits(t) && c < t.channels - 4 && i < t.anchors
    ensures (4 + c) * t.anchors + i < |t.data| && ClassScore(t, c, i) == t.data[(4 + c) * t.anchors + i]
  {
    IndexInRange(t, 4 + c, i);
  }

  /** Class c is the first to score highest at anchor i. */
  ghost predicate Wins(t: Tensor, i: nat, c: nat)
    requires Fits(t) && c < t.channels - 4 && i < t.anchors
  {
    && ClassScore(t, c, i) > 0.0
    && (forall d :: 0 <= d < t.channels - 4 ==> ClassScore(t, d, i) <= ClassScore(t, c, i))
    && (forall d :: 0 <= d < c ==> ClassScore(t, d, i) < ClassScore(t, c, i))
  }

  /** Anchor i gives a detection exactly when its winning class is a car (2), a motorcycle (3), a
      bus (5) or a truck (7) and scores the threshold. */
  lemma PassesExactly(t: Tensor, f: Frame, threshold: real, i: nat)
    requires Fits(t) && i < t.anchors && f.inputW > 0 && f.inputH > 0
    ensures var d := AnchorDetection(t, f, i);
            && (ConfidentVehicle(d, threshold) <==>
                  exists c: nat :: c < t.channels - 4 && Wins(t, i, c) && (c == 2 || c == 3 || c == 5 || c == 7) &&
                                   ClassScore(t, c, i) >= threshold)
            && (forall c: nat :: c < t.channels - 4 && Wins(t, i, c) ==>
                  d.classId == c && d.confidence == ClassScore(t, c, i))
            && d.bbox == BoxAt(t, f, i)
  {
    hide Fits, BoxAt, Channel, ClassScore;
    var d := AnchorDetection(t, f, i);
    forall c: nat | c < t.channels - 4 && Wins(t, i, c)
      ensures d.classId == c && d.confidence == ClassScore(t, c, i)
    {
      FirstArgmaxUnique(t, i, t.channels - 4, d.classId, d.confidence, c, ClassScore(t, c, i));
    }
    if d.classId >= 0 {
      assert Wins(t, i, d.classId);
    }
  }

  /** What the geometry checks accept, on the true product of the dimensions. */
  ghost predicate WellShaped(data: Option<seq<real>>, shape: Option<seq<int>>, f: Frame) {
    && data.Some? && shape.Some? && |shape.value| == 3
    && shape.value[0] == 1 && 4 < shape.value[1] <= 16777216 && 0 < shape.value[2] <= 16777216
    && f.inputW > 0 && f.inputH > 0
    && shape.value[1] * shape.value[2] <= |data.value|
  }

  /** With both dimensions bounded the 64-bit product is the true product. */
  lemma ProductDoesNotWrap(a: nat, b: nat)
    requires a <= MAX_DIM && b <= MAX_DIM
    ensures 0 <= a * b < TWO_64 && (a * b) % TWO_64 == a * b
  {
    TimesMonotone(a, MAX_DIM, b);
  }

  /** Decodes exactly the well-shaped tensors, into the confident vehicles in anchor order. */
  method DecodeYoloOutput(data: Option<seq<real>>, shape: Option<seq<int>>, f: Frame, threshold: real)
    returns (ok: bool, out: seq<Detection>)
    ensures ok == WellShaped(data, shape, f)
    ensures !ok ==> out == []
    ensures ok ==>
      var t := Tensor(data.value, shape.value[1], shape.value[2]);
      Fits(t) && out == Decoded(t, f, threshold, t.anchors)
  {
    out := [];
    if data == None || shape == None {
      return false, out;
    }
    var dims := shape.value;
    if |dims| != 3 {
      return false, out;
    }
    if dims[0] != 1 {
      return false, out;
    }
    if dims[1] <= 4 || dims[2] <= 0 {
      return false, out;
    }
    if f.inputW <= 0 || f.inputH <= 0 {
      return false, out;
    }
    if dims[1] > MAX_DIM || dims[2] > MAX_DIM {
      return false, out;
    }
    var channels: nat, anchors: nat := dims[1], dims[2];
    ProductDoesNotWrap(channels, anchors);
    var required := (channels * anchors) % TWO_64;
    if required > |data.value| {
      return false, out;
    }
    var t := Tensor(data.value, channels, anchors);
    out := DecodeAnchors(t, f, threshold);
    ok := true;
  }

  /** The loop over the anchors of a tensor that fits its buffer. */
  method DecodeAnchors(t: Tensor, f: Frame, threshold: real) returns (out: seq<Detection>)
    requires Fits(t) && f.inputW > 0 && f.inputH > 0
    ensures out == Decoded(t, f, threshold, t.anchors)
  {
    hide Fits, FirstArgmax, Vehicular, BoxAt, AnchorDetection;
    out := [];
    for i := 0 to t.anchors
      invariant out == Decoded(t, f, threshold, i)
    {
      var classId, maxScore := Argmax(t, i);
      var bbox := DecodeBox(t, f, i);
      VehicularClasses(classId);
      ghost var d := AnchorDetection(t, f, i);
      FirstArgmaxUnique(t, i, t.channels - 4, classId, maxScore, d.classId, d.confidence);
      if maxScore >= threshold && (classId == 2 || classId == 3 || classId == 5 || classId == 7) {
        out := out + [Detection(bbox, classId, maxScore)];
      }
    }
  }

  lemma VehicularClasses(cls: int)
    ensures Vehicular(cls) <==> cls == 2 || cls == 3 || cls == 5 || cls == 7
  {
  }

  method DecodeBox(t: Tensor, f: Frame, i: nat) returns (bbox: BBox)
    requires Fits(t) && i < t.anchors && f.inputW > 0 && f.inputH > 0
    ensures bbox == BoxAt(t, f, i)
  {
    hide Fits, Channel;
    var scaleX, scaleY := f.frameW as real / f.inputW as real, f.frameH as real / f.inputH as real;
    Indices(t, i);
    var cx, cy := t.data[0 * t.anchors + i], t.data[1 * t.anchors + i];
    var w, h := t.data[2 * t.anchors + i], t.data[3 * t.anchors + i];
    bbox := BBox((cx - w / 2.0) * scaleX, (cy - h / 2.0) * scaleY, w * scaleX, h * scaleY);
  }

  lemma Indices(t: Tensor, i: nat)
    requires Fits(t) && i < t.anchors
    ensures 3 * t.anchors + i < |t.data|
    ensures Channel(t, 0, i) == t.data[0 * t.anchors + i] && Channel(t, 1, i) == t.data[1 * t.anchors + i]
    ensures Channel(t, 2, i) == t.data[2 * t.anchors + i] && Channel(t, 3, i) == t.data[3 * t.anchors + i]
  {
    IndexInRange(t, 3, i);
  }

  method Argmax(t: Tensor, i: nat) returns (classId: int, maxScore: real)
    requires Fits(t) && i < t.anchors
    ensures FirstArgmax(t, i, t.channels - 4, classId, maxScore)
  {
    maxScore, classId := 0.0, -1;
    for c := 0 to t.channels - 4
      invariant FirstArgmax(t, i, c, classId, maxScore)
    {
      IndexInRange(t, 4 + c, i);
      var score := t.data[(4 + c) * t.anchors + i];
      assert score == ClassScore(t, c, i);
      if score > maxScore {
        maxScore, classId := score, c;
      }
    }
  }
}

/** Which detection belongs to which track: the gate, its cost matrix, and what the
    solved assignment means for tracks and detections. */
module Association {
  import opened Permutations
  import opened Assignment
  import opened Geometry
  import opened Padding
  import opened Blocks

  /** Same class and enough overlap. */
  predicate Gate(threshold: real, det: Detection, track: Detection) {
    det.classId == track.classId && ComputeIou(det.bbox, track.bbox) > threshold
  }

  ghost function PairCost(threshold: real, tracks: seq<Detection>, dets: seq<Detection>, k: nat, d: nat): real {
    if k < |tracks| && d < |dets| && Gate(threshold, dets[d], tracks[k])
    then 1.0 - ComputeIou(dets[d].bbox, tracks[k].bbox)
    else INFEASIBLE
  }

  ghost predicate IsPadded(m: Matrix, n: nat, threshold: real, tracks: seq<Detection>, dets: seq<Detection>) {
    && Square(m, n) && |tracks| <= n && |dets| <= n
    && forall k, d :: 0 <= k < n && 0 <= d < n ==> m[k][d] == PairCost(threshold, tracks, dets, k, d)
  }

  /** a[d] is the track given to detection d, or -1: one-to-one, of its class and over the threshold. */
  ghost predicate Associates(threshold: real, tracks: seq<Detection>, dets: seq<Detection>, a: seq<int>) {
    && |a| == |dets| && InRange(a, -1, |tracks|)
    && (forall i, j :: 0 <= i < j < |a| && a[i] >= 0 ==> a[i] != a[j])
    && forall d :: 0 <= d < |a| && a[d] >= 0 ==>
         dets[d].classId == tracks[a[d]].classId && ComputeIou(dets[d].bbox, tracks[a[d]].bbox) > threshold
  }

  ghost function TotalIou(tracks: seq<Detection>, dets: seq<Detection>, a: seq<int>): real
    requires |a| <= |dets| && InRange(a, -1, |tracks|)
  {
    if a == [] then 0.0
    else
      var d := |a| - 1;
      TotalIou(tracks, dets, a[..d]) + if a[d] >= 0 then ComputeIou(dets[d].bbox, tracks[a[d]].bbox) else 0.0
  }

  /** As many pairs as possible, and the greatest overlap among those. */
  ghost predicate Best(threshold: real, tracks: seq<Detection>, dets: seq<Detection>, a: seq<int>) {
    && Associates(threshold, tracks, dets, a)
    && forall b :: Associates(threshold, tracks, dets, b) ==>
         && Pairs(b) <= Pairs(a)
         && (Pairs(b) == Pairs(a) ==> TotalIou(tracks, dets, b) <= TotalIou(tracks, dets, a))
  }

  /** One infeasible cell outweighs every real pair, each of which costs less than one minus the
      threshold; without a threshold (a negative one) the classes alone decide. */
  ghost predicate Outweighed(n: nat, threshold: real) {
    threshold < 0.0 || Times(n, 1.0 - threshold) <= INFEASIBLE
  }

  /** The association read off a permutation: its feasible cells among the detections. */
  ghost function Matched(m: Matrix, n: nat, s: seq<int>, nDets: nat): (a: seq<int>)
    requires Square(m, n) && IsPermutation(s, n) && nDets <= n
    ensures |a| == nDets && InRange(a, -1, n)
  {
    RealPairs(m, n, s)[..nDets]
  }

  lemma MatchedAssociates(m: Matrix, n: nat, threshold: real, tracks: seq<Detection>, dets: seq<Detection>, s: seq<int>)
    requires IsPadded(m, n, threshold, tracks, dets) && IsPermutation(s, n)
    ensures Associates(threshold, tracks, dets, Matched(m, n, s, |dets|))
    ensures RealPairs(m, n, s) == Matched(m, n, s, |dets|) + seq(n - |dets|, _ => -1)
  {
    forall d | 0 <= d < n
      ensures m[s[d]][d] == PairCost(threshold, tracks, dets, s[d], d)
    {
    }
  }

  lemma PaddedIsGated(m: Matrix, n: nat, threshold: real, tracks: seq<Detection>, dets: seq<Detection>)
    requires IsPadded(m, n, threshold, tracks, dets)
    ensures Gated(m, n) && PairsBelow(m, n, 1.0 - threshold)
  {
    forall k, d | 0 <= k < n && 0 <= d < n
      ensures m[k][d] == INFEASIBLE || (0.0 <= m[k][d] <= 1.0 && m[k][d] < 1.0 - threshold)
    {
      hide ComputeIou;
      if k < |tracks| && d < |dets| {
        IouIsAFraction(dets[d].bbox, tracks[k].bbox);
      }
    }
  }

  lemma {:induction false} ScoreIsIou(m: Matrix, n: nat, threshold: real, tracks: seq<Detection>, dets: seq<Detection>,
                                      a: seq<int>)
    requires IsPadded(m, n, threshold, tracks, dets)
    requires |a| <= |dets| && InRange(a, -1, |tracks|)
    requires forall d :: 0 <= d < |a| && a[d] >= 0 ==> Gate(threshold, dets[d], tracks[a[d]])
    ensures InRange(a, -1, n) && Score(m, n, a) == TotalIou(tracks, dets, a)
  {
    hide ComputeIou;
    if a == [] {
    } else {
      var d := |a| - 1;
      ScoreIsIou(m, n, threshold, tracks, dets, a[..d]);
      assert a[d] >= 0 ==> m[a[d]][d] == PairCost(threshold, tracks, dets, a[d], d);
    }
  }

  lemma PaddedAdmissible(m: Matrix, n: nat, threshold: real, tracks: seq<Detection>, dets: seq<Detection>, b: seq<int>)
    requires IsPadded(m, n, threshold, tracks, dets)
    requires Associates(threshold, tracks, dets, b)
    ensures Admissible(m, n, b + seq(n - |b|, _ => -1))
  {
    var t := b + seq(n - |b|, _ => -1);
    forall d | 0 <= d < n && t[d] >= 0
      ensures m[t[d]][d] < INFEASIBLE
    {
      hide ComputeIou;
      assert m[t[d]][d] == PairCost(threshold, tracks, dets, t[d], d);
      IouIsAFraction(dets[d].bbox, tracks[t[d]].bbox);
    }
  }

  ghost function Classes(ds: seq<Detection>): (cs: seq<int>)
    ensures |cs| == |ds| && forall i :: 0 <= i < |ds| ==> cs[i] == ds[i].classId
  {
    seq(|ds|, i requires 0 <= i < |ds| => ds[i].classId)
  }

  /** With a negative threshold the association is maximal within the classes, so a largest one. */
  lemma ClassesDecide(m: Matrix, n: nat, threshold: real, tracks: seq<Detection>, dets: seq<Detection>,
                      s: seq<int>, b: seq<int>)
    requires IsPadded(m, n, threshold, tracks, dets) && IsPermutation(s, n) && Cheapest(m, n, s)
    requires threshold < 0.0 && Associates(threshold, tracks, dets, b)
    ensures Pairs(b) <= Pairs(Matched(m, n, s, |dets|))
  {
    hide ComputeIou, Cheapest;
    var a, rows, cols := Matched(m, n, s, |dets|), Classes(tracks), Classes(dets);
    MatchedAssociates(m, n, threshold, tracks, dets, s);
    PaddedIsGated(m, n, threshold, tracks, dets);
    forall k, d | 0 <= k < |rows| && 0 <= d < |a| && a[d] < 0 && rows[k] == cols[d]
      ensures k in a
    {
      IouIsAFraction(dets[d].bbox, tracks[k].bbox);
      assert m[k][d] == PairCost(threshold, tracks, dets, k, d);
      CheapestIsMaximal(m, n, s, k, d);
    }
    MaximalIsLargest(rows, cols, a, b);
  }

  /** What an association is worth in the padded matrix. */
  lemma PaddedWorth(m: Matrix, n: nat, threshold: real, tracks: seq<Detection>, dets: seq<Detection>, b: seq<int>)
    returns (t: seq<int>)
    requires IsPadded(m, n, threshold, tracks, dets)
    requires Associates(threshold, tracks, dets, b)
    ensures t == b + seq(n - |dets|, _ => -1) && |t| == n && Admissible(m, n, t)
    ensures Pairs(t) == Pairs(b) && Score(m, n, t) == TotalIou(tracks, dets, b)
  {
    t := b + seq(n - |dets|, _ => -1);
    PaddedAdmissible(m, n, threshold, tracks, dets, b);
    ScoreIsIou(m, n, threshold, tracks, dets, b);
    TrailingGaps(m, n, b, n - |dets|);
  }

  /** Solving the padded matrix associates tracks and detections in the best way. */
  lemma SolvedIsBest(m: Matrix, n: nat, threshold: real, tracks: seq<Detection>, dets: seq<Detection>, s: seq<int>)
    requires IsPadded(m, n, threshold, tracks, dets) && IsPermutation(s, n) && Cheapest(m, n, s)
    requires Outweighed(n, threshold)
    ensures Best(threshold, tracks, dets, Matched(m, n, s, |dets|))
  {
    hide Cheapest, Times, Gate, PairCost, Gated, PairsBelow, Admissible, Pairs, Score, TotalIou, Matched;
    var a := Matched(m, n, s, |dets|);
    MatchedAssociates(m, n, threshold, tracks, dets, s);
    PaddedIsGated(m, n, threshold, tracks, dets);
    var best := PaddedWorth(m, n, threshold, tracks, dets, a);
    forall b | Associates(threshold, tracks, dets, b)
      ensures Pairs(b) <= Pairs(a)
      ensures Pairs(b) == Pairs(a) ==> TotalIou(tracks, dets, b) <= TotalIou(tracks, dets, a)
    {
      var t := PaddedWorth(m, n, threshold, tracks, dets, b);
      if threshold < 0.0 {
        ClassesDecide(m, n, threshold, tracks, dets, s, b);
        if Pairs(b) == Pairs(a) { CheapestHasBestScore(m, n, s, t); }
      } else {
        CheapestIsLexicographic(m, n, 1.0 - threshold, s, t);
      }
    }
  }

  /** Without tracks or without detections the empty association is the best. */
  lemma NothingToMatch(threshold: real, tracks: seq<Detection>, dets: seq<Detection>)
    requires tracks == [] || dets == []
    ensures Best(threshold, tracks, dets, seq(|dets|, _ => -1))
  {
    var a := seq(|dets|, _ => -1);
    NoPairs(tracks, dets, a);
    forall b | Associates(threshold, tracks, dets, b)
      ensures Pairs(b) == 0 && TotalIou(tracks, dets, b) == 0.0
    {
      NoPairs(tracks, dets, b);
    }
  }

  lemma {:induction false} NoPairs(tracks: seq<Detection>, dets: seq<Detection>, a: seq<int>)
    requires |a| <= |dets| && InRange(a, -1, |tracks|)
    requires forall d :: 0 <= d < |a| ==> a[d] < 0
    ensures Pairs(a) == 0 && TotalIou(tracks, dets, a) == 0.0
  {
    if a == [] {
    } else {
      NoPairs(tracks, dets, a[..|a| - 1]);
    }
  }

  /** The association read off a cheapest permutation s of the padded matrix m. */
  ghost predicate SolvedBy(threshold: real, tracks: seq<Detection>, dets: seq<Detection>, a: seq<int>, m: Matrix,
                           s: seq<int>) {
    var n := if |tracks| < |dets| then |dets| else |tracks|;
    IsPadded(m, n, threshold, tracks, dets) && IsPermutation(s, n) && Cheapest(m, n, s) && a == Matched(m, n, s, |dets|)
  }

  /** What one frame associates: nothing if a side is empty, else what some cheapest permutation gives. */
  ghost predicate Solved(threshold: real, tracks: seq<Detection>, dets: seq<Detection>, a: seq<int>) {
    if tracks == [] || dets == [] then a == seq(|dets|, _ => -1)
    else exists m, s :: SolvedBy(threshold, tracks, dets, a, m, s)
  }

  lemma SolvesIt(threshold: real, tracks: seq<Detection>, dets: seq<Detection>, n: nat, m: Matrix, s: seq<int>)
    requires tracks != [] && dets != [] && n == if |tracks| < |dets| then |dets| else |tracks|
    requires IsPadded(m, n, threshold, tracks, dets) && IsPermutation(s, n) && Cheapest(m, n, s)
    ensures Solved(threshold, tracks, dets, Matched(m, n, s, |dets|))
  {
    hide Cheapest;
    assert SolvedBy(threshold, tracks, dets, Matched(m, n, s, |dets|), m, s);
  }

  lemma NothingToSolve(threshold: real, tracks: seq<Detection>, dets: seq<Detection>)
    requires tracks == [] || dets == []
    ensures Solved(threshold, tracks, dets, seq(|dets|, _ => -1))
  {
  }

  /** Within the bound that is the best association. */
  lemma SolvedAssociationIsBest(threshold: real, tracks: seq<Detection>, dets: seq<Detection>, a: seq<int>)
    requires Solved(threshold, tracks, dets, a)
    requires Outweighed(if |tracks| < |dets| then |dets| else |tracks|, threshold)
    ensures Best(threshold, tracks, dets, a)
  {
    hide Best, Outweighed, Cheapest, IsPadded;
    if tracks == [] || dets == [] {
      NothingToMatch(threshold, tracks, dets);
    } else {
      var m, s :| SolvedBy(threshold, tracks, dets, a, m, s);
      SolvedIsBest(m, if |tracks| < |dets| then |dets| else |tracks|, threshold, tracks, dets, s);
    }
  }
}

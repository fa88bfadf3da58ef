/** The size and the threshold up to which the padding cost is sound, exactly: beyond them a
    chain of boxes, each overlapping its neighbours a little more than the threshold, defeats it. */
module AssociationBound {
  import opened Permutations
  import opened Products
  import opened Assignment
  import opened Geometry
  import opened Padding
  import opened Association
  import opened Tracker

  /** Whatever n tracks or detections come, the association found is the best. */
  ghost predicate AssociationSound(n: nat, threshold: real) {
    forall tracks, dets, a ::
      n == (if |tracks| < |dets| then |dets| else |tracks|) && Solved(threshold, tracks, dets, a) ==>
        Best(threshold, tracks, dets, a)
  }

  // -------------------------------------------------------------------- the chain

  function Unit(x: real): Detection { Detection(BBox(x, 0.0, 1.0, 1.0), 0, 1.0) }

  function At(i: nat, gap: real): real { i as real * gap }

  /** Unit boxes every `gap`: track k is box k, detection d is box d + 1. */
  function ChainTracks(n: nat, gap: real): (ds: seq<Detection>)
    ensures |ds| == n && forall k :: 0 <= k < n ==> ds[k] == Unit(At(k, gap))
  {
    seq(n, k requires 0 <= k < n => Unit(At(k, gap)))
  }

  function ChainDets(n: nat, gap: real): (ds: seq<Detection>)
    ensures |ds| == n && forall d :: 0 <= d < n ==> ds[d] == Unit(At(d + 1, gap))
  {
    seq(n, d requires 0 <= d < n => Unit(At(d + 1, gap)))
  }

  /** Neighbours overlap by more than the threshold, boxes further apart do not, and n pairs of
      neighbours cost more than one infeasible cell. */
  ghost predicate Poor(n: nat, threshold: real, gap: real) {
    && threshold >= 0.0 && 0.0 < gap < 1.0
    && 1.0 - gap > threshold * (1.0 + gap) && 1.0 - 2.0 * gap <= threshold * (1.0 + 2.0 * gap)
    && Times(n, NeighbourCost(gap)) > INFEASIBLE
  }

  function NeighbourCost(gap: real): real
    requires gap > 0.0
  {
    1.0 - (1.0 - gap) / (1.0 + gap)
  }

  /** The overlap ratio of two unit boxes at distance x. */
  function UnitIou(x: real): real
    requires x >= 0.0
  {
    if x < 1.0 then (1.0 - x) / (1.0 + x) else 0.0
  }

  lemma UnitBoxes(a: real, b: real)
    ensures ComputeIou(Unit(a).bbox, Unit(b).bbox) == UnitIou(if a < b then b - a else a - b)
  {
    var x := if a < b then b - a else a - b;
    assert Overlap(a, 1.0, b, 1.0) == Max(0.0, 1.0 - x);
    assert Overlap(0.0, 1.0, 0.0, 1.0) == 1.0;
    assert IntersectionArea(Unit(a).bbox, Unit(b).bbox) == Max(0.0, 1.0 - x) * 1.0;
  }

  lemma UnitIouAbove(x: real, threshold: real)
    requires x >= 0.0 && threshold >= 0.0
    ensures UnitIou(x) > threshold <==> 1.0 - x > threshold * (1.0 + x)
  {
    ProductSign(threshold, 1.0 + x);
    if x < 1.0 {
      var q := UnitIou(x);
      assert q * (1.0 + x) == 1.0 - x;
      SameOrder(q, threshold, 1.0 + x);
    }
  }

  lemma SameOrder(a: real, b: real, c: real)
    requires c > 0.0
    ensures a * c > b * c <==> a > b
  {
  }

  /** What a chain costs: nothing on the shifted diagonal, a neighbour next to it, else infeasible. */
  function ChainCost(gap: real, k: nat, d: nat): real
    requires gap > 0.0
  {
    if k == d + 1 then 0.0 else if k == d || k == d + 2 then NeighbourCost(gap) else INFEASIBLE
  }

  lemma ChainCell(n: nat, threshold: real, gap: real, k: nat, d: nat)
    requires Poor(n, threshold, gap) && k < n && d < n
    ensures PairCost(threshold, ChainTracks(n, gap), ChainDets(n, gap), k, d) == ChainCost(gap, k, d)
  {
    hide At, ComputeIou, UnitIou, NeighbourCost, Times;
    var a, b := At(d + 1, gap), At(k, gap);
    var x := if a < b then b - a else a - b;
    Distance(gap, k, d);
    UnitBoxes(a, b);
    UnitIouAbove(x, threshold);
    if k == d + 1 {
      UnitValues(gap);
    } else if k == d || k == d + 2 {
      UnitValues(gap);
    } else {
      FarApart(threshold, gap, x);
    }
  }

  lemma UnitValues(gap: real)
    requires 0.0 < gap < 1.0
    ensures UnitIou(0.0) == 1.0 && UnitIou(gap) == 1.0 - NeighbourCost(gap)
  {
  }

  lemma FarApart(threshold: real, gap: real, x: real)
    requires threshold >= 0.0 && x >= 2.0 * gap && 1.0 - 2.0 * gap <= threshold * (1.0 + 2.0 * gap)
    ensures 1.0 - x <= threshold * (1.0 + x)
  {
    ProductSign(threshold, x - 2.0 * gap);
  }

  lemma Distance(gap: real, k: nat, d: nat)
    requires gap > 0.0
    ensures var a, b := At(d + 1, gap), At(k, gap);
            var x := if a < b then b - a else a - b;
            if k == d + 1 then x == 0.0 else if k == d || k == d + 2 then x == gap else x >= 2.0 * gap
  {
    if k > d + 2 {
      ProductSign((k - d - 3) as real, gap);
    } else if k < d {
      ProductSign((d - k - 1) as real, gap);
    }
  }

  // ------------------------------------------------------- its cheapest permutation

  ghost function ChainMatrix(n: nat, gap: real): (m: Matrix)
    requires gap > 0.0
    ensures Square(m, n) && forall k, d :: 0 <= k < n && 0 <= d < n ==> m[k][d] == ChainCost(gap, k, d)
  {
    seq(n, k requires 0 <= k < n => seq(n, d requires 0 <= d < n => ChainCost(gap, k, d)))
  }

  lemma ChainIsPadded(n: nat, threshold: real, gap: real)
    requires Poor(n, threshold, gap)
    ensures IsPadded(ChainMatrix(n, gap), n, threshold, ChainTracks(n, gap), ChainDets(n, gap))
  {
    hide PairCost, ChainCost, Poor;
    assert gap > 0.0 by { PoorGap(n, threshold, gap); }
    forall k, d | 0 <= k < n && 0 <= d < n
      ensures ChainMatrix(n, gap)[k][d] == PairCost(threshold, ChainTracks(n, gap), ChainDets(n, gap), k, d)
    {
      ChainCell(n, threshold, gap, k, d);
    }
  }

  lemma PoorGap(n: nat, threshold: real, gap: real)
    requires Poor(n, threshold, gap)
    ensures 0.0 < gap < 1.0 && Times(n, NeighbourCost(gap)) > INFEASIBLE
  {
  }

  /** Everyone to its own detection but the last: n - 1 perfect pairs. */
  ghost function Shifted(n: nat): seq<int> { seq(n, d => if d < n - 1 then d + 1 else 0) }

  lemma {:induction false} ShiftedTotal(n: nat, gap: real, s: seq<int>)
    requires n > 2 && gap > 0.0 && s <= Shifted(n)
    ensures InRange(s, 0, n) && Total(ChainMatrix(n, gap), n, s) == if |s| == n then INFEASIBLE else 0.0
  {
    if s == [] {
    } else {
      ShiftedTotal(n, gap, s[..|s| - 1]);
    }
  }

  lemma {:induction false} DiagonalTotal(n: nat, gap: real, s: seq<int>)
    requires gap > 0.0 && |s| <= n && forall d :: 0 <= d < |s| ==> s[d] == d
    ensures InRange(s, 0, n) && Total(ChainMatrix(n, gap), n, s) == Times(|s|, NeighbourCost(gap))
  {
    if s == [] {
    } else {
      DiagonalTotal(n, gap, s[..|s| - 1]);
    }
  }

  /** The only permutation without infeasible cells pairs every track with a neighbour. */
  lemma {:induction false} OnlyTheDiagonal(n: nat, gap: real, s: seq<int>, d: nat)
    requires gap > 0.0 && IsPermutation(s, n) && d < n
    requires forall k :: 0 <= k < n ==> ChainCost(gap, s[k], k) < INFEASIBLE
    ensures s[d] == d
    decreases n - d
  {
    assert s[d] == d || s[d] == d + 1 || s[d] == d + 2;
    if d + 1 < n { OnlyTheDiagonal(n, gap, s, d + 1); }
    if d + 2 < n { OnlyTheDiagonal(n, gap, s, d + 2); }
  }

  lemma NoPermutationIsCheaper(n: nat, threshold: real, gap: real, s: seq<int>)
    requires Poor(n, threshold, gap) && IsPermutation(s, n) && Gated(ChainMatrix(n, gap), n)
    ensures Total(ChainMatrix(n, gap), n, s) >= INFEASIBLE
  {
    hide ChainCost, Total;
    var m := ChainMatrix(n, gap);
    if forall k :: 0 <= k < n ==> m[s[k]][k] < INFEASIBLE {
      forall d | 0 <= d < n
        ensures s[d] == d
      {
        OnlyTheDiagonal(n, gap, s, d);
      }
      DiagonalTotal(n, gap, s);
    } else {
      TotalAtLeast(m, n, s);
    }
  }

  lemma ShiftedIsCheapest(n: nat, threshold: real, gap: real)
    requires Poor(n, threshold, gap) && n > 2 && Gated(ChainMatrix(n, gap), n)
    ensures IsPermutation(Shifted(n), n) && Cheapest(ChainMatrix(n, gap), n, Shifted(n))
  {
    hide ChainMatrix, ChainCost, Total, Poor;
    PoorGap(n, threshold, gap);
    ShiftedTotal(n, gap, Shifted(n));
    forall s | IsPermutation(s, n)
      ensures Total(ChainMatrix(n, gap), n, Shifted(n)) <= Total(ChainMatrix(n, gap), n, s)
    {
      NoPermutationIsCheaper(n, threshold, gap, s);
    }
  }

  /** The diagonal would pair all of them. */
  lemma DiagonalAssociates(n: nat, threshold: real, gap: real)
    requires Poor(n, threshold, gap)
    ensures Associates(threshold, ChainTracks(n, gap), ChainDets(n, gap), seq(n, d => d))
    ensures Pairs(seq(n, d => d)) == n
  {
    hide ComputeIou, NeighbourCost, At;
    forall d | 0 <= d < n
      ensures Gate(threshold, ChainDets(n, gap)[d], ChainTracks(n, gap)[d])
    {
      Distance(gap, d, d);
      UnitBoxes(At(d + 1, gap), At(d, gap));
      UnitIouAbove(gap, threshold);
    }
    PairsWithin(seq(n, d => d));
  }

  /** Every cheapest permutation of a chain of poor neighbours leaves out exactly one pair. */
  lemma CheapestMissesOne(n: nat, threshold: real, gap: real, s: seq<int>)
    requires Poor(n, threshold, gap) && n > 2 && Gated(ChainMatrix(n, gap), n)
    requires IsPermutation(s, n) && Cheapest(ChainMatrix(n, gap), n, s)
    ensures Pairs(RealPairs(ChainMatrix(n, gap), n, s)) == n - 1
  {
    hide ChainMatrix, ChainCost, Total, Poor, RealPairs, Score;
    PoorGap(n, threshold, gap);
    var m := ChainMatrix(n, gap);
    ShiftedTotal(n, gap, Shifted(n));
    ShiftedIsCheapest(n, threshold, gap);
    assert Total(m, n, s) <= INFEASIBLE;
    CostOfPermutation(m, n, s);
    RealPairsAdmissible(m, n, s);
    ScoreBounds(m, n, RealPairs(m, n, s));
    SomePairMissing(n, threshold, gap, s);
  }

  /** For with n pairs it would be the diagonal, which is dearer. */
  lemma SomePairMissing(n: nat, threshold: real, gap: real, s: seq<int>)
    requires Poor(n, threshold, gap) && IsPermutation(s, n) && Total(ChainMatrix(n, gap), n, s) <= INFEASIBLE
    ensures Pairs(RealPairs(ChainMatrix(n, gap), n, s)) < n
  {
    hide ChainCost, Total, Poor, RealPairs, Pairs;
    PoorGap(n, threshold, gap);
    var m := ChainMatrix(n, gap);
    FullyPaired(m, n, s);
    if forall k :: 0 <= k < n ==> m[s[k]][k] < INFEASIBLE {
      forall d | 0 <= d < n
        ensures s[d] == d
      {
        OnlyTheDiagonal(n, gap, s, d);
      }
      DiagonalTotal(n, gap, s);
    }
  }

  /** The chain defeats the padding: all n tracks could be paired with detections, and whichever
      cheapest permutation the solver finds, it pairs n - 1 of them. */
  lemma ChainDefeats(n: nat, threshold: real, gap: real)
    requires Poor(n, threshold, gap) && n > 2
    ensures IsPadded(ChainMatrix(n, gap), n, threshold, ChainTracks(n, gap), ChainDets(n, gap))
    ensures Associates(threshold, ChainTracks(n, gap), ChainDets(n, gap), seq(n, d => d)) && Pairs(seq(n, d => d)) == n
    ensures IsPermutation(Shifted(n), n) && Cheapest(ChainMatrix(n, gap), n, Shifted(n))
    ensures forall s :: IsPermutation(s, n) && Cheapest(ChainMatrix(n, gap), n, s) ==>
      Pairs(Matched(ChainMatrix(n, gap), n, s, n)) == n - 1
  {
    hide Poor, Cheapest, ComputeIou, Associates, Gated, PairsBelow, RealPairs, IsPadded, ChainMatrix;
    hide ChainTracks, ChainDets;
    PoorGap(n, threshold, gap);
    ChainIsPadded(n, threshold, gap);
    PaddedIsGated(ChainMatrix(n, gap), n, threshold, ChainTracks(n, gap), ChainDets(n, gap));
    ShiftedIsCheapest(n, threshold, gap);
    DiagonalAssociates(n, threshold, gap);
    forall s | IsPermutation(s, n) && Cheapest(ChainMatrix(n, gap), n, s)
      ensures Pairs(Matched(ChainMatrix(n, gap), n, s, n)) == n - 1
    {
      CheapestMissesOne(n, threshold, gap, s);
      assert RealPairs(ChainMatrix(n, gap), n, s)[..n] == RealPairs(ChainMatrix(n, gap), n, s);
    }
  }

  /** There are n tracks and n detections whose association is never the best, whichever cheapest
      permutation is found. */
  ghost predicate AlwaysDefeated(n: nat, threshold: real) {
    exists tracks, dets :: |tracks| == |dets| == n && Defeats(threshold, tracks, dets)
  }

  ghost predicate Defeats(threshold: real, tracks: seq<Detection>, dets: seq<Detection>) {
    && (exists a :: Solved(threshold, tracks, dets, a))
    && forall a :: Solved(threshold, tracks, dets, a) ==> !Best(threshold, tracks, dets, a)
  }

  /** What a frame associates of a chain. */
  lemma SolvedChain(n: nat, threshold: real, gap: real, a: seq<int>)
    requires Poor(n, threshold, gap) && n > 2 && Solved(threshold, ChainTracks(n, gap), ChainDets(n, gap), a)
    ensures Pairs(a) == n - 1 && !Best(threshold, ChainTracks(n, gap), ChainDets(n, gap), a)
  {
    hide Poor, Cheapest, ComputeIou, Associates, Pairs, Matched;
    PoorGap(n, threshold, gap);
    var tracks, dets := ChainTracks(n, gap), ChainDets(n, gap);
    var m, s :| SolvedBy(threshold, tracks, dets, a, m, s);
    ChainDefeats(n, threshold, gap);
    SameMatrix(m, ChainMatrix(n, gap), n, threshold, tracks, dets);
  }

  /** The padded matrix is determined by tracks and detections. */
  lemma SameMatrix(m: Matrix, m': Matrix, n: nat, threshold: real, tracks: seq<Detection>, dets: seq<Detection>)
    requires IsPadded(m, n, threshold, tracks, dets) && IsPadded(m', n, threshold, tracks, dets)
    ensures m == m'
  {
    forall k | 0 <= k < n
      ensures m[k] == m'[k]
    {
      assert forall d :: 0 <= d < n ==> m[k][d] == PairCost(threshold, tracks, dets, k, d) == m'[k][d];
    }
  }

  /** A frame in which n coasting tracks and n detections form such a chain starts a track although
      every detection could have been given one. */
  lemma ChainFrameMisses<K>(cfg: Config, mo: Motion<K>, before: map<nat, Track<K>>, next: nat, dt: real, now: real,
                            ids: seq<nat>, a: seq<int>, mid: map<nat, Track<K>>, after: map<nat, Track<K>>, next': nat,
                            n: nat, gap: real)
    requires Poor(n, cfg.iouThreshold, gap) && n > 2
    requires Frame(cfg, mo, before, next, ChainDets(n, gap), dt, now, ids, a, mid, after, next')
    requires Boxes(Coasted(mo, before, dt), ids) == ChainTracks(n, gap)
    ensures Pairs(a) == n - 1 && next' == next + 1
  {
    hide Poor, Solved, Absorbed, Pairs, ComputeIou;
    SolvedChain(n, cfg.iouThreshold, gap, a);
    assert a[..n] == a;
  }

  lemma ChainIsDefeated(n: nat, threshold: real, gap: real)
    requires Poor(n, threshold, gap) && n > 2
    ensures AlwaysDefeated(n, threshold)
  {
    hide Poor, Cheapest, Best, Solved, IsPadded;
    PoorGap(n, threshold, gap);
    var tracks, dets := ChainTracks(n, gap), ChainDets(n, gap);
    ChainDefeats(n, threshold, gap);
    SolvesIt(threshold, tracks, dets, n, ChainMatrix(n, gap), Shifted(n));
    forall a | Solved(threshold, tracks, dets, a)
      ensures !Best(threshold, tracks, dets, a)
    {
      SolvedChain(n, threshold, gap, a);
    }
    assert Defeats(threshold, tracks, dets);
  }

  // ------------------------------------------------------------- the exact bound

  /** A gap just below the one at which neighbours overlap by the threshold. */
  lemma ChooseGap(n: nat, threshold: real) returns (gap: real)
    requires threshold >= 0.0 && Times(n, 1.0 - threshold) > INFEASIBLE
    ensures Poor(n, threshold, gap) && n > 2
  {
    var room, excess := 1.0 - threshold, Times(n, 1.0 - threshold) - INFEASIBLE;
    FactorSign(room, n as real);
    ProductSign(n as real, threshold);
    var half, small := room / 2.0, excess / (2.0 * n as real);
    SmallShare(n, excess, small);
    var d := Min(half, small);
    gap := (room - d) / (1.0 + threshold);
    GapBounds(threshold, room, d, gap);
    CostBound(n, threshold, room, excess, d, gap);
  }

  lemma SmallShare(n: nat, excess: real, small: real)
    requires n > 0 && excess > 0.0 && small == excess / (2.0 * n as real)
    ensures small > 0.0 && n as real * small == excess / 2.0
  {
    assert small * (2.0 * n as real) == excess;
    FactorSign(small, 2.0 * n as real);
  }

  lemma GapBounds(threshold: real, room: real, d: real, gap: real)
    requires 0.0 <= threshold && room == 1.0 - threshold && 0.0 < d <= room / 2.0
    requires gap == (room - d) / (1.0 + threshold)
    ensures gap + threshold * gap == room - d && 0.0 < gap < 1.0
    ensures 1.0 - gap > threshold * (1.0 + gap) && 1.0 - 2.0 * gap <= threshold * (1.0 + 2.0 * gap)
  {
    assert gap * (1.0 + threshold) == room - d;
    FactorSign(gap, 1.0 + threshold);
    ProductSign(threshold, gap);
  }

  /** n neighbours cost more than one infeasible cell. */
  lemma CostBound(n: nat, threshold: real, room: real, excess: real, d: real, gap: real)
    requires n > 0 && 0.0 <= threshold && room == 1.0 - threshold && 0.0 < d && 0.0 < gap
    requires excess == n as real * room - INFEASIBLE && excess > 0.0 && n as real * d <= excess / 2.0
    requires gap + threshold * gap == room - d
    ensures Times(n, NeighbourCost(gap)) > INFEASIBLE
  {
    var w := room - d;
    assert n as real * w == n as real * room - n as real * d;
    var x := 2.0 * n as real * gap - INFEASIBLE * (1.0 + gap);
    assert x * (1.0 + threshold) == 2.0 * n as real * w - INFEASIBLE * (1.0 + threshold) - INFEASIBLE * w by {
      Spread(n as real, threshold, gap, w);
    }
    PositiveFactor(x, 1.0 + threshold);
    var c := NeighbourCost(gap);
    assert c * (1.0 + gap) == 2.0 * gap by { Complement(gap); }
    assert (n as real * c - INFEASIBLE) * (1.0 + gap) == x by { Scale(n as real, c, 1.0 + gap, 2.0 * gap); }
    PositiveFactor(n as real * c - INFEASIBLE, 1.0 + gap);
  }

  lemma Complement(gap: real)
    requires gap > 0.0
    ensures NeighbourCost(gap) * (1.0 + gap) == 2.0 * gap
  {
    var q := (1.0 - gap) / (1.0 + gap);
    assert q * (1.0 + gap) == 1.0 - gap;
  }

  lemma Scale(n: real, c: real, a: real, b: real)
    requires c * a == b
    ensures n * c * a == n * b
  {
    assert n * c * a == n * (c * a);
  }

  lemma Spread(n: real, threshold: real, gap: real, w: real)
    requires gap + threshold * gap == w
    ensures (2.0 * n * gap) * (1.0 + threshold) == 2.0 * n * w
    ensures (1.0 + gap) * (1.0 + threshold) == 1.0 + threshold + w
  {
    assert n * gap * (1.0 + threshold) == n * (gap * (1.0 + threshold));
  }

  lemma PositiveFactor(a: real, b: real)
    requires a * b > 0.0 && b > 0.0
    ensures a > 0.0
  {
  }

  /** The association is always the best one exactly when one infeasible cell outweighs n pairs at
      the threshold, or the threshold is negative. Otherwise it misses the best for some boxes,
      whichever of the cheapest permutations is found. */
  lemma AssociationSoundExactly(n: nat, threshold: real)
    ensures AssociationSound(n, threshold) <==> threshold < 0.0 || n as real * (1.0 - threshold) <= 1000000.0
    ensures AlwaysDefeated(n, threshold) <==> threshold >= 0.0 && n as real * (1.0 - threshold) > 1000000.0
  {
    assert Outweighed(n, threshold) <==> threshold < 0.0 || n as real * (1.0 - threshold) <= 1000000.0;
    hide Best, Solved, Times, Outweighed;
    if Outweighed(n, threshold) {
      forall tracks, dets, a |
        n == (if |tracks| < |dets| then |dets| else |tracks|) && Solved(threshold, tracks, dets, a)
        ensures Best(threshold, tracks, dets, a)
      {
        SolvedAssociationIsBest(threshold, tracks, dets, a);
      }
    } else {
      var gap := ChooseGap(n, threshold);
      ChainIsDefeated(n, threshold, gap);
    }
  }
}

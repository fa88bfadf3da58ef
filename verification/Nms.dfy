/** Greedy non-maximum suppression into a bounded pool. */
module Nms {
  import opened Geometry
  import opened Pool
  import opened Selection

  ghost predicate SortedByConfidence(ds: seq<Detection>) {
    forall i, j :: 0 <= i < j < |ds| ==> ds[i].confidence >= ds[j].confidence
  }

  /** Box a suppresses box b. */
  predicate Covers(threshold: real, a: Detection, b: Detection) {
    a.classId == b.classId && ComputeIou(a.bbox, b.bbox) > threshold
  }

  /** A box is kept exactly when no kept box before it covers it. */
  ghost predicate IsGreedy(threshold: real, ds: seq<Detection>, kept: seq<bool>) {
    && |kept| == |ds|
    && forall k :: 0 <= k < |ds| ==>
         (kept[k] <==> forall m :: 0 <= m < k && kept[m] ==> !Covers(threshold, ds[m], ds[k]))
  }

  ghost function Kept(threshold: real, ds: seq<Detection>): (kept: seq<bool>)
    ensures |kept| == |ds| && IsGreedy(threshold, ds, kept)
  {
    if ds == [] then []
    else
      var n := |ds| - 1;
      var earlier := Kept(threshold, ds[..n]);
      assert forall k :: 0 <= k < n ==> ds[..n][k] == ds[k];
      earlier + [forall m :: 0 <= m < n && earlier[m] ==> !Covers(threshold, ds[m], ds[n])]
  }

  /** There is only one greedy choice. */
  lemma {:induction false} GreedyIsUnique(threshold: real, ds: seq<Detection>, kept: seq<bool>, k: nat)
    requires IsGreedy(threshold, ds, kept) && k < |ds|
    ensures kept[k] == Kept(threshold, ds)[k]
  {
    hide Covers, Kept;
    forall m | 0 <= m < k
      ensures kept[m] == Kept(threshold, ds)[m]
    {
      GreedyIsUnique(threshold, ds, kept, m);
    }
  }

  ghost function Greedy(threshold: real, ds: seq<Detection>): seq<Detection> {
    Select(ds, Kept(threshold, ds))
  }

  ghost function Take<T>(s: seq<T>, n: nat): seq<T> { if |s| <= n then s else s[..n] }

  lemma GreedyPlaces(threshold: real, ds: seq<Detection>) returns (at: seq<nat>)
    ensures var g := Greedy(threshold, ds);
            && |at| == |g|
            && (forall k :: 0 <= k < |at| ==> at[k] < |ds| && g[k] == ds[at[k]])
            && (forall i, j :: 0 <= i < j < |at| ==> at[i] < at[j])
            && (forall i, j :: 0 <= i < j < |g| ==> !Covers(threshold, g[i], g[j]))
            && (forall k :: 0 <= k < |ds| && k !in at ==>
                  exists i :: 0 <= i < |at| && at[i] < k && Covers(threshold, g[i], ds[k]))
            && (SortedByConfidence(ds) ==> SortedByConfidence(g))
  {
    hide ComputeIou;
    var kept := Kept(threshold, ds);
    at := Positions(kept);
    PositionsSelect(ds, kept);
    forall k | 0 <= k < |ds| && k !in at
      ensures exists i :: 0 <= i < |at| && at[i] < k && Covers(threshold, Greedy(threshold, ds)[i], ds[k])
    {
      if kept[k] { EveryFlagHasAPosition(kept, k); }
      var m :| 0 <= m < k && kept[m] && Covers(threshold, ds[m], ds[k]);
      EveryFlagHasAPosition(kept, m);
      var i :| 0 <= i < |at| && at[i] == m;
    }
  }

  /** Where the kept boxes come from, why the others were dropped and that no kept one covers another:
      only the class and the overlap decide. */
  lemma GreedyExplained(threshold: real, ds: seq<Detection>) returns (at: seq<nat>)
    ensures var g := Greedy(threshold, ds);
            && |at| == |g|
            && (forall k :: 0 <= k < |at| ==> at[k] < |ds| && g[k] == ds[at[k]])
            && (forall i, j :: 0 <= i < j < |at| ==> at[i] < at[j])
            && (forall i, j :: 0 <= i < j < |g| && g[i].classId == g[j].classId ==>
                  ComputeIou(g[i].bbox, g[j].bbox) <= threshold)
            && (forall k :: 0 <= k < |ds| && k !in at ==>
                  exists i :: 0 <= i < |at| && at[i] < k && g[i].classId == ds[k].classId &&
                              ComputeIou(g[i].bbox, ds[k].bbox) > threshold)
            && (SortedByConfidence(ds) ==> SortedByConfidence(g))
  {
    hide ComputeIou, Greedy, SortedByConfidence;
    at := GreedyPlaces(threshold, ds);
    var g := Greedy(threshold, ds);
    forall i, j | 0 <= i < j < |g| && g[i].classId == g[j].classId
      ensures ComputeIou(g[i].bbox, g[j].bbox) <= threshold
    {
      assert !Covers(threshold, g[i], g[j]);
    }
  }

  lemma {:induction false} SelectAll<T>(s: seq<T>, flags: seq<bool>)
    requires |s| == |flags| && forall k :: 0 <= k < |flags| ==> flags[k]
    ensures Select(s, flags) == s
  {
    if s == [] {
    } else {
      SelectAll(s[..|s| - 1], flags[..|s| - 1]);
    }
  }

  /** Suppressing what has been suppressed changes nothing. */
  lemma GreedyIdempotent(threshold: real, ds: seq<Detection>)
    ensures Greedy(threshold, Greedy(threshold, ds)) == Greedy(threshold, ds)
  {
    hide ComputeIou;
    var g := Greedy(threshold, ds);
    var at := GreedyPlaces(threshold, ds);
    SelectAll(g, Kept(threshold, g));
  }

  // ------------------------------------------------------------ class by class

  /** The boxes of one class, in order. */
  ghost function OfClass(ds: seq<Detection>, c: int): (r: seq<Detection>)
    ensures forall d :: d in r <==> d in ds && d.classId == c
  {
    if ds == [] then []
    else
      var n := |ds| - 1;
      assert ds == ds[..n] + [ds[n]];
      OfClass(ds[..n], c) + if ds[n].classId == c then [ds[n]] else []
  }

  ghost predicate CoveredBy(threshold: real, kept: seq<Detection>, x: Detection) {
    exists d :: d in kept && Covers(threshold, d, x)
  }

  lemma {:induction false} SelectMembers<T>(s: seq<T>, flags: seq<bool>, x: T)
    requires |s| == |flags|
    ensures x in Select(s, flags) <==> exists m :: 0 <= m < |s| && flags[m] && s[m] == x
  {
    if s == [] {
    } else {
      var n := |s| - 1;
      SelectMembers(s[..n], flags[..n], x);
      assert forall m :: 0 <= m < n ==> s[..n][m] == s[m] && flags[..n][m] == flags[m];
    }
  }

  /** The last box is added unless a kept one covers it. */
  lemma GreedyStep(threshold: real, ds: seq<Detection>)
    requires ds != []
    ensures var n := |ds| - 1;
            var earlier := Greedy(threshold, ds[..n]);
            Greedy(threshold, ds) == if CoveredBy(threshold, earlier, ds[n]) then earlier else earlier + [ds[n]]
  {
    hide Covers;
    var n := |ds| - 1;
    var flags := Kept(threshold, ds[..n]);
    var earlier := Greedy(threshold, ds[..n]);
    assert Kept(threshold, ds)[..n] == flags;
    if d :| d in earlier && Covers(threshold, d, ds[n]) {
      SelectMembers(ds[..n], flags, d);
    }
    if m :| 0 <= m < n && flags[m] && Covers(threshold, ds[m], ds[n]) {
      SelectMembers(ds[..n], flags, ds[m]);
      assert ds[..n][m] == ds[m];
    }
  }

  /** Boxes of different classes never affect each other: suppressing all of them and looking at
      one class is suppressing that class alone. */
  lemma {:induction false} ClassesAreIndependent(threshold: real, ds: seq<Detection>, c: int)
    ensures OfClass(Greedy(threshold, ds), c) == Greedy(threshold, OfClass(ds, c))
  {
    hide ComputeIou, Greedy;
    if ds == [] {
      GreedyOfNone(threshold);
    } else {
      var n := |ds| - 1;
      var x, earlier := ds[n], Greedy(threshold, ds[..n]);
      var own := OfClass(ds[..n], c);
      ClassesAreIndependent(threshold, ds[..n], c);
      GreedyStep(threshold, ds);
      hide OfClass;
      assert ds == ds[..n] + [x];
      OfClassSnoc(ds[..n], x, c);
      OfClassSnoc(earlier, x, c);
      if x.classId == c {
        GreedySnoc(threshold, own, x);
      }
    }
  }

  lemma GreedySnoc(threshold: real, ds: seq<Detection>, x: Detection)
    ensures var kept := Greedy(threshold, ds);
            Greedy(threshold, ds + [x]) == if CoveredBy(threshold, kept, x) then kept else kept + [x]
  {
    hide Greedy, CoveredBy;
    assert (ds + [x])[..|ds|] == ds;
    GreedyStep(threshold, ds + [x]);
  }

  lemma GreedyOfNone(threshold: real)
    ensures Greedy(threshold, []) == []
  {
  }

  lemma OfClassSnoc(ds: seq<Detection>, x: Detection, c: int)
    ensures OfClass(ds + [x], c) == if x.classId == c then OfClass(ds, c) + [x] else OfClass(ds, c)
  {
    assert (ds + [x])[..|ds|] == ds;
  }

  lemma InsertedSameElements(r: seq<Detection>, k: nat, x: Detection)
    requires k <= |r|
    ensures multiset(r[..k] + [x] + r[k..]) == multiset(r) + multiset{x}
  {
    assert r == r[..k] + r[k..];
  }

  lemma InsertedInOrder(r: seq<Detection>, k: nat, x: Detection)
    requires SortedByConfidence(r) && k <= |r|
    requires k > 0 ==> r[k - 1].confidence >= x.confidence
    requires k < |r| ==> r[k].confidence <= x.confidence
    ensures SortedByConfidence(r[..k] + [x] + r[k..])
  {
    forall i | 0 <= i < k
      ensures r[i].confidence >= x.confidence
    {
      assert i == k - 1 || r[i].confidence >= r[k - 1].confidence;
    }
    forall j | k <= j < |r|
      ensures r[j].confidence <= x.confidence
    {
      assert j == k || r[k].confidence >= r[j].confidence;
    }
  }

  /** std::sort is only asked for a sorted permutation; ties may fall either way. */
  method SortByConfidence(ds: seq<Detection>) returns (r: seq<Detection>)
    ensures SortedByConfidence(r) && multiset(r) == multiset(ds)
  {
    r := [];
    for i := 0 to |ds|
      invariant SortedByConfidence(r) && multiset(r) == multiset(ds[..i])
    {
      hide SortedByConfidence;
      var k := |r|;
      while k > 0 && r[k - 1].confidence < ds[i].confidence
        invariant 0 <= k <= |r| && (k < |r| ==> r[k].confidence < ds[i].confidence)
      {
        k := k - 1;
      }
      assert ds[..i + 1] == ds[..i] + [ds[i]];
      InsertedInOrder(r, k, ds[i]);
      InsertedSameElements(r, k, ds[i]);
      r := r[..k] + [ds[i]] + r[k..];
    }
    assert ds[..|ds|] == ds;
  }

  class Suppressor {
    const threshold: real
    var suppressed: seq<bool>

    constructor (threshold: real)
      ensures this.threshold == threshold
    {
      this.threshold := threshold;
      suppressed := [];
    }

    /** Keeps the greedy choice, as far as the pool reaches. */
    method ApplyNms(detections: seq<Detection>, out: ObjectPool<Detection>) returns (sorted: seq<Detection>)
      requires out.Valid()
      modifies this`suppressed, out
      ensures out.Valid()
      ensures SortedByConfidence(sorted) && multiset(sorted) == multiset(detections)
      ensures out.slots == Take(old(out.slots) + Greedy(threshold, sorted), out.capacity)
    {
      hide ComputeIou, Kept, Select, CoveredBefore, IsGreedy;
      sorted := SortByConfidence(detections);
      ghost var kept := Kept(threshold, sorted);
      ghost var base := out.slots;
      SelectPrefix(sorted, kept, 0);
      NothingCovered(threshold, sorted, kept);
      if |sorted| == 0 {
        return;
      }
      suppressed := seq(|sorted|, _ => false);
      for i := 0 to |sorted|
        invariant out.Valid() && |suppressed| == |sorted|
        invariant out.slots == base + Select(sorted[..i], kept[..i])
        invariant forall j :: i <= j < |sorted| ==> suppressed[j] == CoveredBefore(threshold, sorted, kept, i, j)
      {
        SelectStep(sorted, kept, i);
        SelectPrefix(sorted, kept, i + 1);
        KeptUnlessCovered(threshold, sorted, i);
        CoveredGrows(threshold, sorted, kept, i);
        if suppressed[i] { continue; }
        var ok := out.Acquire(sorted[i]);
        if !ok {
          return;
        }
        SuppressFrom(sorted, i);
      }
      assert sorted[..|sorted|] == sorted && kept[..|sorted|] == kept;
    }

    /** Flags every later box that box i covers. */
    method SuppressFrom(sorted: seq<Detection>, i: nat)
      requires |suppressed| == |sorted| && i < |sorted|
      modifies this`suppressed
      ensures |suppressed| == |sorted|
      ensures forall k :: i < k < |sorted| ==>
        suppressed[k] == (old(suppressed)[k] || Covers(threshold, sorted[i], sorted[k]))
    {
      hide ComputeIou;
      ghost var before := suppressed;
      for j := i + 1 to |sorted|
        invariant |suppressed| == |sorted|
        invariant forall k :: i < k < |sorted| ==>
          suppressed[k] == (before[k] || (k < j && Covers(threshold, sorted[i], sorted[k])))
      {
        if suppressed[j] { continue; }
        if sorted[i].classId != sorted[j].classId { continue; }
        var iou := ComputeIou(sorted[i].bbox, sorted[j].bbox);
        if iou > threshold {
          suppressed := suppressed[j := true];
        }
      }
    }
  }

  /** Some kept box before place i covers box j. */
  ghost predicate CoveredBefore(threshold: real, ds: seq<Detection>, kept: seq<bool>, i: nat, j: nat)
    requires i <= |ds| == |kept| && j < |ds|
  {
    exists m :: 0 <= m < i && kept[m] && Covers(threshold, ds[m], ds[j])
  }

  lemma NothingCovered(threshold: real, ds: seq<Detection>, kept: seq<bool>)
    requires |ds| == |kept|
    ensures forall j :: 0 <= j < |ds| ==> !CoveredBefore(threshold, ds, kept, 0, j)
  {
  }

  lemma KeptUnlessCovered(threshold: real, ds: seq<Detection>, i: nat)
    requires i < |ds|
    ensures Kept(threshold, ds)[i] == !CoveredBefore(threshold, ds, Kept(threshold, ds), i, i)
  {
  }

  lemma CoveredGrows(threshold: real, ds: seq<Detection>, kept: seq<bool>, i: nat)
    requires i < |ds| == |kept|
    ensures forall j :: 0 <= j < |ds| ==>
      CoveredBefore(threshold, ds, kept, i + 1, j) ==
        (CoveredBefore(threshold, ds, kept, i, j) || (kept[i] && Covers(threshold, ds[i], ds[j])))
  {
    hide ComputeIou;
    forall j | 0 <= j < |ds|
      ensures CoveredBefore(threshold, ds, kept, i + 1, j) ==
        (CoveredBefore(threshold, ds, kept, i, j) || (kept[i] && Covers(threshold, ds[i], ds[j])))
    {
    }
  }

  lemma SelectStep<T>(s: seq<T>, flags: seq<bool>, i: nat)
    requires i < |s| == |flags|
    ensures Select(s[..i + 1], flags[..i + 1]) == Select(s[..i], flags[..i]) + if flags[i] then [s[i]] else []
  {
    assert s[..i + 1][..i] == s[..i] && flags[..i + 1][..i] == flags[..i];
  }

  lemma {:induction false} SelectPrefix<T>(s: seq<T>, flags: seq<bool>, i: nat)
    requires i <= |s| == |flags|
    ensures Select(s[..i], flags[..i]) <= Select(s, flags)
    ensures i == 0 ==> Select(s[..i], flags[..i]) == []
    ensures i == |s| ==> Select(s[..i], flags[..i]) == Select(s, flags)
    decreases |s| - i
  {
    if i < |s| {
      SelectStep(s, flags, i);
      SelectPrefix(s, flags, i + 1);
    } else {
      assert s[..i] == s && flags[..i] == flags;
    }
  }
}

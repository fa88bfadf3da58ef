/**
  Why padding a gated association problem to a square with a huge cost is sound:
  a cheapest permutation of the padded matrix has, as its real pairs, as many
  pairs as possible and among those the greatest total score, as long as one
  infeasible cell outweighs all the real pairs.
 */
module Padding {
  import opened Permutations
  import opened Products
  import opened Assignment

  /** The cost of gated-out pairs and of padding cells. */
  const INFEASIBLE: real := 1000000.0

  /** Every cell is either infeasible or one minus a score between 0 and 1. */
  ghost predicate Gated(m: Matrix, n: nat) {
    && Square(m, n)
    && forall r, j :: 0 <= r < n && 0 <= j < n ==> m[r][j] == INFEASIBLE || 0.0 <= m[r][j] <= 1.0
  }

  /** t[j] is the row given to column j, or -1; rows are given once. */
  ghost predicate Partial(t: seq<int>, n: nat) {
    && |t| <= n && InRange(t, -1, n)
    && forall i, j :: 0 <= i < j < |t| && t[i] >= 0 ==> t[i] != t[j]
  }

  /** Only feasible pairs are used. */
  ghost predicate Admissible(m: Matrix, n: nat, t: seq<int>) {
    && Square(m, n) && Partial(t, n)
    && forall j :: 0 <= j < |t| && t[j] >= 0 ==> m[t[j]][j] < INFEASIBLE
  }

  ghost function Pairs(t: seq<int>): nat {
    if t == [] then 0 else Pairs(t[..|t| - 1]) + if t[|t| - 1] >= 0 then 1 else 0
  }

  ghost function Score(m: Matrix, n: nat, t: seq<int>): real
    requires Square(m, n) && |t| <= n && InRange(t, -1, n)
  {
    if t == [] then 0.0
    else Score(m, n, t[..|t| - 1]) + if t[|t| - 1] >= 0 then 1.0 - m[t[|t| - 1]][|t| - 1] else 0.0
  }

  ghost function IndexOf(t: seq<int>, r: int): (i: int)
    requires r in t
    ensures 0 <= i < |t| && t[i] == r
  {
    var i :| 0 <= i < |t| && t[i] == r;
    i
  }

  /** A column without a row leaves some row without a column. */
  lemma FreeRow(t: seq<int>, n: nat, j: int) returns (r: int)
    requires Partial(t, n) && |t| == n && 0 <= j < n && t[j] < 0
    ensures 0 <= r < n && r !in t
  {
    if q :| 0 <= q < n && q !in t {
      r := q;
    } else {
      r := 0;
      var s := seq(n, q requires 0 <= q < n => IndexOf(t, q));
      Pigeonhole(s + [j], 0, n);
    }
  }

  ghost function Gaps(t: seq<int>): set<int> {
    set j | 0 <= j < |t| && t[j] < 0
  }

  /** Every partial assignment extends to a permutation. */
  lemma {:induction false} Complete(t: seq<int>, n: nat) returns (s: seq<int>)
    requires Partial(t, n) && |t| == n
    ensures IsPermutation(s, n)
    ensures forall j :: 0 <= j < n && t[j] >= 0 ==> s[j] == t[j]
    decreases Gaps(t)
  {
    if j :| 0 <= j < n && t[j] < 0 {
      var r := FreeRow(t, n, j);
      var t' := t[j := r];
      assert j in Gaps(t) && j !in Gaps(t');
      s := Complete(t', n);
    } else {
      s := t;
    }
  }

  /** The real pairs of a permutation. */
  ghost function RealPairs(m: Matrix, n: nat, s: seq<int>): (t: seq<int>)
    requires Square(m, n) && |s| <= n && InRange(s, 0, n)
    ensures |t| == |s| && InRange(t, -1, n)
  {
    seq(|s|, j requires 0 <= j < |s| => if m[s[j]][j] < INFEASIBLE then s[j] else -1)
  }

  lemma RealPairsAdmissible(m: Matrix, n: nat, s: seq<int>)
    requires Square(m, n) && IsPermutation(s, n)
    ensures Admissible(m, n, RealPairs(m, n, s))
  {
  }

  /** The cost of a pairs out of n whose scores add up to `score`. */
  function PaddedCost(n: nat, a: nat, score: real): real { a as real - score + (n - a) as real * INFEASIBLE }

  /** Pair count and score determine the cost of a permutation... */
  lemma {:induction false} CostOfPermutation(m: Matrix, n: nat, s: seq<int>)
    requires Gated(m, n) && |s| <= n && InRange(s, 0, n)
    ensures var t := RealPairs(m, n, s);
            Pairs(t) <= |s| && Total(m, n, s) == PaddedCost(|s|, Pairs(t), Score(m, n, t))
  {
    if s == [] {
    } else {
      var k := |s| - 1;
      CostOfPermutation(m, n, s[..k]);
      assert RealPairs(m, n, s)[..k] == RealPairs(m, n, s[..k]);
    }
  }

  /** ...and bound the cost of every completion of a partial assignment. */
  lemma {:induction false} CostOfCompletion(m: Matrix, n: nat, t: seq<int>, s: seq<int>)
    requires Gated(m, n) && Admissible(m, n, t) && |s| == |t| && InRange(s, 0, n)
    requires forall j :: 0 <= j < |t| && t[j] >= 0 ==> s[j] == t[j]
    ensures Pairs(t) <= |t| && Total(m, n, s) <= PaddedCost(|s|, Pairs(t), Score(m, n, t))
  {
    if s == [] {
    } else {
      var k := |s| - 1;
      CostOfCompletion(m, n, t[..k], s[..k]);
      assert 0.0 <= m[s[k]][k] <= INFEASIBLE;
    }
  }

  lemma {:induction false} ScoreBounds(m: Matrix, n: nat, t: seq<int>)
    requires Gated(m, n) && Admissible(m, n, t)
    ensures Pairs(t) <= |t|
    ensures 0.0 <= Score(m, n, t) <= Pairs(t) as real
  {
    if t == [] {
    } else {
      var k := |t| - 1;
      ScoreBounds(m, n, t[..k]);
      assert t[k] >= 0 ==> 0.0 <= m[t[k]][k] <= 1.0;
    }
  }

  /** Every real pair costs less than c. */
  ghost predicate PairsBelow(m: Matrix, n: nat, c: real)
    requires Square(m, n)
  {
    forall r, j :: 0 <= r < n && 0 <= j < n && m[r][j] < INFEASIBLE ==> m[r][j] < c
  }

  /** k times c. */
  function Times(k: nat, c: real): real { k as real * c }

  lemma {:induction false} PairsCostBelow(m: Matrix, n: nat, c: real, t: seq<int>)
    requires Square(m, n) && Admissible(m, n, t) && PairsBelow(m, n, c)
    ensures Pairs(t) == 0 ==> Score(m, n, t) == 0.0
    ensures Pairs(t) > 0 ==> Pairs(t) as real - Score(m, n, t) < Times(Pairs(t), c)
  {
    if t == [] {
    } else {
      var k := |t| - 1;
      PairsCostBelow(m, n, c, t[..k]);
      assert t[k] >= 0 ==> m[t[k]][k] < c;
    }
  }

  /** One infeasible cell outweighs all the real pairs, so no other assignment has more pairs. */
  lemma PairsOutweigh(n: nat, c: real, a: nat, b: nat, scoreA: real, scoreB: real)
    requires a <= n && b <= n && scoreA <= a as real && scoreB <= b as real
    requires a > 0 ==> a as real - scoreA < Times(a, c)
    requires PaddedCost(n, b, scoreB) <= PaddedCost(n, a, scoreA) && Times(n, c) <= INFEASIBLE
    ensures a <= b
  {
    if a > 0 {
      TimesGrow(a, n, c, a as real - scoreA);
    }
  }

  lemma TimesGrow(a: nat, n: nat, c: real, x: real)
    requires 0 < a <= n && 0.0 <= x < Times(a, c)
    ensures x < Times(n, c)
  {
    FactorSign(c, a as real);
    ProductSign((n - a) as real, c);
    assert (n - a) as real * c == n as real * c - a as real * c;
  }

  ghost predicate Cheapest(m: Matrix, n: nat, s: seq<int>)
    requires Square(m, n) && IsPermutation(s, n)
  {
    forall s' :: IsPermutation(s', n) ==> Total(m, n, s) <= Total(m, n, s')
  }

  /** What being cheapest says of any assignment. */
  lemma CheapestAgainst(m: Matrix, n: nat, s: seq<int>, t: seq<int>)
    requires Gated(m, n) && IsPermutation(s, n) && Cheapest(m, n, s) && Admissible(m, n, t) && |t| == n
    ensures var best := RealPairs(m, n, s);
            && Pairs(best) <= n && Pairs(t) <= n
            && PaddedCost(n, Pairs(best), Score(m, n, best)) <= PaddedCost(n, Pairs(t), Score(m, n, t))
  {
    var s' := Complete(t, n);
    CostOfPermutation(m, n, s);
    CostOfCompletion(m, n, t, s');
    PairsWithin(t);
    PairsWithin(RealPairs(m, n, s));
  }

  /** No assignment has more pairs than the cheapest permutation. */
  lemma CheapestHasMostPairs(m: Matrix, n: nat, c: real, s: seq<int>, t: seq<int>)
    requires Gated(m, n) && IsPermutation(s, n) && Cheapest(m, n, s) && Admissible(m, n, t) && |t| == n
    requires PairsBelow(m, n, c) && Times(n, c) <= INFEASIBLE
    ensures Pairs(t) <= Pairs(RealPairs(m, n, s))
  {
    hide Total, Score, Cheapest, RealPairs, Times, PaddedCost;
    var best := RealPairs(m, n, s);
    CheapestAgainst(m, n, s, t);
    RealPairsAdmissible(m, n, s);
    ScoreBounds(m, n, best);
    ScoreBounds(m, n, t);
    PairsCostBelow(m, n, c, t);
    PairsOutweigh(n, c, Pairs(t), Pairs(best), Score(m, n, t), Score(m, n, best));
  }

  /** Among the assignments with as many pairs, a cheapest permutation has the greatest score. */
  lemma CheapestHasBestScore(m: Matrix, n: nat, s: seq<int>, t: seq<int>)
    requires Gated(m, n) && IsPermutation(s, n) && Cheapest(m, n, s) && Admissible(m, n, t) && |t| == n
    requires Pairs(t) == Pairs(RealPairs(m, n, s))
    ensures Score(m, n, t) <= Score(m, n, RealPairs(m, n, s))
  {
    CheapestAgainst(m, n, s, t);
  }

  /** Lexicographic optimum: no admissible assignment has more pairs, and none with as many
      pairs has a greater score. One infeasible cell must outweigh all the real pairs. */
  lemma CheapestIsLexicographic(m: Matrix, n: nat, c: real, s: seq<int>, t: seq<int>)
    requires Gated(m, n) && IsPermutation(s, n) && Cheapest(m, n, s) && Admissible(m, n, t) && |t| == n
    requires PairsBelow(m, n, c) && Times(n, c) <= INFEASIBLE
    ensures Pairs(t) <= Pairs(RealPairs(m, n, s))
    ensures Pairs(t) == Pairs(RealPairs(m, n, s)) ==> Score(m, n, t) <= Score(m, n, RealPairs(m, n, s))
  {
    CheapestHasMostPairs(m, n, c, s, t);
    if Pairs(t) == Pairs(RealPairs(m, n, s)) {
      CheapestHasBestScore(m, n, s, t);
    }
  }

  lemma {:induction false} OneMorePair(m: Matrix, n: nat, t: seq<int>, k: nat, d: nat)
    requires Square(m, n) && |t| <= n && InRange(t, -1, n) && d < |t| && t[d] < 0 && k < n
    ensures InRange(t[d := k], -1, n)
    ensures Pairs(t[d := k]) == Pairs(t) + 1 && Score(m, n, t[d := k]) == Score(m, n, t) + 1.0 - m[k][d]
  {
    var u, e := t[d := k], |t| - 1;
    if d == e {
      assert u[..e] == t[..e];
    } else {
      OneMorePair(m, n, t[..e], k, d);
      assert u[..e] == t[..e][d := k];
    }
  }

  /** Whatever the size, no feasible pair of a free row and a free column is left over. */
  lemma CheapestIsMaximal(m: Matrix, n: nat, s: seq<int>, k: nat, d: nat)
    requires Gated(m, n) && IsPermutation(s, n) && Cheapest(m, n, s)
    requires k < n && d < n && m[k][d] < INFEASIBLE && RealPairs(m, n, s)[d] < 0
    ensures k in RealPairs(m, n, s)
  {
    var best := RealPairs(m, n, s);
    RealPairsAdmissible(m, n, s);
    if k !in best {
      OneMorePair(m, n, best, k, d);
      CheapestAgainst(m, n, s, best[d := k]);
    }
  }

  lemma {:induction false} TrailingGaps(m: Matrix, n: nat, t: seq<int>, k: nat)
    requires Square(m, n) && |t| + k <= n && InRange(t, -1, n)
    ensures InRange(t + seq(k, _ => -1), -1, n)
    ensures Pairs(t + seq(k, _ => -1)) == Pairs(t)
    ensures Score(m, n, t + seq(k, _ => -1)) == Score(m, n, t)
    decreases k
  {
    var u := t + seq(k, _ => -1);
    if k == 0 {
      assert u == t;
    } else {
      TrailingGaps(m, n, t, k - 1);
      assert u[..|u| - 1] == t + seq(k - 1, _ => -1);
    }
  }

  lemma {:induction false} FullyPaired(m: Matrix, n: nat, s: seq<int>)
    requires Square(m, n) && |s| <= n && InRange(s, 0, n)
    ensures Pairs(RealPairs(m, n, s)) >= |s| ==> forall k :: 0 <= k < |s| ==> m[s[k]][k] < INFEASIBLE
  {
    if s == [] {
    } else {
      var k := |s| - 1;
      assert RealPairs(m, n, s)[..k] == RealPairs(m, n, s[..k]);
      PairsWithin(RealPairs(m, n, s[..k]));
      FullyPaired(m, n, s[..k]);
      assert forall i :: 0 <= i < k ==> s[..k][i] == s[i];
    }
  }

  lemma {:induction false} PairsWithin(t: seq<int>)
    ensures Pairs(t) <= |t|
    ensures (forall j :: 0 <= j < |t| ==> t[j] >= 0) ==> Pairs(t) == |t|
  {
    if t == [] {
    } else {
      PairsWithin(t[..|t| - 1]);
    }
  }

  lemma {:induction false} TotalAtLeast(m: Matrix, n: nat, s: seq<int>)
    requires Gated(m, n) && |s| <= n && InRange(s, 0, n)
    ensures Total(m, n, s) >= 0.0
    ensures (exists k :: 0 <= k < |s| && m[s[k]][k] >= INFEASIBLE) ==> Total(m, n, s) >= INFEASIBLE
  {
    if s == [] {
    } else {
      var k := |s| - 1;
      TotalAtLeast(m, n, s[..k]);
      assert 0.0 <= m[s[k]][k];
      if i :| 0 <= i < k && m[s[i]][i] >= INFEASIBLE {
        assert m[s[..k][i]][i] >= INFEASIBLE;
      }
    }
  }
}

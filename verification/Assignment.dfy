/**
  The tracker's optimal assignment: Kuhn-Munkres with potentials over a square,
  row-major cost matrix. Rows and columns are numbered from 1 inside the solver;
  column 0 is the virtual source.
 */
module Assignment {
  import opened Permutations
  import opened Products

  type Matrix = seq<seq<real>>

  ghost predicate Square(m: Matrix, n: nat) {
    |m| == n && forall i :: 0 <= i < n ==> |m[i]| == n
  }

  lemma RowBounds(n: nat, i: nat)
    requires i < n
    ensures 0 <= i * n && i * n + n == (i + 1) * n <= n * n
  {
    TimesMonotone(0, i, n);
    TimesMonotone(i + 1, n, n);
  }

  ghost function Row(cost: seq<real>, n: nat, i: nat): (row: seq<real>)
    requires |cost| == n * n && i < n
    ensures |row| == n
  {
    RowBounds(n, i);
    cost[i * n..i * n + n]
  }

  /** The matrix held by a row-major buffer. */
  ghost function Rows(cost: seq<real>, n: nat): (m: Matrix)
    requires |cost| == n * n
    ensures Square(m, n)
  {
    seq(n, i requires 0 <= i < n => Row(cost, n, i))
  }

  lemma CellIndex(cost: seq<real>, n: nat, i: nat, j: nat)
    requires |cost| == n * n && i < n && j < n
    ensures 0 <= i * n + j < |cost|
    ensures Rows(cost, n)[i][j] == cost[i * n + j]
  {
    RowBounds(n, i);
  }

  /** Writing one cell of the buffer writes that cell of the matrix and no other. */
  lemma RowsUpdate(cost: seq<real>, n: nat, k: nat, d: nat, x: real)
    requires |cost| == n * n && k < n && d < n
    ensures 0 <= k * n + d < |cost|
    ensures var m := Rows(cost, n);
            Rows(cost[k * n + d := x], n) == m[k := m[k][d := x]]
  {
    CellIndex(cost, n, k, d);
    var cost', m := cost[k * n + d := x], Rows(cost, n);
    forall i | 0 <= i < n
      ensures Rows(cost', n)[i] == m[k := m[k][d := x]][i]
    {
      RowBounds(n, i);
      RowBounds(n, k);
      if i < k {
        TimesMonotone(i + 1, k, n);
      } else if k < i {
        TimesMonotone(k + 1, i, n);
      }
    }
  }

  /** The cell of row r and column j, both counted from 1. */
  ghost function Cell(m: Matrix, n: nat, r: int, j: int): real
    requires Square(m, n) && 1 <= r <= n && 1 <= j <= n
  {
    m[r - 1][j - 1]
  }

  /** The cost of assigning row s[j] to column j, summed over the columns of s. */
  ghost function Total(m: Matrix, n: nat, s: seq<int>): real
    requires Square(m, n) && |s| <= n && InRange(s, 0, n)
  {
    if s == [] then 0.0
    else Total(m, n, s[..|s| - 1]) + m[s[|s| - 1]][|s| - 1]
  }

  // ------------------------------------------------------------ certificate

  /** Potentials never exceed the cost of a pair, for rows 1..k. */
  ghost predicate Feasible(m: Matrix, n: nat, u: seq<real>, v: seq<real>, k: nat)
    requires Square(m, n) && |u| == |v| == n + 1 && k <= n
  {
    forall r, j :: 1 <= r <= k && 1 <= j <= n ==> u[r] + v[j] <= Cell(m, n, r, j)
  }

  /** p[j] is the row of column j (0: none); colOf inverts it on rows 1..k.
      Column `hole` is being rewritten and carries no promise. */
  ghost predicate Matching(p: seq<int>, colOf: seq<int>, hole: int, k: nat, n: nat) {
    && k <= n && |p| == |colOf| == n + 1
    && (forall a :: 0 <= a <= n && a != hole ==> 0 <= p[a] <= k)
    && (forall a {:trigger colOf[p[a]]} :: 0 <= a <= n && a != hole && p[a] != 0 ==> colOf[p[a]] == a)
    && (forall r :: 1 <= r <= k ==> 0 <= colOf[r] <= n && colOf[r] != hole && p[colOf[r]] == r)
  }

  /** Matched pairs cost exactly their potentials. */
  ghost predicate Tight(m: Matrix, n: nat, u: seq<real>, v: seq<real>, p: seq<int>, hole: int)
    requires Square(m, n) && |u| == |v| == |p| == n + 1
  {
    forall j {:trigger Cell(m, n, p[j], j)} :: 1 <= j <= n && j != hole && 1 <= p[j] <= n ==>
      u[p[j]] + v[j] == Cell(m, n, p[j], j)
  }

  lemma SumSlice(v: seq<real>, k: nat)
    requires 1 <= k < |v|
    ensures Sum(v[1..k + 1]) == Sum(v[1..k]) + v[k]
  {
    assert v[1..k + 1] == v[1..k] + [v[k]];
    assert (v[1..k] + [v[k]])[..k - 1] == v[1..k];
  }

  /** Weak duality: feasible potentials bound the cost of every permutation. */
  lemma {:induction false} DualBelow(m: Matrix, n: nat, u: seq<real>, v: seq<real>, s: seq<int>)
    requires Square(m, n) && |u| == |v| == n + 1 && |s| <= n && InRange(s, 0, n)
    requires Feasible(m, n, u, v, n)
    ensures SumAt(u[1..], s) + Sum(v[1..|s| + 1]) <= Total(m, n, s)
  {
    if s == [] {
    } else {
      var t := s[..|s| - 1];
      DualBelow(m, n, u, v, t);
      var r, j := s[|s| - 1] + 1, |s|;
      assert u[r] + v[j] <= Cell(m, n, r, j);
      SumSlice(v, |s|);
    }
  }

  /** Tight potentials meet that bound. */
  lemma {:induction false} DualEqual(m: Matrix, n: nat, u: seq<real>, v: seq<real>, s: seq<int>)
    requires Square(m, n) && |u| == |v| == n + 1 && |s| <= n && InRange(s, 0, n)
    requires forall j :: 0 <= j < |s| ==> u[s[j] + 1] + v[j + 1] == m[s[j]][j]
    ensures SumAt(u[1..], s) + Sum(v[1..|s| + 1]) == Total(m, n, s)
  {
    if s == [] {
    } else {
      var t := s[..|s| - 1];
      assert forall j :: 0 <= j < |t| ==> t[j] == s[j];
      DualEqual(m, n, u, v, t);
      SumSlice(v, |s|);
    }
  }

  lemma SumTail(f: seq<real>)
    requires |f| > 0
    ensures Sum(f) == f[0] + Sum(f[1..])
    decreases |f|
  {
    if |f| == 1 {
      assert f[..0] == [] && f[1..] == [];
    } else {
      SumTail(f[..|f| - 1]);
      assert f[..|f| - 1][1..] == f[1..][..|f| - 2];
    }
  }

  /** A complete tight matching under feasible potentials is a cheapest
      permutation, and its cost is the negated potential of the source. */
  lemma Optimal(m: Matrix, n: nat, u: seq<real>, v: seq<real>, s: seq<int>)
    requires Square(m, n) && |u| == |v| == n + 1 && IsPermutation(s, n)
    requires Feasible(m, n, u, v, n)
    requires forall j :: 0 <= j < n ==> u[s[j] + 1] + v[j + 1] == m[s[j]][j]
    requires u[0] == 0.0 && Sum(u) + Sum(v) == 0.0
    ensures Total(m, n, s) == -v[0]
    ensures forall t :: IsPermutation(t, n) ==> Total(m, n, s) <= Total(m, n, t)
  {
    SumTail(u);
    SumTail(v);
    assert v[1..n + 1] == v[1..];
    DualEqual(m, n, u, v, s);
    SumAlongPermutation(u[1..], s);
    forall t | IsPermutation(t, n)
      ensures Total(m, n, s) <= Total(m, n, t)
    {
      DualBelow(m, n, u, v, t);
      SumAlongPermutation(u[1..], t);
    }
  }
}

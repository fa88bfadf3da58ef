/** The in-place solver itself, proved against the certificate of Assignment. */
module Hungarian {
  import opened Numbers
  import opened Permutations
  import opened Assignment

  // ------------------------------------------------- the alternating tree

  /** Used columns form a tree of tight edges rooted at column 0: column j hangs
      below way[j], nearer the root by rank, through the row of that column. */
  ghost predicate Hangs(m: Matrix, n: nat, u: seq<real>, v: seq<real>, p: seq<int>,
                        way: seq<int>, used: seq<bool>, rank: seq<nat>, j: int)
    requires Square(m, n) && |u| == |v| == |p| == |way| == |used| == |rank| == n + 1
    requires 1 <= j <= n
  {
    && 0 <= way[j] <= n && used[way[j]] && rank[way[j]] < rank[j]
    && 1 <= p[way[j]] <= n
    && u[p[way[j]]] + v[j] == Cell(m, n, p[way[j]], j)
  }

  /** Used columns carry rows. */
  ghost predicate Occupied(n: nat, p: seq<int>, used: seq<bool>)
    requires |p| == |used| == n + 1
  {
    forall k {:trigger p[k]} :: 0 <= k <= n && used[k] ==> 1 <= p[k] <= n
  }

  ghost predicate Tree(m: Matrix, n: nat, u: seq<real>, v: seq<real>, p: seq<int>,
                       way: seq<int>, used: seq<bool>, rank: seq<nat>)
    requires Square(m, n) && |u| == |v| == |p| == |way| == |used| == |rank| == n + 1
  {
    && Occupied(n, p, used)
    // instantiated by Hangs only: used[way[j]] would climb the tree for ever
    && (forall j {:trigger Hangs(m, n, u, v, p, way, used, rank, j)} ::
          1 <= j <= n && used[j] ==> Hangs(m, n, u, v, p, way, used, rank, j))
  }

  /** `slack` is the least reduced cost from a used column's row to column j, and
      `parent` is a column that attains it. */
  ghost predicate LeastSlack(m: Matrix, n: nat, u: seq<real>, v: seq<real>, p: seq<int>,
                             used: seq<bool>, slack: Extended, parent: int, j: int)
    requires Square(m, n) && |u| == |v| == |p| == |used| == n + 1
    requires 1 <= j <= n
    requires Occupied(n, p, used)
  {
    && slack.Fin?
    && 0 <= parent <= n && used[parent]
    && slack.r == Cell(m, n, p[parent], j) - u[p[parent]] - v[j]
    && forall k {:trigger Cell(m, n, p[k], j)} :: 0 <= k <= n && used[k] ==>
         slack.r <= Cell(m, n, p[k], j) - u[p[k]] - v[j]
  }

  ghost predicate Slacks(m: Matrix, n: nat, u: seq<real>, v: seq<real>, p: seq<int>,
                         way: seq<int>, used: seq<bool>, minv: seq<Extended>)
    requires Square(m, n) && |u| == |v| == |p| == |way| == |used| == |minv| == n + 1
    requires Occupied(n, p, used)
  {
    forall j {:trigger minv[j]} :: 1 <= j <= n && !used[j] ==>
      if used[0] then LeastSlack(m, n, u, v, p, used, minv[j], way[j], j) else minv[j] == Inf
  }

  /** Offering column j the row of a newly used column j0 keeps the least slack. */
  lemma RelaxColumn(m: Matrix, n: nat, u: seq<real>, v: seq<real>, p: seq<int>,
                    before: seq<bool>, used: seq<bool>, j0: int, j: int, slack: Extended, parent: int, cur: real)
    requires Square(m, n) && |u| == |v| == |p| == |used| == n + 1
    requires 1 <= j <= n && 0 <= j0 <= n && used[j0]
    requires Occupied(n, p, used)
    requires cur == Cell(m, n, p[j0], j) - u[p[j0]] - v[j]
    requires Unvisited(n, before, j0) && used == before[j0 := true]
    requires if before[0] then LeastSlack(m, n, u, v, p, before, slack, parent, j) else slack == Inf
    ensures if Less(Fin(cur), slack) then LeastSlack(m, n, u, v, p, used, Fin(cur), j0, j)
            else LeastSlack(m, n, u, v, p, used, slack, parent, j)
  {
    assert forall k :: 0 <= k <= n && used[k] && k != j0 ==> before[k];
  }

  /** The potentials after moving them by d along the tree. */
  ghost predicate Shifted(n: nat, i: nat, colOf: seq<int>, used: seq<bool>, d: real,
                          u0: seq<real>, v0: seq<real>, u: seq<real>, v: seq<real>)
  {
    && i <= n && |u0| == |v0| == |u| == |v| == |colOf| == |used| == n + 1
    && (forall r :: 1 <= r <= i ==> 0 <= colOf[r] <= n)
    && (forall r {:trigger u[r]} :: 0 <= r <= n ==> u[r] == if 1 <= r <= i && used[colOf[r]] then u0[r] + d else u0[r])
    && (forall j :: 0 <= j <= n ==> v[j] == if used[j] then v0[j] - d else v0[j])
  }

  lemma ShiftKeepsTight(m: Matrix, n: nat, i: nat, p: seq<int>, colOf: seq<int>, used: seq<bool>, d: real,
                        u0: seq<real>, v0: seq<real>, u: seq<real>, v: seq<real>)
    requires Square(m, n) && Shifted(n, i, colOf, used, d, u0, v0, u, v)
    requires Matching(p, colOf, -1, i, n) && Tight(m, n, u0, v0, p, -1)
    ensures Tight(m, n, u, v, p, -1)
  {
    forall j | 1 <= j <= n && 1 <= p[j] <= n
      ensures u[p[j]] + v[j] == Cell(m, n, p[j], j)
    {
      assert colOf[p[j]] == j;
    }
  }

  lemma ShiftKeepsFeasible(m: Matrix, n: nat, i: nat, p: seq<int>, colOf: seq<int>, way: seq<int>,
                           used: seq<bool>, minv: seq<Extended>, d: real,
                           u0: seq<real>, v0: seq<real>, u: seq<real>, v: seq<real>)
    requires Square(m, n) && |way| == |minv| == n + 1
    requires 1 <= i <= n && Shifted(n, i, colOf, used, d, u0, v0, u, v)
    requires Matching(p, colOf, -1, i, n)
    requires Occupied(n, p, used)
    requires p[0] == i && used[0] && Slacks(m, n, u0, v0, p, way, used, minv)
    requires forall j :: 1 <= j <= n && !used[j] ==> minv[j].Fin? && d <= minv[j].r
    // before the first shift only the source is used and row i has no promise yet
    requires Feasible(m, n, u0, v0, i - 1)
    requires (forall j :: 1 <= j <= n ==> !used[j]) || (d >= 0.0 && Feasible(m, n, u0, v0, i))
    ensures Feasible(m, n, u, v, i)
  {
    forall r, j | 1 <= r <= i && 1 <= j <= n
      ensures u[r] + v[j] <= Cell(m, n, r, j)
    {
      var k := colOf[r];
      assert p[k] == r;
      if used[k] && !used[j] {
        assert LeastSlack(m, n, u0, v0, p, used, minv[j], way[j], j);
      } else if r < i {
        assert u0[r] + v0[j] <= Cell(m, n, r, j);
      } else {
        assert k == 0;
      }
    }
  }

  lemma ShiftKeepsTree(m: Matrix, n: nat, i: nat, p: seq<int>, colOf: seq<int>, way: seq<int>,
                       used: seq<bool>, rank: seq<nat>, d: real,
                       u0: seq<real>, v0: seq<real>, u: seq<real>, v: seq<real>)
    requires Square(m, n) && |p| == |way| == |rank| == n + 1
    requires Shifted(n, i, colOf, used, d, u0, v0, u, v) && Matching(p, colOf, -1, i, n)
    requires Tree(m, n, u0, v0, p, way, used, rank)
    ensures Tree(m, n, u, v, p, way, used, rank)
  {
    forall j | 1 <= j <= n && used[j]
      ensures Hangs(m, n, u, v, p, way, used, rank, j)
    {
      assert Hangs(m, n, u0, v0, p, way, used, rank, j);
      assert colOf[p[way[j]]] == way[j];
    }
  }

  lemma ShiftKeepsSlacks(m: Matrix, n: nat, i: nat, p: seq<int>, colOf: seq<int>, way: seq<int>,
                         used: seq<bool>, minv0: seq<Extended>, minv: seq<Extended>, d: real,
                         u0: seq<real>, v0: seq<real>, u: seq<real>, v: seq<real>)
    requires Square(m, n) && |way| == |minv0| == |minv| == n + 1
    requires Shifted(n, i, colOf, used, d, u0, v0, u, v) && Matching(p, colOf, -1, i, n)
    requires Occupied(n, p, used)
    requires used[0] && Slacks(m, n, u0, v0, p, way, used, minv0)
    requires forall j :: 1 <= j <= n && !used[j] ==> minv0[j].Fin? && minv[j] == Fin(minv0[j].r - d)
    ensures Slacks(m, n, u, v, p, way, used, minv)
  {
    forall j | 1 <= j <= n && !used[j]
      ensures LeastSlack(m, n, u, v, p, used, minv[j], way[j], j)
    {
      assert LeastSlack(m, n, u0, v0, p, used, minv0[j], way[j], j);
      forall k | 0 <= k <= n && used[k]
        ensures u[p[k]] == u0[p[k]] + d
      {
        assert colOf[p[k]] == k;
      }
    }
  }

  ghost function Unused(n: nat, used: seq<bool>): set<int>
    requires |used| == n + 1
  {
    set j | 0 <= j <= n && !used[j]
  }

  lemma UnusedShrinks(n: nat, used: seq<bool>, j: int)
    requires |used| == n + 1 && 0 <= j <= n && !used[j]
    ensures Unused(n, used[j := true]) < Unused(n, used)
  {
    assert j in Unused(n, used);
  }

  /** j0 is about to be used: the source first, and nothing before it. */
  ghost predicate Unvisited(n: nat, used: seq<bool>, j0: int) {
    && |used| == n + 1 && 0 <= j0 <= n && !used[j0]
    && (j0 != 0 ==> used[0])
    && (j0 == 0 ==> forall k :: 0 <= k <= n ==> !used[k])
  }

  /** If every column were used, n + 1 columns would carry distinct rows of 1..n. */
  lemma SomeColumnUnused(n: nat, i: nat, p: seq<int>, colOf: seq<int>, used: seq<bool>)
    requires |used| == n + 1 && Matching(p, colOf, -1, i, n)
    requires Occupied(n, p, used)
    requires used[0]
    ensures exists j :: 1 <= j <= n && !used[j]
  {
    if forall j :: 1 <= j <= n ==> used[j] {
      forall a, b | 0 <= a < b <= n
        ensures p[a] != p[b]
      {
        assert colOf[p[a]] == a && colOf[p[b]] == b;
      }
      Pigeonhole(p, 1, n + 1);
    }
  }

  /** Inside row i's search, column 0 and the tree below it being used: everything
      matched is tight, and once a real column is used row i is feasible too. */
  ghost predicate Searching(m: Matrix, n: nat, i: nat, u: seq<real>, v: seq<real>, p: seq<int>, colOf: seq<int>,
                            way: seq<int>, used: seq<bool>, rank: seq<nat>)
  {
    && Square(m, n) && 1 <= i <= n && |u| == |v| == |p| == |colOf| == |way| == |used| == |rank| == n + 1
    && Matching(p, colOf, -1, i, n) && p[0] == i && used[0]
    && Tight(m, n, u, v, p, -1)
    && Tree(m, n, u, v, p, way, used, rank)
    && Feasible(m, n, u, v, i - 1)
    && ((forall j :: 1 <= j <= n ==> !used[j]) || Feasible(m, n, u, v, i))
    && u[0] == 0.0 && Sum(u) + Sum(v) == 0.0
  }

  /** Column j is the next to be used: it hangs below the tree by a tight edge. */
  ghost predicate Frontier(m: Matrix, n: nat, i: nat, u: seq<real>, v: seq<real>, p: seq<int>, colOf: seq<int>,
                           way: seq<int>, used: seq<bool>, rank: seq<nat>, minv: seq<Extended>, j: int)
  {
    && Searching(m, n, i, u, v, p, colOf, way, used, rank) && |minv| == n + 1
    && Feasible(m, n, u, v, i)
    && Slacks(m, n, u, v, p, way, used, minv)
    && 1 <= j <= n && !used[j] && Hangs(m, n, u, v, p, way, used, rank, j)
  }

  lemma SearchingShape(m: Matrix, n: nat, i: nat, u: seq<real>, v: seq<real>, p: seq<int>, colOf: seq<int>,
                       way: seq<int>, used: seq<bool>, rank: seq<nat>)
    requires Searching(m, n, i, u, v, p, colOf, way, used, rank)
    ensures |u| == |v| == |p| == |colOf| == |way| == |used| == |rank| == n + 1
    ensures Matching(p, colOf, -1, i, n) && used[0] && Sum(u) + Sum(v) == 0.0
    ensures Occupied(n, p, used)
  {
  }

  lemma MarkColumn(m: Matrix, n: nat, i: nat, u: seq<real>, v: seq<real>, p: seq<int>, colOf: seq<int>,
                   way: seq<int>, used: seq<bool>, rank: seq<nat>, minv: seq<Extended>, j: int)
    requires Frontier(m, n, i, u, v, p, colOf, way, used, rank, minv, j) && p[j] != 0
    ensures Searching(m, n, i, u, v, p, colOf, way, used[j := true], rank)
  {
    var after := used[j := true];
    forall k | 1 <= k <= n && after[k]
      ensures Hangs(m, n, u, v, p, way, after, rank, k)
    {
      assert Hangs(m, n, u, v, p, way, used, rank, k);
    }
  }

  lemma RelaxKeepsSearching(m: Matrix, n: nat, i: nat, u: seq<real>, v: seq<real>, p: seq<int>, colOf: seq<int>,
                            way: seq<int>, way': seq<int>, used: seq<bool>, rank: seq<nat>)
    requires Searching(m, n, i, u, v, p, colOf, way, used, rank) && |way'| == n + 1
    requires forall j :: 0 <= j <= n && used[j] ==> way'[j] == way[j]
    ensures Searching(m, n, i, u, v, p, colOf, way', used, rank)
  {
    forall k | 1 <= k <= n && used[k]
      ensures Hangs(m, n, u, v, p, way', used, rank, k)
    {
      assert Hangs(m, n, u, v, p, way, used, rank, k);
    }
  }

  /** One shift: the chosen column becomes the next frontier. */
  lemma ShiftReachesFrontier(m: Matrix, n: nat, i: nat, p: seq<int>, colOf: seq<int>, way: seq<int>,
                             used: seq<bool>, rank: seq<nat>, j: int, d: real,
                             minv0: seq<Extended>, minv: seq<Extended>,
                             u0: seq<real>, v0: seq<real>, u: seq<real>, v: seq<real>)
    requires Searching(m, n, i, u0, v0, p, colOf, way, used, rank) && |minv0| == |minv| == n + 1
    requires Slacks(m, n, u0, v0, p, way, used, minv0)
    requires Shifted(n, i, colOf, used, d, u0, v0, u, v) && Sum(u) + Sum(v) == 0.0
    requires forall k :: 1 <= k <= n && !used[k] ==> minv0[k].Fin? && d <= minv0[k].r
    requires forall k :: 1 <= k <= n && !used[k] ==> minv[k] == Fin(minv0[k].r - d)
    requires 1 <= j <= n && !used[j] && minv0[j] == Fin(d)
    ensures |way| == |rank| == n + 1 && 0 <= way[j] <= n
    ensures Frontier(m, n, i, u, v, p, colOf, way, used, rank[j := rank[way[j]] + 1], minv, j)
  {
    assert LeastSlack(m, n, u0, v0, p, used, minv0[j], way[j], j);
    if Feasible(m, n, u0, v0, i) {
      assert d >= 0.0;
    }
    ShiftKeepsTight(m, n, i, p, colOf, used, d, u0, v0, u, v);
    ShiftKeepsFeasible(m, n, i, p, colOf, way, used, minv0, d, u0, v0, u, v);
    ShiftKeepsTree(m, n, i, p, colOf, way, used, rank, d, u0, v0, u, v);
    ShiftKeepsSlacks(m, n, i, p, colOf, way, used, minv0, minv, d, u0, v0, u, v);
    RankFrontier(m, n, p, way, used, rank, j, u, v);
    assert LeastSlack(m, n, u, v, p, used, minv[j], way[j], j);
  }

  lemma RankFrontier(m: Matrix, n: nat, p: seq<int>, way: seq<int>, used: seq<bool>, rank: seq<nat>, j: int,
                     u: seq<real>, v: seq<real>)
    requires Square(m, n) && |u| == |v| == |p| == |way| == |used| == |rank| == n + 1
    requires Tree(m, n, u, v, p, way, used, rank)
    requires 1 <= j <= n && !used[j] && 0 <= way[j] <= n
    ensures Tree(m, n, u, v, p, way, used, rank[j := rank[way[j]] + 1])
  {
    var rank' := rank[j := rank[way[j]] + 1];
    forall k | 1 <= k <= n && used[k]
      ensures Hangs(m, n, u, v, p, way, used, rank', k)
    {
      assert Hangs(m, n, u, v, p, way, used, rank, k);
    }
  }

  /** Between two rows: rows 1..k are matched, tight and feasible. */
  ghost predicate Placed(m: Matrix, n: nat, k: nat, u: seq<real>, v: seq<real>, p: seq<int>, colOf: seq<int>) {
    && Square(m, n) && k <= n && |u| == |v| == |p| == |colOf| == n + 1
    && Matching(p, colOf, 0, k, n)
    && Feasible(m, n, u, v, k)
    && Tight(m, n, u, v, p, 0)
    && u[0] == 0.0
    && Sum(u) + Sum(v) == 0.0
  }

  /** A new row enters at the source with an empty tree. */
  lemma StartSearch(m: Matrix, n: nat, i: nat, u: seq<real>, v: seq<real>, p: seq<int>, colOf: seq<int>,
                    way: seq<int>, used: seq<bool>, rank: seq<nat>, minv: seq<Extended>)
    requires 1 <= i <= n && |way| == |used| == |rank| == |minv| == n + 1
    requires Placed(m, n, i - 1, u, v, p, colOf)
    requires forall j :: 0 <= j <= n ==> !used[j] && minv[j] == Inf
    ensures Searching(m, n, i, u, v, p[0 := i], colOf[i := 0], way, used[0 := true], rank)
    ensures Slacks(m, n, u, v, p[0 := i], way, used, minv)
    ensures Unvisited(n, used, 0)
  {
    var q, c := p[0 := i], colOf[i := 0];
    assert Matching(q, c, -1, i, n);
    forall j | 1 <= j <= n && 1 <= q[j] <= n
      ensures u[q[j]] + v[j] == Cell(m, n, q[j], j)
    {
      assert q[j] == p[j];
    }
  }

  /** Moving the row of column k to column j moves the hole from j to k. */
  lemma AugmentStep(m: Matrix, n: nat, i: nat, u: seq<real>, v: seq<real>, p: seq<int>, colOf: seq<int>,
                    j: int, k: int)
    requires Square(m, n) && |u| == |v| == |p| == |colOf| == n + 1
    requires Matching(p, colOf, j, i, n) && Tight(m, n, u, v, p, j)
    requires 1 <= j <= n && 0 <= k <= n && k != j
    requires 1 <= p[k] <= n && u[p[k]] + v[j] == Cell(m, n, p[k], j)
    ensures Matching(p[j := p[k]], colOf[p[k] := j], k, i, n)
    ensures Tight(m, n, u, v, p[j := p[k]], k)
  {
    assert colOf[p[k]] == k;
    var q, c := p[j := p[k]], colOf[p[k] := j];
    forall a | 0 <= a <= n && a != k && q[a] != 0
      ensures c[q[a]] == a
    {
      if a != j { assert colOf[p[a]] == a; }
    }
    forall a | 1 <= a <= n && a != k && 1 <= q[a] <= n
      ensures u[q[a]] + v[a] == Cell(m, n, q[a], a)
    {
      if a != j { assert u[p[a]] + v[a] == Cell(m, n, p[a], a); }
    }
  }

  lemma UnvisitedIsUnused(n: nat, used: seq<bool>, j: int)
    requires Unvisited(n, used, j)
    ensures |used| == n + 1 && 0 <= j <= n && !used[j]
  {
  }

  lemma RowPlaced(m: Matrix, n: nat, i: nat, u: seq<real>, v: seq<real>, p: seq<int>, colOf: seq<int>)
    requires Square(m, n) && i <= n && |u| == |v| == |p| == |colOf| == n + 1
    requires Matching(p, colOf, 0, i, n) && Tight(m, n, u, v, p, 0)
    requires Feasible(m, n, u, v, i) && u[0] == 0.0 && Sum(u) + Sum(v) == 0.0
    ensures Placed(m, n, i, u, v, p, colOf)
  {
  }

  lemma FrontierUnvisited(m: Matrix, n: nat, i: nat, u: seq<real>, v: seq<real>, p: seq<int>, colOf: seq<int>,
                          way: seq<int>, used: seq<bool>, rank: seq<nat>, minv: seq<Extended>, j: int)
    requires Frontier(m, n, i, u, v, p, colOf, way, used, rank, minv, j)
    ensures Square(m, n) && |u| == |v| == |p| == |way| == |used| == |rank| == |minv| == n + 1
    ensures 1 <= j <= n && Unvisited(n, used, j)
    ensures Occupied(n, p, used)
    ensures Slacks(m, n, u, v, p, way, used, minv)
    ensures Matching(p, colOf, -1, i, n) && Tight(m, n, u, v, p, -1)
    ensures Tree(m, n, u, v, p, way, used, rank) && Hangs(m, n, u, v, p, way, used, rank, j)
    ensures Feasible(m, n, u, v, i) && u[0] == 0.0 && Sum(u) + Sum(v) == 0.0
  {
  }

  class AssignmentSolver {
    var cost: seq<real>
    var u: seq<real>
    var v: seq<real>
    var minv: seq<Extended>
    var p: seq<int>
    var way: seq<int>
    var used: seq<bool>
    var rowOfCol: seq<int>
    ghost var colOf: seq<int>
    ghost var rank: seq<nat>

    constructor ()
      ensures cost == [] && rowOfCol == []
    {
      cost, u, v, minv, p, way, used, rowOfCol, colOf, rank := [], [], [], [], [], [], [], [], [], [];
    }

    /** Relaxes every unused column from the row of column j0 and selects the
        unused column of least slack (0 and Inf when there is none). */
    method Relax(n: nat, j0: int, ghost before: seq<bool>, ghost m: Matrix) returns (delta: Extended, j1: int)
      requires |cost| == n * n && m == Rows(cost, n)
      requires |u| == |v| == |p| == |way| == |used| == |minv| == n + 1
      requires Unvisited(n, before, j0) && used == before[j0 := true]
      requires Occupied(n, p, used)
      requires Slacks(m, n, u, v, p, way, before, minv)
      modifies this`minv, this`way
      ensures |way| == |minv| == n + 1
      ensures forall j :: 0 <= j <= n && used[j] ==> way[j] == old(way[j])
      ensures Slacks(m, n, u, v, p, way, used, minv)
      ensures forall j :: 1 <= j <= n && !used[j] ==> delta.Fin? && minv[j].Fin? && delta.r <= minv[j].r
      ensures delta.Fin? ==> 1 <= j1 <= n && !used[j1] && minv[j1] == delta
    {
      hide LeastSlack, Rows;
      var i0 := p[j0];
      delta, j1 := Inf, 0;
      ghost var minv0, way0 := minv, way;
      for j := 1 to n + 1
        invariant |way| == |minv| == n + 1
        invariant forall k :: 0 <= k <= n && (used[k] || k >= j) ==> way[k] == way0[k] && minv[k] == minv0[k]
        invariant forall k :: 1 <= k < j && !used[k] ==> LeastSlack(m, n, u, v, p, used, minv[k], way[k], k)
        invariant forall k :: 1 <= k < j && !used[k] ==> delta.Fin? && minv[k].Fin? && delta.r <= minv[k].r
        invariant delta.Fin? ==> 1 <= j1 < j && !used[j1] && minv[j1] == delta
      {
        if used[j] { continue; }
        CellIndex(cost, n, i0 - 1, j - 1);
        var cur := cost[(i0 - 1) * n + (j - 1)] - u[i0] - v[j];
        RelaxColumn(m, n, u, v, p, before, used, j0, j, minv[j], way[j], cur);
        if Less(Fin(cur), minv[j]) {
          minv := minv[j := Fin(cur)];
          way := way[j := j0];
        }
        if Less(minv[j], delta) {
          delta := minv[j];
          j1 := j;
        }
      }
    }

    /** Moves the potentials by d along the tree and the other slacks with them. */
    method Shift(n: nat, ghost i: nat, d: real)
      requires |u| == |v| == |used| == |minv| == n + 1
      requires Matching(p, colOf, -1, i, n)
      requires Occupied(n, p, used)
      requires forall k :: 1 <= k <= n && !used[k] ==> minv[k].Fin?
      modifies this`u, this`v, this`minv
      ensures Shifted(n, i, colOf, used, d, old(u), old(v), u, v)
      ensures |minv| == n + 1
      ensures forall k :: 1 <= k <= n && !used[k] ==> minv[k] == Fin(old(minv)[k].r - d)
      ensures Sum(u) + Sum(v) == old(Sum(u) + Sum(v))
    {
      hide Sum;
      ghost var u0, v0, minv0 := u, v, minv;
      for j := 0 to n + 1
        invariant |u| == |v| == |minv| == n + 1
        invariant forall r :: 0 <= r <= n ==>
          u[r] == if 1 <= r <= i && used[colOf[r]] && colOf[r] < j then u0[r] + d else u0[r]
        invariant forall k :: 0 <= k <= n ==> v[k] == if used[k] && k < j then v0[k] - d else v0[k]
        invariant forall k :: 0 <= k <= n ==>
          minv[k] == if !used[k] && k < j && minv0[k].Fin? then Fin(minv0[k].r - d) else minv0[k]
        invariant Sum(u) + Sum(v) == Sum(u0) + Sum(v0)
      {
        if used[j] {
          ghost var was := Sum(u) + Sum(v);
          assert colOf[p[j]] == j;
          SumUpdate(u, p[j], u[p[j]] + d);
          SumUpdate(v, j, v[j] - d);
          u := u[p[j] := u[p[j]] + d];
          v := v[j := v[j] - d];
          assert Sum(u) + Sum(v) == was;
        } else if minv[j].Fin? {
          minv := minv[j := Fin(minv[j].r - d)];
        }
      }
    }

    /** Walks the parent links back to the source, moving each row one column on. */
    method Augment(n: nat, ghost i: nat, start: int, ghost m: Matrix)
      requires Square(m, n) && |u| == |v| == |p| == |way| == |used| == |rank| == n + 1
      requires 1 <= start <= n && p[start] == 0 && !used[start]
      requires Matching(p, colOf, -1, i, n)
      requires Tree(m, n, u, v, p, way, used, rank) && Tight(m, n, u, v, p, -1)
      requires Hangs(m, n, u, v, p, way, used, rank, start)
      modifies this`p, this`colOf
      ensures |p| == |colOf| == n + 1
      ensures Matching(p, colOf, 0, i, n)
      ensures Tight(m, n, u, v, p, 0)
    {
      assert Matching(p, colOf, start, i, n) && Tight(m, n, u, v, p, start);
      hide Matching, Tight;
      var j0 := start;
      ghost var p0 := p;
      while j0 != 0
        invariant 0 <= j0 <= n && |p| == |colOf| == n + 1
        invariant j0 != start ==> used[j0]
        invariant Matching(p, colOf, j0, i, n)
        invariant Tight(m, n, u, v, p, j0)
        invariant forall k :: 0 <= k <= n && used[k] && rank[k] < rank[j0] ==> p[k] == p0[k]
        decreases rank[j0]
      {
        assert Hangs(m, n, u, v, p0, way, used, rank, j0);
        AugmentStep(m, n, i, u, v, p, colOf, j0, way[j0]);
        var j1 := way[j0];
        p := p[j0 := p[j1]];
        colOf := colOf[p[j1] := j0];
        j0 := j1;
      }
    }

    /** One pass of the search: uses column j0 and picks the next frontier. */
    method Pass(n: nat, i: nat, j0: int, ghost m: Matrix) returns (j1: int)
      requires |cost| == n * n && m == Rows(cost, n)
      requires |minv| == n + 1 && Unvisited(n, used, j0)
      requires Searching(m, n, i, u, v, p, colOf, way, used[j0 := true], rank)
      requires Slacks(m, n, u, v, p, way, used, minv)
      modifies this`u, this`v, this`way, this`minv, this`used, this`rank
      ensures used == old(used)[j0 := true] && |p| == |used| == n + 1 && 1 <= j1 <= n
      ensures Frontier(m, n, i, u, v, p, colOf, way, used, rank, minv, j1)
    {
      hide *;
      UnvisitedIsUnused(n, used, j0);
      SearchingShape(m, n, i, u, v, p, colOf, way, used[j0 := true], rank);
      ghost var before, way0 := used, way;
      used := used[j0 := true];
      var delta;
      delta, j1 := Relax(n, j0, before, m);
      RelaxKeepsSearching(m, n, i, u, v, p, colOf, way0, way, used, rank);
      SomeColumnUnused(n, i, p, colOf, used);
      ghost var u0, v0, minv0 := u, v, minv;
      Shift(n, i, delta.r);
      ShiftReachesFrontier(m, n, i, p, colOf, way, used, rank, j1, delta.r, minv0, minv, u0, v0, u, v);
      rank := rank[j1 := rank[way[j1]] + 1];
    }

    /** The new row enters at column 0, with nothing reached yet. */
    method StartRow(n: nat, i: nat, ghost m: Matrix)
      requires 1 <= i <= n && |way| == n + 1 && Placed(m, n, i - 1, u, v, p, colOf)
      modifies this`p, this`minv, this`used, this`colOf, this`rank
      ensures |minv| == n + 1 && Unvisited(n, used, 0)
      ensures Searching(m, n, i, u, v, p, colOf, way, used[0 := true], rank)
      ensures Slacks(m, n, u, v, p, way, used, minv)
    {
      assert |p| == |colOf| == n + 1;
      minv := seq(n + 1, _ => Inf);
      used := seq(n + 1, _ => false);
      rank := seq(n + 1, _ => 0);
      StartSearch(m, n, i, u, v, p, colOf, way, used, rank, minv);
      hide *;
      p := p[0 := i];
      colOf := colOf[i := 0];
    }

    /** One outer iteration: row i joins the matching, earlier rows stay matched. */
    method PlaceRow(n: nat, i: nat, ghost m: Matrix)
      requires |cost| == n * n && m == Rows(cost, n) && 1 <= i <= n
      requires |way| == n + 1
      requires Placed(m, n, i - 1, u, v, p, colOf)
      modifies this`u, this`v, this`p, this`way, this`minv, this`used, this`colOf, this`rank
      ensures |way| == n + 1
      ensures Placed(m, n, i, u, v, p, colOf)
    {
      hide *;
      StartRow(n, i, m);
      var j0 := Pass(n, i, 0, m);
      while p[j0] != 0
        invariant |p| == |used| == n + 1 && 1 <= j0 <= n
        invariant Frontier(m, n, i, u, v, p, colOf, way, used, rank, minv, j0)
        decreases Unused(n, used)
      {
        FrontierUnvisited(m, n, i, u, v, p, colOf, way, used, rank, minv, j0);
        MarkColumn(m, n, i, u, v, p, colOf, way, used, rank, minv, j0);
        UnusedShrinks(n, used, j0);
        j0 := Pass(n, i, j0, m);
      }
      FrontierUnvisited(m, n, i, u, v, p, colOf, way, used, rank, minv, j0);
      UnvisitedIsUnused(n, used, j0);
      Augment(n, i, j0, m);
      RowPlaced(m, n, i, u, v, p, colOf);
    }

    /** Solves the n x n problem held in cost: rowOfCol is a cheapest permutation,
        certified by the potentials. */
    method SolveAssignment(n: nat)
      requires |cost| == n * n
      modifies this`u, this`v, this`p, this`way, this`minv, this`used, this`rowOfCol, this`colOf, this`rank
      ensures IsPermutation(rowOfCol, n)
      ensures |u| == |v| == n + 1
      ensures Feasible(Rows(cost, n), n, u, v, n)
      ensures forall j :: 0 <= j < n ==> u[rowOfCol[j] + 1] + v[j + 1] == Rows(cost, n)[rowOfCol[j]][j]
      ensures Total(Rows(cost, n), n, rowOfCol) == -v[0]
      ensures forall s :: IsPermutation(s, n) ==> Total(Rows(cost, n), n, rowOfCol) <= Total(Rows(cost, n), n, s)
    {
      u := seq(n + 1, _ => 0.0);
      v := seq(n + 1, _ => 0.0);
      p := seq(n + 1, _ => 0);
      way := seq(n + 1, _ => 0);
      colOf := seq(n + 1, _ => 0);
      SumZeros(u);
      SumZeros(v);
      ghost var m := Rows(cost, n);
      for i := 1 to n + 1
        invariant |way| == n + 1
        invariant Placed(m, n, i - 1, u, v, p, colOf)
      {
        PlaceRow(n, i, m);
      }
      rowOfCol := ReadOff(n);
      CompleteIsOptimal(m, n, u, v, p, colOf, rowOfCol);
    }

    method ReadOff(n: nat) returns (rows: seq<int>)
      requires |p| == n + 1
      ensures |rows| == n && forall k :: 0 <= k < n ==> rows[k] == p[k + 1] - 1
    {
      rows := seq(n, _ => -1);
      for j := 1 to n + 1
        invariant |rows| == n
        invariant forall k :: 0 <= k < j - 1 ==> rows[k] == p[k + 1] - 1
      {
        rows := rows[j - 1 := p[j] - 1];
      }
    }
  }

  /** Once n rows are matched, every real column carries a row. */
  lemma AllColumnsMatched(n: nat, p: seq<int>, colOf: seq<int>)
    requires Matching(p, colOf, 0, n, n)
    ensures forall j :: 1 <= j <= n ==> 1 <= p[j] <= n
  {
    var s := seq(n, r requires 0 <= r < n => colOf[r + 1] - 1);
    forall a, b | 0 <= a < b < n
      ensures s[a] != s[b]
    {
      assert p[colOf[a + 1]] == a + 1 && p[colOf[b + 1]] == b + 1;
    }
    forall j | 1 <= j <= n
      ensures 1 <= p[j] <= n
    {
      var k := Onto(s, n, j - 1);
      assert p[colOf[k + 1]] == k + 1;
    }
  }

  lemma ReadOffIsPermutation(n: nat, p: seq<int>, colOf: seq<int>, s: seq<int>)
    requires Matching(p, colOf, 0, n, n)
    requires |s| == n && forall k :: 0 <= k < n ==> s[k] == p[k + 1] - 1
    ensures IsPermutation(s, n)
  {
    AllColumnsMatched(n, p, colOf);
    forall a, b | 0 <= a < b < n
      ensures s[a] != s[b]
    {
      assert colOf[p[a + 1]] == a + 1 && colOf[p[b + 1]] == b + 1;
    }
  }

  lemma ReadOffIsTight(m: Matrix, n: nat, u: seq<real>, v: seq<real>, p: seq<int>, s: seq<int>)
    requires Square(m, n) && |u| == |v| == |p| == n + 1 && Tight(m, n, u, v, p, 0)
    requires forall j :: 1 <= j <= n ==> 1 <= p[j] <= n
    requires |s| == n && forall k :: 0 <= k < n ==> s[k] == p[k + 1] - 1
    ensures forall j :: 0 <= j < n ==> 0 <= s[j] < n && u[s[j] + 1] + v[j + 1] == m[s[j]][j]
  {
    forall j | 0 <= j < n
      ensures 0 <= s[j] < n && u[s[j] + 1] + v[j + 1] == m[s[j]][j]
    {
      assert 1 <= p[j + 1] <= n;
      assert u[p[j + 1]] + v[j + 1] == Cell(m, n, p[j + 1], j + 1);
    }
  }

  /** The permutation read off a complete matching is a cheapest one. */
  lemma CompleteIsOptimal(m: Matrix, n: nat, u: seq<real>, v: seq<real>, p: seq<int>, colOf: seq<int>, s: seq<int>)
    requires Placed(m, n, n, u, v, p, colOf)
    requires |s| == n && forall k :: 0 <= k < n ==> s[k] == p[k + 1] - 1
    ensures IsPermutation(s, n)
    ensures forall j :: 0 <= j < n ==> u[s[j] + 1] + v[j + 1] == m[s[j]][j]
    ensures Total(m, n, s) == -v[0]
    ensures forall t :: IsPermutation(t, n) ==> Total(m, n, s) <= Total(m, n, t)
  {
    hide Matching, Tight, Feasible, Total, Sum;
    AllColumnsMatched(n, p, colOf);
    ReadOffIsPermutation(n, p, colOf, s);
    ReadOffIsTight(m, n, u, v, p, s);
    Optimal(m, n, u, v, s);
  }
}

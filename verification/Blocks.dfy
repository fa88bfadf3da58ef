/** Matching within classes: a maximal one-to-one matching is a largest one. */
module Blocks {
  import opened Permutations
  import opened Padding

  /** t[d] is the row given to column d, or -1; pairs agree in class and rows are given once. */
  ghost predicate WithinClasses(rows: seq<int>, cols: seq<int>, t: seq<int>) {
    && |t| == |cols| && InRange(t, -1, |rows|)
    && (forall i, j :: 0 <= i < j < |t| && t[i] >= 0 ==> t[i] != t[j])
    && forall d :: 0 <= d < |t| && t[d] >= 0 ==> rows[t[d]] == cols[d]
  }

  /** No row and column of one class are both left over. */
  ghost predicate Maximal(rows: seq<int>, cols: seq<int>, t: seq<int>)
    requires |t| == |cols|
  {
    forall k, d :: 0 <= k < |rows| && 0 <= d < |t| && t[d] < 0 && rows[k] == cols[d] ==> k in t
  }

  ghost function Used(t: seq<int>): set<nat> {
    set d: nat | 0 <= d < |t| && t[d] >= 0
  }

  lemma {:induction false} PairsAreUsed(t: seq<int>)
    ensures Pairs(t) == |Used(t)|
  {
    if t == [] {
      assert Used(t) == {};
    } else {
      var e := |t| - 1;
      PairsAreUsed(t[..e]);
      assert Used(t) == Used(t[..e]) + if t[e] >= 0 then {e} else {};
    }
  }

  ghost predicate HasFree(cols: seq<int>, a: seq<int>, x: int)
    requires |a| == |cols|
  {
    exists e :: 0 <= e < |a| && a[e] < 0 && cols[e] == x
  }

  /** The pair of a that pays for the pair of b in column d: the same column while every column of
      its class is taken, and otherwise the column of the same row. */
  ghost function Payer(rows: seq<int>, cols: seq<int>, a: seq<int>, b: seq<int>, d: nat): (e: nat)
    requires WithinClasses(rows, cols, a) && Maximal(rows, cols, a) && WithinClasses(rows, cols, b) && d in Used(b)
    ensures e in Used(a) && cols[e] == cols[d]
    ensures e == d || (HasFree(cols, a, cols[d]) && a[e] == b[d])
    ensures HasFree(cols, a, cols[d]) ==> a[e] == b[d]
  {
    if HasFree(cols, a, cols[d]) then IndexOf(a, b[d]) else d
  }

  /** At most |s| keys are mapped into s one-to-one. */
  lemma {:induction false} InjectionBounds(f: map<nat, nat>, keys: set<nat>, s: set<nat>)
    requires forall x :: x in keys ==> x in f && f[x] in s
    requires forall x, y :: x in keys && y in keys && f[x] == f[y] ==> x == y
    ensures |keys| <= |s|
    decreases keys
  {
    if keys == {} {
    } else {
      var x :| x in keys;
      InjectionBounds(f, keys - {x}, s - {f[x]});
    }
  }

  /** A maximal matching within classes has as many pairs as any. */
  lemma MaximalIsLargest(rows: seq<int>, cols: seq<int>, a: seq<int>, b: seq<int>)
    requires WithinClasses(rows, cols, a) && Maximal(rows, cols, a) && WithinClasses(rows, cols, b)
    ensures Pairs(b) <= Pairs(a)
  {
    var f := map d | d in Used(b) :: Payer(rows, cols, a, b, d);
    InjectionBounds(f, Used(b), Used(a));
    PairsAreUsed(a);
    PairsAreUsed(b);
  }
}

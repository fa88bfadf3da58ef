/** Finite permutations of 0..n-1 as sequences, and sums indexed by them. */
module Permutations {

  ghost predicate InRange(s: seq<int>, lo: int, hi: int) {
    forall i :: 0 <= i < |s| ==> lo <= s[i] < hi
  }

  ghost predicate Injective(s: seq<int>) {
    forall i, j :: 0 <= i < j < |s| ==> s[i] != s[j]
  }

  ghost predicate IsPermutation(s: seq<int>, n: nat) {
    |s| == n && InRange(s, 0, n) && Injective(s)
  }

  /** The sum of the values of f at the positions listed in s. */
  ghost function SumAt(f: seq<real>, s: seq<int>): real
    requires InRange(s, 0, |f|)
  {
    if s == [] then 0.0 else SumAt(f, s[..|s| - 1]) + f[s[|s| - 1]]
  }

  ghost function Sum(f: seq<real>): real {
    if f == [] then 0.0 else Sum(f[..|f| - 1]) + f[|f| - 1]
  }

  /** At most hi - lo distinct values fit between lo and hi. */
  lemma {:induction false} Pigeonhole(s: seq<int>, lo: int, hi: int)
    requires lo <= hi && InRange(s, lo, hi) && Injective(s)
    ensures |s| <= hi - lo
    decreases hi - lo
  {
    if s == [] {
    } else {
      assert lo <= s[0] < hi;
      if k :| 0 <= k < |s| && s[k] == hi - 1 {
        Pigeonhole(s[..k] + s[k + 1..], lo, hi - 1);
      } else {
        Pigeonhole(s, lo, hi - 1);
      }
    }
  }

  /** An injective sequence of length n over 0..n-1 hits every value. */
  lemma Onto(s: seq<int>, n: nat, r: int) returns (k: int)
    requires IsPermutation(s, n) && 0 <= r < n
    ensures 0 <= k < n && s[k] == r
  {
    if r in s {
      k :| 0 <= k < n && s[k] == r;
    } else {
      k := 0;
      Pigeonhole(s + [r], 0, n);
    }
  }

  lemma {:induction false} SumAtConcat(f: seq<real>, a: seq<int>, b: seq<int>)
    requires InRange(a, 0, |f|) && InRange(b, 0, |f|)
    ensures InRange(a + b, 0, |f|)
    ensures SumAt(f, a + b) == SumAt(f, a) + SumAt(f, b)
  {
    if b == [] {
      assert a + b == a;
    } else {
      SumAtConcat(f, a, b[..|b| - 1]);
      assert (a + b)[..|a + b| - 1] == a + b[..|b| - 1];
    }
  }

  lemma {:induction false} SumAtPrefix(f: seq<real>, s: seq<int>, m: nat)
    requires m <= |f| && InRange(s, 0, m)
    ensures SumAt(f, s) == SumAt(f[..m], s)
  {
    if s == [] {
    } else {
      SumAtPrefix(f, s[..|s| - 1], m);
    }
  }

  /** Taking one entry out of a sum. */
  lemma SumAtWithout(f: seq<real>, s: seq<int>, k: nat)
    requires k < |s| && InRange(s, 0, |f|)
    ensures InRange(s[..k] + s[k + 1..], 0, |f|)
    ensures SumAt(f, s) == SumAt(f, s[..k] + s[k + 1..]) + f[s[k]]
  {
    var a, b := s[..k], s[k + 1..];
    SumAtConcat(f, a, b);
    SumAtConcat(f, s[..k + 1], b);
    assert s == s[..k + 1] + b;
    assert s[..k + 1][..k] == a;
  }

  /** Summing f along a permutation of its indices gives the plain sum. */
  lemma {:induction false} SumAlongPermutation(f: seq<real>, s: seq<int>)
    requires IsPermutation(s, |f|)
    ensures SumAt(f, s) == Sum(f)
  {
    var n := |f|;
    if n == 0 {
    } else {
      var k := Onto(s, n, n - 1);
      var t := s[..k] + s[k + 1..];
      SumAlongPermutation(f[..n - 1], t);
      SumAtPrefix(f, t, n - 1);
      SumAtWithout(f, s, k);
    }
  }

  lemma {:induction false} SumUpdate(f: seq<real>, k: nat, x: real)
    requires k < |f|
    ensures Sum(f[k := x]) == Sum(f) - f[k] + x
  {
    var g := f[k := x];
    if k == |f| - 1 {
      assert g[..|f| - 1] == f[..|f| - 1];
    } else {
      SumUpdate(f[..|f| - 1], k, x);
      assert g[..|f| - 1] == f[..|f| - 1][k := x];
    }
  }

  lemma {:induction false} SumZeros(f: seq<real>)
    requires forall i :: 0 <= i < |f| ==> f[i] == 0.0
    ensures Sum(f) == 0.0
  {
    if f == [] {
    } else {
      SumZeros(f[..|f| - 1]);
    }
  }
}

/** The few facts about products that the other modules need. */
module Products {

  /** A factor of a non-negative product has the sign of the product, if the other is positive. */
  lemma FactorSign(a: real, b: real)
    requires b > 0.0 && a * b >= 0.0
    ensures a >= 0.0
  {
  }

  lemma ProductSign(a: real, b: real)
    requires a >= 0.0 && b >= 0.0
    ensures a * b >= 0.0
  {
  }

  lemma {:induction false} TimesMonotone(a: nat, b: nat, n: nat)
    requires a <= b
    ensures 0 <= a * n <= b * n
    decreases b
  {
    if a == b {
    } else {
      TimesMonotone(a, b - 1, n);
      assert b * n == (b - 1) * n + n;
    }
  }

  lemma ProductPositive(a: real, b: real)
    requires a > 0.0 && b > 0.0
    ensures a * b > 0.0
  {
  }

  /** Any step, taken often enough, leads past any bound. */
  lemma Archimedes(step: real, bound: real) returns (k: nat)
    requires step > 0.0
    ensures k as real * step > bound
  {
    if bound < 0.0 {
      k := 0;
    } else {
      var q := bound / step;
      assert q * step == bound;
      FactorSign(q, step);
      k := q.Floor + 1;
      assert (k as real - q) * step == k as real * step - bound;
      ProductPositive(k as real - q, step);
    }
  }
}

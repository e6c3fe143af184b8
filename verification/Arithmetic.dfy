/** Facts about products, quotients and sizes that several modules need. */
module Arithmetic {
  /** How many whole `unit`s fit into `total`. */
  function Quotient(total: nat, unit: nat): nat
    requires unit > 0
  {
    total / unit
  }

  lemma ProductGrows(x: int, y: int, unit: nat)
    requires x <= y
    ensures x * unit <= y * unit
  {
  }

  lemma OneMore(x: int, unit: int)
    ensures (x + 1) * unit == x * unit + unit
  {
  }

  lemma AtMostQuotient(k: nat, total: nat, unit: nat)
    requires unit > 0 && k * unit <= total
    ensures k <= Quotient(total, unit)
  {
    var q := total / unit;
    assert total < (q + 1) * unit;
    if k > q { ProductGrows(q + 1, k, unit); }
  }

  lemma SubsetSize<T>(a: set<T>, b: set<T>)
    requires a <= b
    ensures |a| <= |b|
  {
    assert b == a + (b - a);
    assert |a + (b - a)| == |a| + |b - a|;
  }
}

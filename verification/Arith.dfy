/** Facts about products and quotients that the proofs cite by name. */
module Arith {

  lemma {:induction false} MultiplesApart(a: nat, b: nat, d: nat)
    requires a < b
    ensures a * d + d <= b * d
    decreases b
  {
    assert b * d == (b - 1) * d + d;
    if a < b - 1 {
      MultiplesApart(a, b - 1, d);
    }
  }

  lemma {:induction false} NextMultiple(a: nat, d: nat)
    ensures (a + 1) * d == a * d + d
  {
  }

  lemma {:induction false} DivisionIs(x: nat, d: nat, q: nat, r: nat)
    requires x == q * d + r && r < d
    ensures x / d == q && x % d == r
  {
    assert x == x / d * d + x % d;
    if x / d < q {
      MultiplesApart(x / d, q, d);
    } else if q < x / d {
      MultiplesApart(q, x / d, d);
    }
  }

  lemma {:induction false} Scaled(a: nat, b: nat, size: nat)
    requires a <= b
    ensures a * size <= b * size
  {
  }

  /** a copies of d fit into x if and only if a is not more than the quotient. */
  lemma {:induction false} CopiesFit(x: nat, d: nat, a: nat)
    requires d > 0
    ensures a * d <= x <==> a <= x / d
  {
    var q := x / d;
    assert x == q * d + x % d;
    if a < q {
      MultiplesApart(a, q, d);
    } else if q < a {
      MultiplesApart(q, a, d);
    }
  }

  function Multiple(k: nat, d: nat): nat { k * d }

  function Quotient(x: nat, d: nat): nat
    requires d >= 1
  {
    x / d
  }
}

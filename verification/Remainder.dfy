/** Remainders by a ring's size. */
module Remainder {

  lemma MultipleOutside(p: nat, q: int)
    ensures q * p <= 0 || q * p >= p
  {
  }

  lemma DistinctIndex(p: nat, a: nat, b: nat)
    requires p > 0 && a < b < a + p
    ensures a % p != b % p
  {
    MultipleOutside(p, b / p - a / p);
  }

  lemma AddModulus(p: nat, a: nat)
    requires p > 0
    ensures (a + p) % p == a % p
  {
    var q := (a + p) / p - a / p - 1;
    MultipleOutside(p, q);
    MultipleOutside(p, -q);
  }

  lemma SameRemainder(p: nat, a: nat, b: nat)
    requires p > 0 && a <= b
    ensures a % p == b % p <==> (b - a) % p == 0
  {
    var qa, qb, q := a / p, b / p, (b - a) / p;
    assert a == qa * p + a % p && b == qb * p + b % p && b - a == q * p + (b - a) % p;
    assert (b - a) % p == (qb - qa - q) * p + (b % p - a % p) by { Distribute(p, qa, qb, q); }
    MultipleOutside(p, qb - qa - q);
    MultipleOutside(p, qa + q - qb);
  }

  lemma Distribute(p: nat, qa: int, qb: int, q: int)
    ensures (qb - qa - q) * p == qb * p - qa * p - q * p
  {
  }
}

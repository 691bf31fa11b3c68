// Facts about products and quotients of integers.
module Arithmetic {

  lemma Distribute(d: int, a: int, c: int)
    ensures d * (a + c) == d * a + d * c
  {
  }

  lemma Product(a: nat, b: nat)
    ensures 0 <= a * b
  {
  }

  // Different multiples of d are at least d apart.
  lemma {:induction false} MultiplesApart(d: int, a: int, b: int)
    requires a < b && d > 0
    ensures d * a + d <= d * b
    decreases b - a
  {
    Distribute(d, b - 1, 1);
    if a + 1 < b { MultiplesApart(d, a, b - 1); }
  }

  lemma Divided(n: nat, d: nat)
    requires d > 0
    ensures n == d * (n / d) + n % d && 0 <= n % d < d
  {
  }

  lemma QuotientMonotone(a: int, b: int, d: int)
    requires 0 <= a <= b && d > 0
    ensures 0 <= a / d <= b / d
    ensures b <= a + d ==> b / d <= a / d + 1
  {
    var p, q := a / d, b / d;
    Divided(a, d);
    Divided(b, d);
    if q < p { MultiplesApart(d, q, p); }
    if p + 1 < q {
      MultiplesApart(d, p, p + 1);
      MultiplesApart(d, p + 1, q);
    }
  }
}

/** Products, quotients and remainders, in steps small enough for the solver. */
module Arithmetic {

  lemma Distribute(a: int, b: int, c: int)
    ensures (a + b) * c == a * c + b * c
  {
  }

  lemma MulMonotone(a: nat, b: nat, c: nat)
    requires a <= b
    ensures a * c <= b * c
  {
    Distribute(a, b - a, c);
  }

  lemma QuotientUnique(d: nat, q: nat, r: nat, q': nat, r': nat)
    requires q * d + r == q' * d + r' && r < d && r' < d
    ensures q == q' && r == r'
  {
    if q < q' {
      MulMonotone(q + 1, q', d);
      Distribute(q, 1, d);
    } else if q' < q {
      MulMonotone(q' + 1, q, d);
      Distribute(q', 1, d);
    }
  }

  lemma DivMod(n: nat, d: nat)
    requires d > 0
    ensures n == n / d * d + n % d && 0 <= n % d < d && n / d >= 0
  {
  }

  lemma DivModUnique(n: nat, d: nat, q: nat, r: nat)
    requires r < d && n == q * d + r
    ensures n / d == q && n % d == r
  {
    DivMod(n, d);
    QuotientUnique(d, q, r, n / d, n % d);
  }

  /** Numbers less than `n` apart have different remainders. */
  lemma RemaindersDiffer(x: nat, y: nat, n: nat)
    requires x < y < x + n
    ensures x % n != y % n
  {
    DivMod(x, n);
    DivMod(y, n);
    if x / n < y / n {
      MulMonotone(x / n + 1, y / n, n);
      Distribute(x / n, 1, n);
    } else {
      MulMonotone(y / n, x / n, n);
    }
  }

  lemma AddToRemainder(x: nat, y: nat, sum: nat, n: nat)
    requires n > 0 && sum == x + y
    ensures (x % n + y) % n == sum % n
  {
    DivMod(x, n);
    var z := x % n + y;
    DivMod(z, n);
    Distribute(x / n, z / n, n);
    DivModUnique(sum, n, x / n + z / n, z % n);
  }
}

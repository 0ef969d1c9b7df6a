/** Division with remainder by a positive number. */
module Modular {
  lemma MulMono(n: nat, a: nat, b: nat)
    ensures a < b ==> n * a + n <= n * b
  {
    if a < b {
      var d: nat := b - a - 1;
      Distribute(n, a, 1 + d);
      Distribute(n, 1, d);
      Product(n, d);
    }
  }

  lemma Product(n: nat, d: nat)
    ensures n * d >= 0
  {
  }

  lemma Distribute(n: nat, a: nat, b: nat)
    ensures n * (a + b) == n * a + n * b
  {
  }

  lemma Quotient(m: nat, q: nat, r: nat, n: nat)
    requires r < n && m == n * q + r
    ensures m / n == q && m % n == r
  {
    Split(m, n);
    MulMono(n, q, m / n);
    MulMono(n, m / n, q);
  }

  lemma Split(m: nat, n: nat)
    requires n > 0
    ensures m == n * (m / n) + m % n && m % n < n
  {
  }

  lemma AddMultiple(x: nat, q: nat, n: nat)
    requires n > 0
    ensures (x + n * q) % n == x % n
  {
    Split(x, n);
    Distribute(n, x / n, q);
    Quotient(x + n * q, x / n + q, x % n, n);
  }

  lemma ModAdd(x: nat, y: nat, n: nat)
    requires n > 0
    ensures (x + y % n) % n == (x + y) % n
  {
    Split(y, n);
    AddMultiple(x + y % n, y / n, n);
  }

  lemma ModUnique(a: nat, b: nat, n: nat)
    requires n > 0 && a % n == b % n && a < b + n && b < a + n
    ensures a == b
  {
    Split(a, n);
    Split(b, n);
    MulMono(n, a / n, b / n);
    MulMono(n, b / n, a / n);
  }
}

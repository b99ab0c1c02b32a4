/** Multiplication keeps order. */
module Arithmetic {

  lemma MulMonotone(a: int, b: int, k: nat)
    requires a <= b
    ensures a * k <= b * k
    ensures k * a <= k * b
  {
  }

  lemma NoMultipleBetween(d: int, k: int, x: int)
    requires d > 0 && d * k == x && -d < x < d
    ensures k == 0
  {
    if k >= 1 {
      MulMonotone(1, k, d);
    } else if k <= -1 {
      MulMonotone(k, -1, d);
    }
  }

  /** Two multiples of a number are at least that number apart. */
  lemma {:induction false} MultiplesApart(n: nat, a: nat, b: nat)
    requires n > 0 && a < b < a + n && b % n == 0
    ensures a % n != 0
  {
    var k := b / n - a / n;
    assert b == n * (b / n) + b % n && a == n * (a / n) + a % n;
    assert n * k == n * (b / n) - n * (a / n);
    if a % n == 0 {
      NoMultipleBetween(n, k, b - a);
    }
  }
}

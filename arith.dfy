/** Small facts of integer arithmetic that the solver does not find alone. */
module Arith {

  lemma Distribute(a: int, b: int, c: int)
    ensures a * (b + c) == a * b + a * c && (b + c) * a == b * a + c * a
  {
  }

  lemma MulMonotone(a: int, b: int, c: nat)
    requires a <= b
    ensures a * c <= b * c
  {
  }

  /** One factor fewer: `j * d` is `(j - 1) * d` plus `d`. */
  lemma MulPred(j: nat, d: nat)
    requires j > 0
    ensures j * d == (j - 1) * d + d
  {
    Distribute(d, j - 1, 1);
  }

  lemma MulLess(i: nat, j: nat, d: nat)
    requires i < j && d > 0
    ensures i * d < j * d
  {
  }

  /** A positive factor can be cancelled from both sides of `<=` and of `<`. */
  lemma MulCancel(a: int, b: int, n: int)
    requires n > 0
    ensures a * n <= b * n ==> a <= b
    ensures a * n < b * n ==> a < b
  {
    if a > b {
      MulMonotone(b + 1, a, n);
      Distribute(n, b, 1);
    } else if a == b {
    } else {
      MulMonotone(a + 1, b, n);
      Distribute(n, a, 1);
    }
  }

  /** The quotient is the `q` with `q * d <= x < q * d + d`. */
  lemma DivExact(x: int, d: int, q: int)
    requires d > 0 && q * d <= x < q * d + d
    ensures x / d == q
  {
    var p := x / d;
    assert x == p * d + x % d && 0 <= x % d < d;
    if p > q {
      MulMonotone(q + 1, p, d);
      Distribute(d, q, 1);
    } else if p < q {
      MulMonotone(p + 1, q, d);
      Distribute(d, p, 1);
    }
  }

  /** The quotient and the remainder bound `x` from both sides. */
  lemma DivBounds(x: int, d: int)
    requires d > 0
    ensures (x / d) * d <= x < (x / d) * d + d
  {
    assert x == (x / d) * d + x % d;
  }

  /** Adding the divisor adds one to the quotient. */
  /** Dividing by a positive divisor never makes a number larger. */
  lemma DivAtMost(x: nat, d: nat)
    requires d > 0
    ensures x / d <= x
  {
    DivBounds(x, d);
    MulMonotone(1, d, x / d);
  }

  lemma DivShift(x: int, d: int)
    requires d > 0
    ensures (x + d) / d == x / d + 1
  {
    var q := x / d;
    DivBounds(x, d);
    Distribute(d, q, 1);
    DivExact(x + d, d, q + 1);
  }

  /** Integer division of a positive `n` yields 0 exactly when the divisor exceeds it. */
  lemma DivZero(n: nat, d: nat)
    requires n > 0 && d > 0
    ensures n / d == 0 <==> d > n
  {
    if d > n {
      DivExact(n, d, 0);
    } else {
      assert n == (n / d) * d + n % d && n % d < d;
    }
  }

  /** Integer division by a positive divisor is monotone. */
  lemma DivMonotone(a: nat, b: nat, d: nat)
    requires a <= b && d > 0
    ensures a / d <= b / d
  {
    var qa, qb := a / d, b / d;
    assert a == qa * d + a % d && b == qb * d + b % d;
    if qa > qb {
      MulMonotone(qb + 1, qa, d);
      Distribute(d, qb, 1);
    }
  }
}

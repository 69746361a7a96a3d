/** Facts about products and quotients that the proofs cite by name. */
module Arithmetic {

  lemma MulMonotone(a: int, b: int, c: int)
    requires 0 <= a && b <= c
    ensures a * b <= a * c
  {
  }

  lemma Distribute(a: int, b: int, c: int)
    ensures a * (b + c) == a * b + a * c
  {
  }

  lemma DistributeRight(a: int, b: int, c: int)
    ensures (a + b) * c == a * c + b * c
  {
  }

  lemma DivUnique(n: int, d: int, q: int)
    requires d > 0 && q * d <= n < q * d + d
    ensures n / d == q
  {
    var r := n / d;
    assert r * d <= n < r * d + d;
    if r < q {
      MulMonotone(d, r + 1, q);
    } else if r > q {
      MulMonotone(d, q + 1, r);
    }
  }

  lemma ModUnique(x: int, n: int, q: int, r: int)
    requires n > 0 && x == q * n + r && 0 <= r < n
    ensures x / n == q && x % n == r
  {
    DivUnique(x, n, q);
  }

  lemma ModSmall(x: nat, n: nat)
    requires x < n
    ensures x % n == x
  {
    ModUnique(x, n, 0, x);
  }

  lemma NextQuotient(k: nat, n: nat)
    requires n > 0
    ensures (k + 1) / n == if k % n + 1 < n then k / n else k / n + 1
    ensures (k + 1) % n == if k % n + 1 < n then k % n + 1 else 0
  {
    var q, r := k / n, k % n;
    assert k == q * n + r;
    if r + 1 < n {
      ModUnique(k + 1, n, q, r + 1);
    } else {
      assert (q + 1) * n == q * n + n;
      ModUnique(k + 1, n, q + 1, 0);
    }
  }

  lemma DivMonotone(a: int, b: int, d: int)
    requires d > 0 && a <= b
    ensures a / d <= b / d
  {
    var p, q := a / d, b / d;
    assert p * d <= a && b < q * d + d;
    if q < p {
      MulMonotone(d, q + 1, p);
    }
  }

  lemma RealProduct(a: int, b: int)
    ensures a as real * b as real == (a * b) as real
  {
  }

  lemma RealMulMonotone(a: real, b: real, c: real)
    requires 0.0 <= a && b <= c
    ensures a * b <= a * c
  {
  }

  lemma RealMulStrict(a: real, b: real, c: real)
    requires 0.0 < a && b < c
    ensures a * b < a * c
  {
  }

  lemma RealCancel(a: real, b: real)
    requires b != 0.0
    ensures a * b / b == a
  {
  }

  /** The real quotient of two integers rounds down to the integer quotient. */
  lemma FloorOfQuotient(n: int, d: int)
    requires d > 0
    ensures (n as real / d as real).Floor == n / d
  {
    var q, rest := n / d, n % d;
    assert n == q * d + rest;
    var x, e := n as real / d as real, d as real;
    assert x * e == n as real;
    RealProduct(q, d);
    if x < q as real {
      RealMulStrict(e, x, q as real);
    }
    if x >= q as real + 1.0 {
      RealMulMonotone(e, q as real + 1.0, x);
    }
  }
}

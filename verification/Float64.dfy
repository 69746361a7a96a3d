/** IEEE 754 double precision as far as the share of a split operation needs it:
    rounding to 53 significant bits, ties to even (section 4.3.1 of IEEE 754-2008). */
module Float64 {

  const REAL_2_52: real := 4503599627370496.0
  const REAL_2_53: real := 9007199254740992.0
  const REAL_2_63: real := 9223372036854775808.0

  /** The integer nearest to y, the even one of two. */
  function NearestEven(y: real): (n: int)
    ensures y - 0.5 <= n as real <= y + 0.5
    ensures y.Floor <= n <= y.Floor + 1
  {
    var n := y.Floor;
    var rest := y - n as real;
    if rest < 0.5 || (rest == 0.5 && n % 2 == 0) then n else n + 1
  }

  /** How far x is from the range in which doubles are the integers. */
  function Magnitude(x: real): nat
    requires x >= 1.0
  {
    if x >= REAL_2_53 then x.Floor else if x < REAL_2_52 then (REAL_2_53 - x).Floor else 0
  }

  /** The double nearest to x: scaled by a power of two, x has 53 binary digits
      before its point. */
  function Rounded(x: real): (r: real)
    requires x >= 1.0
    ensures REAL_2_53 * (r - x) <= x && REAL_2_53 * (x - r) <= x
    decreases Magnitude(x)
  {
    if x >= REAL_2_53 then 2.0 * Rounded(x / 2.0)
    else if x < REAL_2_52 then Rounded(2.0 * x) / 2.0
    else NearestEven(x) as real
  }

  /** The same for zero. Positive numbers below one do not occur here. */
  function Double(x: real): (r: real)
    requires x == 0.0 || x >= 1.0
    ensures x == 0.0 ==> r == 0.0
    ensures x >= 1.0 ==> r >= 1.0
  {
    if x == 0.0 then 0.0
    else
      assert Rounded(x) >= 1.0 by { if x < REAL_2_53 { NotBelowInteger(x, 1); } }
      Rounded(x)
  }

  /** Floating-point multiplication and division: the exact result, rounded. */
  function Mul(a: real, b: real): (r: real)
    requires (a == 0.0 || a >= 1.0) && (b == 0.0 || b >= 1.0)
    ensures r == 0.0 || r >= 1.0
  {
    ProductNotSmall(a, b);
    Double(a * b)
  }

  function Div(a: real, b: real): (r: real)
    requires 1.0 <= b <= a
    ensures r >= 1.0
  {
    QuotientAtLeastOne(a, b);
    Double(a / b)
  }

  lemma ProductNotSmall(a: real, b: real)
    requires (a == 0.0 || a >= 1.0) && (b == 0.0 || b >= 1.0)
    ensures a * b == 0.0 || a * b >= 1.0
  {
  }

  lemma QuotientAtLeastOne(a: real, b: real)
    requires 1.0 <= b <= a
    ensures a / b >= 1.0
  {
  }

  // ----- integers -----------------------------------------------------------------------

  /** Rounding does not cross an integer of up to 53 bits. */
  lemma {:induction false} NotBelowInteger(x: real, n: nat)
    requires 1.0 <= x < REAL_2_53 && n as real <= x
    ensures n as real <= Rounded(x)
    decreases Magnitude(x)
  {
    if x < REAL_2_52 {
      NotBelowInteger(2.0 * x, 2 * n);
    } else {
      assert n <= x.Floor;
    }
  }

  lemma {:induction false} NotAboveInteger(x: real, n: nat)
    requires 1.0 <= x < REAL_2_53 && x <= n as real
    ensures Rounded(x) <= n as real
    decreases Magnitude(x)
  {
    if x < REAL_2_52 {
      NotAboveInteger(2.0 * x, 2 * n);
    }
  }

  lemma DoubleOfInteger(n: nat)
    requires n as real < REAL_2_53
    ensures Double(n as real) == n as real
  {
    if n > 0 {
      NotBelowInteger(n as real, n);
      NotAboveInteger(n as real, n);
    }
  }

  // ----- around 2^63 ----------------------------------------------------------------------

  function Pow(b: nat): (p: real)
    ensures p >= 1.0
  {
    if b == 0 then 1.0 else 2.0 * Pow(b - 1)
  }

  lemma {:induction false} NotAbovePower(x: real, b: nat)
    requires 1.0 <= x < REAL_2_53 * Pow(b)
    ensures Rounded(x) <= REAL_2_53 * Pow(b)
    decreases b
  {
    if x >= REAL_2_53 {
      NotAbovePower(x / 2.0, b - 1);
    } else {
      NotAboveInteger(x, 9007199254740992);
    }
  }

  /** x halved b times. */
  function Halved(x: real, b: nat): real
    decreases b
  {
    if b == 0 then x else Halved(x / 2.0, b - 1)
  }

  function Redoubled(x: real, b: nat): real
    decreases b
  {
    if b == 0 then x else 2.0 * Redoubled(x, b - 1)
  }

  lemma {:induction false} HalvedBound(x: real, b: nat)
    requires REAL_2_52 <= Halved(x, b)
    ensures x >= REAL_2_52 && (b > 0 ==> x >= REAL_2_53)
    decreases b
  {
    if b > 0 {
      HalvedBound(x / 2.0, b - 1);
    }
  }

  lemma {:induction false} RoundedAt(x: real, b: nat)
    requires REAL_2_52 <= Halved(x, b) < REAL_2_53
    ensures x >= 1.0 && Rounded(x) == Redoubled(NearestEven(Halved(x, b)) as real, b)
    decreases b
  {
    HalvedBound(x, b);
    if b > 0 {
      RoundedAt(x / 2.0, b - 1);
    }
  }

  lemma FourTimes(x: real, b: nat)
    ensures Halved(x, b + 4) == Halved(x / 16.0, b) && Redoubled(x, b + 4) == 16.0 * Redoubled(x, b)
  {
    assert Halved(x, b + 4) == Halved(x / 2.0, b + 3) == Halved(x / 4.0, b + 2) == Halved(x / 8.0, b + 1);
    assert Redoubled(x, b + 4) == 2.0 * Redoubled(x, b + 3) == 4.0 * Redoubled(x, b + 2) == 8.0 * Redoubled(x, b + 1);
  }

  lemma ElevenTimes(x: real)
    ensures Halved(x, 11) == x / 2048.0 && Redoubled(x, 11) == 2048.0 * x
  {
    FourTimes(x, 7);
    FourTimes(x / 16.0, 3);
    FourTimes(x, 3);
    var y := x / 256.0;
    assert Halved(y, 3) == Halved(y / 2.0, 2) == Halved(y / 4.0, 1) == y / 8.0;
    assert Redoubled(x, 3) == 2.0 * Redoubled(x, 2) == 4.0 * Redoubled(x, 1) == 8.0 * x;
  }

  /** Rounded numbers exceed 2^63 only from 1024 beyond it on, where the next double
      is nearer; half way 2^63 is the even one of two. */
  lemma ExceedsIff(x: real)
    requires x == 0.0 || x >= 1.0
    ensures Double(x) > REAL_2_63 <==> x > REAL_2_63 + 1024.0
  {
    if 1.0 <= x < REAL_2_63 {
      assert Pow(10) == 1024.0;
      NotAbovePower(x, 10);
    } else if REAL_2_63 <= x < 2.0 * REAL_2_63 {
      JustAbove(x, x / 2048.0);
    }
  }

  lemma JustAbove(x: real, y: real)
    requires REAL_2_63 <= x < 2.0 * REAL_2_63 && x == 2048.0 * y
    ensures Double(x) > REAL_2_63 <==> x > REAL_2_63 + 1024.0
  {
    ElevenTimes(x);
    RoundedAt(x, 11);
    ElevenTimes(NearestEven(y) as real);
    var n := 4503599627370496;
    assert y.Floor >= n;
    if x <= REAL_2_63 + 1024.0 {
      assert y.Floor == n && y - n as real <= 0.5;
    } else {
      assert NearestEven(y) > n;
    }
  }

  // ----- products and quotients ---------------------------------------------------------

  lemma MulRounds(a: real, b: real, p: real)
    requires (a == 0.0 || a >= 1.0) && (b == 0.0 || b >= 1.0) && a * b == p
    ensures (p == 0.0 || p >= 1.0) && Mul(a, b) == Double(p)
  {
    ProductNotSmall(a, b);
  }

  lemma DivRounds(a: real, b: real, q: real)
    requires 1.0 <= b <= a && q * b == a
    ensures q >= 1.0 && Div(a, b) == Double(q)
  {
    SameQuotient(a, b, q);
    QuotientAtLeastOne(a, b);
  }

  lemma SameQuotient(a: real, b: real, q: real)
    requires b >= 1.0 && q * b == a
    ensures a / b == q
  {
  }

  /** A product r of p's magnitude, divided by d, is within one of the exact quotient
      t of p, as long as that is below 2^52. */
  lemma DivIsNear(t: real, p: real, r: real, d: real)
    requires 1.0 <= d <= r && t * d == p && 0.0 <= t <= REAL_2_52 - 1.0
    requires REAL_2_53 * (r - p) <= p && REAL_2_53 * (p - r) <= p
    ensures t - 1.0 < Div(r, d) < t + 1.0
  {
    var q := r / d;
    DivRounds(r, d, q);
    RelativeError(t, q, p, r, d);
    RoundedOnceMore(t, q, Div(r, d));
  }

  lemma RoundedOnceMore(t: real, q: real, r: real)
    requires 1.0 <= q && t <= REAL_2_52 - 1.0 && r == Double(q)
    requires REAL_2_53 * (q - t) <= t && REAL_2_53 * (t - q) <= t
    ensures t - 1.0 < r < t + 1.0
  {
    assert r == Rounded(q);
    assert REAL_2_53 * (r - q) <= q && REAL_2_53 * (q - r) <= q;
  }

  lemma RelativeError(t: real, q: real, p: real, r: real, d: real)
    requires 1.0 <= d && t * d == p && q * d == r
    requires REAL_2_53 * (r - p) <= p && REAL_2_53 * (p - r) <= p
    ensures REAL_2_53 * (q - t) <= t && REAL_2_53 * (t - q) <= t
  {
    Difference(q, t, d, r, p);
    CancelFactor(q - t, r - p, t, p, d);
    CancelFactor(t - q, p - r, t, p, d);
  }

  lemma Difference(q: real, t: real, d: real, r: real, p: real)
    requires q * d == r && t * d == p
    ensures (q - t) * d == r - p && (t - q) * d == p - r
  {
  }

  lemma CancelFactor(a: real, ad: real, b: real, bd: real, d: real)
    requires d >= 1.0 && a * d == ad && b * d == bd && REAL_2_53 * ad <= bd
    ensures REAL_2_53 * a <= b
  {
    var c := b - REAL_2_53 * a;
    assert c * d == bd - REAL_2_53 * ad;
    NonNegativeFactor(c, d);
  }

  lemma NonNegativeFactor(c: real, d: real)
    requires d >= 1.0 && c * d >= 0.0
    ensures c >= 0.0
  {
  }
}

/** ROUND_HALF_EVEN on integer fractions, the rounding of every quantize in the services. */
module Rounding {

  function Abs(n: int): nat { if n < 0 then -n else n }

  /** n / d to the nearest integer, ties to even. */
  function HalfEven(n: int, d: int): int
    requires d > 0
  {
    var q, r := n / d, n % d;
    if 2 * r < d || (2 * r == d && q % 2 == 0) then q else q + 1
  }

  /** r is a remainder that leaves k as the nearest quotient, and as the even one of two equally near. */
  predicate NearRemainder(r: int, d: int, k: int) {
    -d <= 2 * r <= d && (2 * r == d || 2 * r == -d ==> k % 2 == 0)
  }

  predicate Nearest(n: int, d: int, k: int) {
    NearRemainder(n - k * d, d, k)
  }

  lemma DivFacts(n: int, d: int)
    requires d > 0
    ensures n == (n / d) * d + n % d && 0 <= n % d < d
  {
  }

  lemma MulMonotone(a: int, b: int, c: int)
    requires a <= b && c >= 0
    ensures a * c <= b * c
  {
  }

  lemma MulSub(a: int, b: int, c: int)
    ensures (a - b) * c == a * c - b * c
  {
  }

  lemma MulAssoc(a: int, b: int, c: int)
    ensures (a * b) * c == a * (b * c) && (a * b) * c == (a * c) * b
  {
  }

  lemma HalfEvenNearest(n: int, d: int)
    requires d > 0
    ensures Nearest(n, d, HalfEven(n, d))
  {
    DivFacts(n, d);
    MulSub(n / d, -1, d);
  }

  lemma SmallMultiple(gap: int, d: int)
    requires d > 0 && -d <= gap * d <= d
    ensures -1 <= gap <= 1
  {
    if gap >= 2 {
      MulMonotone(2, gap, d);
    } else if gap <= -2 {
      MulMonotone(gap, -2, d);
    }
  }

  lemma SameQuotient(r: int, r': int, d: int, j: int, k: int)
    requires d > 0 && NearRemainder(r, d, j) && NearRemainder(r', d, k) && r' - r == (j - k) * d
    ensures j == k
  {
    var gap := j - k;
    SmallMultiple(gap, d);
    assert gap == 1 ==> 2 * r == -d && 2 * r' == d;
    assert gap == -1 ==> 2 * r == d && 2 * r' == -d;
  }

  lemma HalfEvenIs(n: int, d: int, k: int)
    requires d > 0 && Nearest(n, d, k)
    ensures HalfEven(n, d) == k
  {
    HalfEvenNearest(n, d);
    var h := HalfEven(n, d);
    MulSub(h, k, d);
    SameQuotient(n - h * d, n - k * d, d, h, k);
  }

  /** Rounding never crosses an integer, nor a half it is not on. */
  lemma HalfEvenBounds(n: int, d: int, k: int)
    requires d > 0
    ensures n >= k * d ==> HalfEven(n, d) >= k
    ensures n <= k * d ==> HalfEven(n, d) <= k
    ensures 2 * n > 2 * (k * d) + d ==> HalfEven(n, d) >= k + 1
    ensures 2 * n < 2 * (k * d) + d ==> HalfEven(n, d) <= k
  {
    HalfEvenNearest(n, d);
    var h := HalfEven(n, d);
    MulSub(h, k, d);
    if h < k {
      MulMonotone(h - k, -1, d);
    } else if h > k {
      MulMonotone(1, h - k, d);
    }
  }

  /** The core of DoubleRounding: w is what the first rounding drops, z what it leaves for the second. */
  lemma FineGrid(r: int, s: int, t: int, w: int, z: int)
    requires 0 < s < t && t % 2 == 0
    requires 2 * r <= s && -s <= 2 * w && r * t == w + z * s
    ensures 2 * z <= t
    ensures 2 * z == t ==> 2 * r == s
  {
    MulAssoc(2, r, t);
    MulAssoc(2, z, s);
    if 2 * z > t {
      MulMonotone(2 * r, s, t);
      MulMonotone(t + 2, 2 * z, s);
      MulSub(t, -2, s);
    } else if 2 * z == t && 2 * r < s {
      MulMonotone(2 * r, s - 1, t);
      MulSub(s, 1, t);
    }
  }

  /** Rounding first to a finer grid of t steps per unit and then to units gives the same result as rounding once,
      when the grid is even and finer than the denominator. */
  lemma DoubleRounding(n: int, s: int, t: int)
    requires 0 < s < t && t % 2 == 0
    ensures HalfEven(HalfEven(n * t, s), t) == HalfEven(n, s)
  {
    var k, y := HalfEven(n, s), HalfEven(n * t, s);
    HalfEvenNearest(n, s);
    HalfEvenNearest(n * t, s);
    MulSub(n, k * s, t);
    MulSub(y, k * t, s);
    MulAssoc(k, s, t);
    var r, w, z := n - k * s, n * t - y * s, y - k * t;
    FineGrid(r, s, t, w, z);
    MulSub(0, r, t);
    MulSub(0, z, s);
    FineGrid(-r, s, t, -w, -z);
    HalfEvenIs(y, t, k);
  }
}

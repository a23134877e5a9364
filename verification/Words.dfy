/** The fixed-width integers of the C sources, written out over unbounded `int`. */
module Words {
  const TWO31: int := 0x8000_0000
  const TWO63: int := 0x8000_0000_0000_0000
  const TWO64: int := 0x1_0000_0000_0000_0000

  /** ONE_SECOND_IN_NS and FUDGE_FACTOR of flow.h. */
  const SECOND: int := 1_000_000_000
  const FUDGE: int := 1_000_000

  type u64 = x: int | 0 <= x < 0x1_0000_0000_0000_0000

  /** Unsigned 64-bit arithmetic keeps the residue modulo 2^64. */
  function Wrap(x: int): u64 {
    x % 0x1_0000_0000_0000_0000
  }

  /** Conversion to a signed 32-bit `int`. */
  function ToInt32(x: int): (r: int)
    ensures -TWO31 <= r < TWO31
  {
    var t := x % 0x1_0000_0000;
    if t < 0x8000_0000 then t else t - 0x1_0000_0000
  }

  /** Conversion of an unsigned 64-bit value to `int64_t`. */
  function ToInt64(x: u64): (r: int)
    ensures -TWO63 <= r < TWO63
  {
    if x < 0x8000_0000_0000_0000 then x else x - 0x1_0000_0000_0000_0000
  }

  /** Division of a signed value by two in C: the quotient is truncated towards zero. */
  function Halve(x: int): int {
    if x >= 0 then x / 2 else -((-x) / 2)
  }

  function Magnitude(x: int): nat {
    if x < 0 then -x else x
  }

  /**
   * `uint64_t d = abs(x)` for a 64-bit `x`: the argument is cut down to an `int`, its magnitude
   * is taken, and the result is widened again. C leaves abs(INT_MIN) undefined; here it is
   * INT_MIN again, as two's complement negation gives, and widens to 2^64 - 2^31.
   */
  function Abs(x: u64): u64 {
    var s := ToInt32(x);
    if s == -0x8000_0000 then 0xFFFF_FFFF_8000_0000 else Magnitude(s)
  }

  lemma ProductMonotone(j: int, k: int, p: nat)
    requires j <= k
    ensures j * p <= k * p && p * j <= p * k
  {
    assert (k - j) * p >= 0;
    assert (k - j) * p == k * p - j * p;
  }

  lemma NextProduct(n: int, p: int)
    ensures (n + 1) * p == n * p + p
  {
  }

  lemma ProductAssociative(a: int, b: int, c: int)
    ensures (a * b) * c == a * (b * c)
  {
  }

  /** Frame j of cycle c, counting cnt frames to a cycle. */
  lemma FrameTime(c: nat, cnt: nat, j: nat, period: nat, cycle: nat)
    requires cnt * period == cycle
    ensures (c * cnt + j) * period == c * cycle + j * period
  {
    ProductAssociative(c, cnt, period);
    assert (c * cnt + j) * period == (c * cnt) * period + j * period;
  }

  lemma ProductReflect(a: int, b: int, n: nat)
    requires a * n < b * n
    ensures a < b
  {
    if b <= a {
      ProductMonotone(b, a, n);
    }
  }

  lemma QuotientUnique(n: int, d: nat, k: int, r: nat)
    requires r < d && n == k * d + r
    ensures n / d == k && n % d == r
  {
    SameQuotient(d, n / d, n % d, k, r);
  }

  lemma SameQuotient(d: nat, q: int, r: nat, k: int, t: nat)
    requires r < d && t < d && q * d + r == k * d + t
    ensures q == k && r == t
  {
    assert (q + 1) * d == q * d + d && (k + 1) * d == k * d + d;
    ProductReflect(q, k + 1, d);
    ProductReflect(k, q + 1, d);
  }

  lemma QuotientAtMost(x: nat, n: nat)
    requires n > 0
    ensures 0 <= x / n <= x
    ensures x == (x / n) * n + x % n
  {
    var q := x / n;
    assert x == q * n + x % n;
    ProductReflect(-1, q, n);
    ProductMonotone(1, n, q);
  }

  /** If x is at most top * n, so is its quotient by n at most top. */
  lemma QuotientBound(x: nat, n: nat, top: nat)
    requires n > 0 && x <= top * n
    ensures x / n <= top
  {
    QuotientAtMost(x, n);
    assert (top + 1) * n == top * n + n;
    ProductReflect(x / n, top + 1, n);
  }

  // ---------- Wrapping ----------

  /** A word is determined by its residue. */
  lemma WrapIs(x: int, k: int, r: u64)
    requires x == k * 0x1_0000_0000_0000_0000 + r
    ensures Wrap(x) == r
  {
    QuotientUnique(x, 0x1_0000_0000_0000_0000, k, r);
  }

  lemma WrapSplit(x: int) returns (k: int)
    ensures x == k * 0x1_0000_0000_0000_0000 + Wrap(x)
  {
    k := x / 0x1_0000_0000_0000_0000;
  }

  lemma LowSplit(x: int) returns (k: int)
    ensures x == k * 0x1_0000_0000 + x % 0x1_0000_0000
  {
    k := x / 0x1_0000_0000;
  }

  /** Inner wraps can be postponed to the end of a sum or difference. */
  lemma WrapSum(a: int, b: int)
    ensures Wrap(Wrap(a) + b) == Wrap(a + b)
  {
    var k := WrapSplit(a);
    var m := WrapSplit(a + b);
    WrapIs(Wrap(a) + b, m - k, Wrap(a + b));
  }

  lemma WrapDifference(a: int, b: int)
    ensures Wrap(a - Wrap(b)) == Wrap(a - b)
  {
    var k := WrapSplit(b);
    var m := WrapSplit(a - b);
    WrapIs(a - Wrap(b), m + k, Wrap(a - b));
  }

  /** Wrapping leaves the low 32 bits alone. */
  lemma WrapKeepsLow(x: int)
    ensures Wrap(x) % 0x1_0000_0000 == x % 0x1_0000_0000
    ensures ToInt32(Wrap(x)) == ToInt32(x)
  {
    var k := WrapSplit(x);
    var m := LowSplit(x);
    QuotientUnique(Wrap(x), 0x1_0000_0000, m - k * 0x1_0000_0000, x % 0x1_0000_0000);
  }

  lemma LowIs(x: int, k: int, r: int)
    requires x == k * 0x1_0000_0000 + r && -TWO31 <= r < TWO31
    ensures ToInt32(x) == r
  {
    if r >= 0 {
      QuotientUnique(x, 0x1_0000_0000, k, r);
    } else {
      QuotientUnique(x, 0x1_0000_0000, k - 1, r + 0x1_0000_0000);
    }
  }

  lemma ToInt32Split(x: int) returns (k: int)
    ensures x == k * 0x1_0000_0000 + ToInt32(x)
  {
    k := LowSplit(x);
    if ToInt32(x) < 0 {
      k := k + 1;
    }
  }

  /**
   * The sampled deviation is the true one exactly when the true one is below 2^31 (or is the one
   * value INT_MIN widens to).
   */
  lemma AbsIsMagnitude(x: int)
    ensures Abs(Wrap(x)) == Magnitude(x) <==> Magnitude(x) < TWO31 || Magnitude(x) == TWO64 - TWO31
  {
    WrapKeepsLow(x);
    if Magnitude(x) < TWO31 {
      LowIs(x, 0, x);
    } else if x == TWO64 - TWO31 {
      LowIs(x, 0x1_0000_0000, -TWO31);
    } else if x == TWO31 - TWO64 {
      LowIs(x, 1 - 0x1_0000_0000, -TWO31);
    }
  }

  /** In general the sample is the magnitude of the low word, read as a signed one. */
  lemma AbsOfLowWord(x: int, k: int, r: int)
    requires x == k * 0x1_0000_0000 + r && -0x8000_0000 <= r < 0x8000_0000
    ensures Abs(Wrap(x)) == if r == -0x8000_0000 then 0xFFFF_FFFF_8000_0000 else if r < 0 then -r else r
  {
    WrapKeepsLow(x);
    LowIs(x, k, r);
  }

  /** A sample stays below 2^31 unless the low 32 bits of the difference spell INT_MIN. */
  lemma AbsBound(x: int)
    ensures Abs(Wrap(x)) < TWO31 <==> ToInt32(x) != -TWO31
  {
    WrapKeepsLow(x);
  }
}

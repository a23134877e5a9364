/** gcd, lcm and lcm_of_array of sche.c. */
module Arithmetic {
  import opened Words

  predicate Divides(d: nat, n: int) {
    d != 0 && n % d == 0
  }

  lemma DividesMultiple(d: nat, k: int)
    requires d != 0
    ensures Divides(d, k * d) && Divides(d, d * k)
  {
    QuotientUnique(k * d, d, k, 0);
  }

  lemma Cofactor(d: nat, n: int) returns (k: int)
    requires Divides(d, n)
    ensures n == k * d && k == n / d
    ensures n > 0 ==> k > 0
    ensures n >= 0 ==> k >= 0
  {
    k := n / d;
  }

  lemma DividesLinear(d: nat, a: int, x: int, b: int, y: int)
    requires Divides(d, a) && Divides(d, b)
    ensures Divides(d, a * x + b * y)
  {
    var ka := Cofactor(d, a);
    var kb := Cofactor(d, b);
    calc {
      a * x + b * y;
      (ka * d) * x + (kb * d) * y;
      (ka * x + kb * y) * d;
    }
    DividesMultiple(d, ka * x + kb * y);
  }

  lemma DividesTransitive(d: nat, m: nat, n: int)
    requires Divides(d, m) && Divides(m, n)
    ensures Divides(d, n)
  {
    var k := Cofactor(m, n);
    DividesLinear(d, m, k, 0, 0);
  }

  lemma DivisorAtMost(d: nat, n: nat)
    requires Divides(d, n) && n > 0
    ensures d <= n
  {
    var k := Cofactor(d, n);
    ProductMonotone(1, k, d);
  }

  function Gcd(a: nat, b: nat): nat
    decreases a
  {
    if a == 0 then b else Gcd(b % a, a)
  }

  /** The gcd divides both arguments and is an integer combination of them. */
  lemma {:induction false} Bezout(a: nat, b: nat) returns (x: int, y: int)
    requires a != 0 || b != 0
    ensures Divides(Gcd(a, b), a) && Divides(Gcd(a, b), b)
    ensures Gcd(a, b) == a * x + b * y
    decreases a
  {
    if a == 0 {
      DividesMultiple(b, 1);
      x, y := 0, 1;
    } else {
      var x', y' := Bezout(b % a, a);
      var g, q := Gcd(b % a, a), b / a;
      x, y := y' - q * x', x';
      BezoutStep(a, b, q, b % a, x', y', g);
      DividesLinear(g, a, q, b % a, 1);
    }
  }

  lemma BezoutStep(a: int, b: int, q: int, r: int, x: int, y: int, g: int)
    requires b == a * q + r && g == r * x + a * y
    ensures g == a * (y - q * x) + b * x
  {
    assert b * x == a * (q * x) + r * x;
    assert a * (y - q * x) == a * y - a * (q * x);
  }

  /** lcm(a, b) before wrapping. */
  function Lcm(a: nat, b: nat): nat
    requires a != 0 || b != 0
  {
    GcdPositive(a, b);
    QuotientNonNegative(a, Gcd(a, b)) * b
  }

  function QuotientNonNegative(a: nat, d: nat): nat
    requires d > 0
  {
    a / d
  }

  lemma {:induction false} GcdPositive(a: nat, b: nat)
    requires a != 0 || b != 0
    ensures Gcd(a, b) > 0
    decreases a
  {
    if a != 0 {
      GcdPositive(b % a, a);
    }
  }

  /** `Lcm` is a common multiple, at least as large as each argument, and divides every other. */
  lemma LcmIsLeast(a: nat, b: nat)
    requires a > 0 && b > 0
    ensures Lcm(a, b) >= a && Lcm(a, b) > 0
    ensures Divides(a, Lcm(a, b)) && Divides(b, Lcm(a, b))
    ensures forall m: nat | Divides(a, m) && Divides(b, m) :: Divides(Lcm(a, b), m)
  {
    var x, y := Bezout(a, b);
    var g := Gcd(a, b);
    var ka := Cofactor(g, a);
    var kb := Cofactor(g, b);
    var l := Lcm(a, b);
    assert l == ka * b == ka * (kb * g) == a * kb by {
      assert ka * (kb * g) == (ka * g) * kb;
    }
    assert l >= a;
    DividesMultiple(b, ka);
    DividesMultiple(a, kb);
    forall m: nat | Divides(a, m) && Divides(b, m)
      ensures Divides(l, m)
    {
      CommonMultiple(a, b, g, x, y, ka, kb, m);
    }
  }

  lemma CommonMultiple(a: nat, b: nat, g: nat, x: int, y: int, ka: nat, kb: nat, m: nat)
    requires g > 0 && ka * b > 0 && g == a * x + b * y
    requires a == ka * g && b == kb * g
    requires Divides(a, m) && Divides(b, m)
    ensures Divides(ka * b, m)
  {
    var s := Cofactor(a, m);
    var t := Cofactor(b, m);
    CoprimeCofactors(g, x, y, ka, kb);
    Associate(ka, t, b);
    DividesMultiple(ka * b, t);
    Associate(kb, s, a);
    Associate(kb, ka, g);
    DividesMultiple(ka * b, s);
    DividesLinear(ka * b, ka * m, x, kb * m, y);
    Distribute(m, ka, x, kb, y);
  }

  lemma CoprimeCofactors(g: nat, x: int, y: int, ka: nat, kb: nat)
    requires g > 0 && g == (ka * g) * x + (kb * g) * y
    ensures ka * x + kb * y == 1
  {
    Distribute(g, ka, x, kb, y);
    assert ka * g == g * ka && kb * g == g * kb;
    CancelFactor(ka * x + kb * y, 1, g);
  }

  lemma Associate(p: int, q: int, r: int)
    ensures p * (q * r) == (p * r) * q == (q * r) * p
  {
  }

  lemma Distribute(m: int, p: int, x: int, q: int, y: int)
    ensures (p * m) * x + (q * m) * y == (m * p) * x + (m * q) * y == m * (p * x + q * y)
  {
  }

  lemma CancelFactor(u: int, v: int, g: nat)
    requires g > 0 && u * g == v * g
    ensures u == v
  {
    assert (u - v) * g == 0;
  }

  /** The fold `lcm_of_array` computes when nothing overflows. */
  function LcmAll(s: seq<nat>): nat
    requires |s| > 0
    requires forall i | 0 <= i < |s| :: s[i] > 0
  {
    if |s| == 1 then s[0] else Lcm(LcmAll(s[..|s| - 1]), s[|s| - 1])
  }

  ghost predicate CommonMultipleOf(m: nat, s: seq<nat>) {
    forall i | 0 <= i < |s| :: Divides(s[i], m)
  }

  ghost predicate IsLeastCommonMultiple(m: nat, s: seq<nat>) {
    && m > 0
    && CommonMultipleOf(m, s)
    && forall c: nat | CommonMultipleOf(c, s) :: Divides(m, c)
  }

  lemma {:induction false} LcmAllIsLeast(s: seq<nat>)
    requires |s| > 0
    requires forall i | 0 <= i < |s| :: s[i] > 0
    ensures IsLeastCommonMultiple(LcmAll(s), s)
  {
    var n := |s| - 1;
    if n == 0 {
      DividesMultiple(s[0], 1);
    } else {
      var l, m := LcmAll(s[..n]), LcmAll(s);
      LcmAllIsLeast(s[..n]);
      LcmIsLeast(l, s[n]);
      forall i | 0 <= i < |s|
        ensures Divides(s[i], m)
      {
        if i < n {
          assert s[..n][i] == s[i];
          DividesTransitive(s[i], l, m);
        }
      }
      forall c: nat | CommonMultipleOf(c, s)
        ensures Divides(m, c)
      {
        assert CommonMultipleOf(c, s[..n]);
        assert Divides(s[n], c);
      }
    }
  }

  /** The accumulator never exceeds the final value, so if that fits in a word every step does. */
  lemma {:induction false} PrefixesFit(s: seq<nat>, i: nat)
    requires 1 <= i <= |s|
    requires forall k | 0 <= k < |s| :: s[k] > 0
    ensures LcmAll(s[..i]) <= LcmAll(s)
    decreases |s|
  {
    if i == |s| {
      assert s[..i] == s;
    } else {
      var n := |s| - 1;
      PrefixesFit(s[..n], i);
      assert s[..n][..i] == s[..i];
      LcmAllIsLeast(s[..n]);
      LcmIsLeast(LcmAll(s[..n]), s[n]);
    }
  }

  /** `lcm` on 64-bit words: the division comes first, the product wraps. */
  function Lcm64(a: u64, b: u64): u64
    requires a != 0 || b != 0
  {
    GcdPositive(a, b);
    Wrap((a / Gcd(a, b)) * b)
  }

  /**
   * `lcm_of_array`: the word returned is the least common multiple exactly when that value
   * fits in 64 bits, so no earlier step of the loop can have overflowed in that case.
   */
  method LcmOfArray(arr: array<u64>, n: nat) returns (ans: u64)
    requires 1 <= n <= arr.Length
    requires forall i | 0 <= i < n :: arr[i] > 0
    ensures IsLeastCommonMultiple(ans, arr[..n]) <==> LcmAll(arr[..n]) < TWO64
    ensures LcmAll(arr[..n]) < TWO64 ==> ans == LcmAll(arr[..n])
  {
    ans := arr[0];
    for i := 1 to n
      invariant LcmAll(arr[..i]) < TWO64 ==> ans == LcmAll(arr[..i])
    {
      assert arr[..i + 1][..i] == arr[..i];
      LcmAllIsLeast(arr[..i]);
      LcmIsLeast(LcmAll(arr[..i]), arr[i]);
      ans := Lcm64(ans, arr[i]);
    }
    LcmAllIsLeast(arr[..n]);
    if IsLeastCommonMultiple(ans, arr[..n]) {
      DivisorAtMost(LcmAll(arr[..n]), ans);
    }
  }
}

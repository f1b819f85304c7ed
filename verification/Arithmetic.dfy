/** Division with remainder. */
module Arithmetic {
  lemma MultipleIsFar(d: nat, k: int)
    requires k != 0
    ensures d * k >= d || d * k <= -1 * d
  {
    if k > 0 {
      assert d * k == d + d * (k - 1);
    } else {
      assert d * k == d * (k + 1) - d;
    }
  }

  /** Whatever has the form of a division is the division. */
  lemma DivisionIsUnique(n: nat, d: nat, q: nat, r: nat)
    requires r < d && n == d * q + r
    ensures n / d == q && n % d == r
  {
    var k := n / d - q;
    assert d * k == r - n % d;
    if k != 0 {
      MultipleIsFar(d, k);
    }
  }

  lemma RemainderOfNear(n: int, d: nat)
    requires 0 <= n + d && n < d
    ensures n % d == if n >= 0 then n else n + d
  {
    var k := n / d;
    assert n == d * k + n % d;
    if n < 0 && k != -1 {
      assert d * (k + 1) == d * k + d;
      MultipleIsFar(d, k + 1);
    } else if n >= 0 && k != 0 {
      MultipleIsFar(d, k);
    }
  }

  lemma MultiplyBoth(a: int, b: int, k: nat)
    requires a <= b
    ensures a * k <= b * k
  {
  }

  lemma Compose(n: nat, a: nat, b: nat, m: nat, q: nat, r: nat, s: nat)
    requires n == m * a + s && m == b * q + r && r < b && s < a
    ensures n == a * b * q + (r * a + s) && r * a + s < a * b
  {
    var k := b * q;
    assert (k + r) * a == k * a + r * a;
    assert k * a == a * b * q;
    MultiplyBoth(r + 1, b, a);
    assert (r + 1) * a == r * a + a;
  }

  /** Dividing twice is dividing by the product. */
  lemma DivideTwice(n: nat, a: nat, b: nat)
    requires a > 0 && b > 0
    ensures n / a / b == n / (a * b)
  {
    var m := n / a;
    Compose(n, a, b, m, m / b, m % b, n % a);
    DivisionIsUnique(n, a * b, m / b, m % b * a + n % a);
  }
}

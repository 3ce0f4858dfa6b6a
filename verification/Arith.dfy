/** Division with remainder, one step at a time. */
module Arith {
  /** The remainder is the only number of its range that differs by a multiple. */
  lemma RemainderIsUnique(a: int, q: int, r: int, p: int)
    requires p > 0 && a == q * p + r && 0 <= r < p
    ensures a % p == r && a / p == q
  {
    var d := a / p - q;
    assert a == (a / p) * p + a % p;
    assert d * p == r - a % p by {
      assert (a / p - q) * p == (a / p) * p - q * p;
    }
    MulMono(1, if d >= 1 then d else 1, p);
    MulMono(if d <= -1 then d else -1, -1, p);
    assert d == 0;
  }

  lemma MulMono(a: int, b: int, p: int)
    requires a <= b && p >= 0
    ensures a * p <= b * p
  {
    assert (b - a) * p >= 0;
    assert (b - a) * p == b * p - a * p;
  }

  lemma Twice(a: int, b: int)
    ensures (2 * a) * b == 2 * (a * b)
  {
  }

  lemma DivMod(a: nat, p: nat) returns (q: nat, r: nat)
    requires p > 0
    ensures a == q * p + r && r < p && r == a % p
  {
    q, r := a / p, a % p;
  }

  lemma DivideTwice(x: nat, k: nat, m: nat)
    requires k > 0 && m > 0
    ensures k * m > 0 && x / k / m == x / (k * m)
  {
    var q, r := x / k, x % k;
    var a, s := q / m, q % m;
    MulMono(1, k, m);
    MulMono(s, m - 1, k);
    assert x == q * k + r && q == a * m + s;
    assert (a * m + s) * k == a * (k * m) + s * k;
    assert (m - 1) * k == k * m - k;
    assert s * k >= 0;
    RemainderIsUnique(x, a, s * k + r, k * m);
  }

  /** Adding a multiple changes no remainder. */
  lemma ModShift(a: int, k: int, p: int)
    requires p > 0
    ensures (a + k * p) % p == a % p
  {
    var q, r := a / p, a % p;
    assert a == q * p + r;
    assert a + k * p == (q + k) * p + r by { assert (q + k) * p == q * p + k * p; }
    RemainderIsUnique(a + k * p, q + k, r, p);
  }
}

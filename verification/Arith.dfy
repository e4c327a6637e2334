/** Division facts the solver needs to be told. */
module Arith {

  lemma DivMod(n: int, m: int, q: int, r: int)
    requires 0 <= r < m && n == q * m + r
    ensures n / m == q && n % m == r
  {
    var d := n / m - q;
    assert d * m == r - n % m && -m < r - n % m < m;
    assert d >= 1 ==> d * m >= m;
    assert d <= -1 ==> d * m <= -m;
  }

  lemma ModAdd(a: int, b: int, m: int)
    requires m > 0
    ensures (a % m + b) % m == (a + b) % m
  {
    var q, r := (a % m + b) / m, (a % m + b) % m;
    assert a + b == (a / m + q) * m + r;
    DivMod(a + b, m, a / m + q, r);
  }

  lemma ModShift(a: int, k: int, m: int)
    requires m > 0
    ensures (k * m + a) % m == a % m
  {
    assert k * m + a == (k + a / m) * m + a % m;
    DivMod(k * m + a, m, k + a / m, a % m);
  }
}

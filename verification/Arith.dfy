/** Division facts that the solver needs spelled out. */
module Arith {
  lemma MulBound(n: int, t: int)
    requires n > 0
    ensures t >= 1 ==> n * t >= n
    ensures t <= -1 ==> n * t <= -n
  {
  }

  lemma Distrib(n: int, a: int, b: int)
    ensures n * a - n * b == n * (a - b)
  {
  }

  /** Quotient and remainder are unique. */
  lemma DivMod(x: int, n: int, q: int, r: int)
    requires n > 0 && x == n * q + r && 0 <= r < n
    ensures x / n == q && x % n == r
  {
    var q', r' := x / n, x % n;
    assert x == n * q' + r' && 0 <= r' < n;
    Distrib(n, q, q');
    MulBound(n, q - q');
  }

  lemma Wraps(x: nat, n: nat)
    requires x < n
    ensures (x + 1) % n == if x == n - 1 then 0 else x + 1
  {
    if x == n - 1 { DivMod(n, n, 1, 0); } else { DivMod(x + 1, n, 0, x + 1); }
  }

  /** Stepping a counter modulo n. */
  lemma NextMod(d: nat, n: nat)
    requires d >= 1 && n >= 1
    ensures ((d - 1) % n + 1) % n == d % n
  {
    var q, r := (d - 1) / n, (d - 1) % n;
    assert d - 1 == n * q + r;
    if r + 1 == n {
      assert n * (q + 1) == n * q + n;
      DivMod(d, n, q + 1, 0);
      DivMod(n, n, 1, 0);
    } else {
      DivMod(d, n, q, r + 1);
      DivMod(r + 1, n, 0, r + 1);
    }
  }
}

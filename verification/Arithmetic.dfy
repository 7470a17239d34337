/** Products, quotients and powers of two, step by step. */
module Arithmetic {
  import opened Wrappers

  lemma MulMono(a: nat, b: nat, c: nat, d: nat)
    requires a <= b && c <= d
    ensures a * c <= b * d
  {
    assert a * c <= b * c;
    assert b * c <= b * d;
  }

  lemma Distribute(x: int, y: int, m: int)
    ensures (x + y) * m == x * m + y * m
  {
  }

  lemma Associate(x: int, y: int, z: int)
    ensures x * y * z == x * (y * z)
  {
  }

  lemma AwayFromZero(d: int, m: nat)
    ensures d >= 1 ==> d * m >= m
    ensures d <= -1 ==> d * m + m <= 0
  {
    if d >= 1 {
      MulMono(1, d, m, m);
    } else if d <= -1 {
      MulMono(1, -d, m, m);
    }
  }

  lemma RemainderUnique(a: nat, m: nat, q: nat, rest: nat)
    requires a == q * m + rest && rest < m
    ensures a % m == rest
  {
    var k := a / m;
    assert a == k * m + a % m;
    Distribute(k - q, q, m);
    AwayFromZero(k - q, m);
  }

  lemma {:induction false} Pow2Grows(a: nat, b: nat)
    requires a <= b
    ensures Pow2(a) <= Pow2(b)
    decreases b
  {
    if a < b {
      Pow2Grows(a, b - 1);
    }
  }

  lemma {:induction false} Pow2Sum(a: nat, b: nat)
    ensures Pow2(a + b) == Pow2(a) * Pow2(b)
  {
    if a > 0 {
      Pow2Sum(a - 1, b);
    }
  }

  lemma DivMod(a: nat, m: nat, q: nat, rest: nat)
    requires a == q * m + rest && rest < m
    ensures a / m == q && a % m == rest
  {
    var k := a / m;
    RemainderUnique(a, m, q, rest);
    QuotientAndRest(a, m);
    Distribute(k - q, q, m);
    AwayFromZero(k - q, m);
  }

  lemma QuotientAndRest(a: nat, m: nat)
    requires m > 0
    ensures a == a / m * m + a % m
  {
  }
}

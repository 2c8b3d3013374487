/** Minimum, maximum, and facts about remainders that the solver does not find by itself. */
module Arithmetic {
  function Min(a: int, b: int): int { if a < b then a else b }

  function Max(a: int, b: int): (r: int)
    ensures r >= a && r >= b && (r == a || r == b)
  {
    if a < b then b else a
  }

  lemma RemainderPlus(a: int, m: nat)
    requires m > 0
    ensures (a + m) % m == a % m
  {
    var q, r := a / m, a % m;
    assert a + m == m * (q + 1) + r;
    RemainderUnique(a + m, m, q + 1, r);
  }

  lemma RemainderUnique(a: int, m: nat, q: int, r: int)
    requires m > 0 && 0 <= r < m && a == m * q + r
    ensures a % m == r && a / m == q
  {
    var d := a / m - q;
    assert m * d == r - a % m;
    if d >= 1 {
      TimesAtLeast(m, d);
      assert false;
    } else if d <= -1 {
      TimesAtLeast(m, -d);
      assert false;
    }
  }

  lemma TimesAtLeast(m: nat, d: int)
    requires d >= 1
    ensures m * d >= m && m * -d == -(m * d)
  {
  }

  lemma SmallRemainder(a: nat, m: nat)
    requires 0 < a < m
    ensures a % m == a
  {
  }

  lemma SubtractedRemainder(n: nat, m: nat)
    requires m > 0
    ensures n % m <= n && (n - n % m) % m == 0
  {
    var q, r := n / m, n % m;
    assert n - r == m * q + 0;
    NotNegative(m, q);
    RemainderUnique(n - r, m, q, 0);
  }

  lemma NotNegative(m: nat, q: nat)
    ensures m * q >= 0
  {
  }

  lemma RemainderSubtracted(n: nat, m: nat, s: nat)
    requires s < m && s <= n && (n - s) % m == 0
    ensures s == n % m
  {
    var q := (n - s) / m;
    assert n == m * q + s;
    RemainderUnique(n, m, q, s);
  }

  lemma SameRemainder(n: nat, m: nat, s: nat)
    requires s < m
    ensures s == n % m <==> s <= n && (n - s) % m == 0
  {
    SubtractedRemainder(n, m);
    if s <= n && (n - s) % m == 0 {
      RemainderSubtracted(n, m, s);
    }
  }
}

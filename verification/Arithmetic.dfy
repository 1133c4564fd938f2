/** Facts about remainders that the modules with wrapping arithmetic share. */
module Arithmetic {

  lemma MultipleApart(m: nat, d: int)
    requires m > 0
    ensures d > 0 ==> m * d >= m
    ensures d < 0 ==> m * d <= 0 - m
  {
  }

  lemma QuotientUnique(a: int, m: nat, q: int, r: nat)
    requires r < m && a == m * q + r
    ensures a % m == r
  {
    assert m * (q - a / m) == a % m - r;
    MultipleApart(m, q - a / m);
  }

  lemma ModStep(a: int, m: nat)
    requires m > 0
    ensures (a + m) % m == a % m
  {
    var q, r := a / m, a % m;
    assert a + m == m * (q + 1) + r;
    QuotientUnique(a + m, m, q + 1, r);
  }

  lemma {:induction false} ModShift(a: int, k: int, m: nat)
    requires m > 0
    ensures (a + m * k) % m == a % m
    decreases if k < 0 then -k else k
  {
    if k > 0 {
      ModShift(a, k - 1, m);
      ModStep(a + m * (k - 1), m);
      assert a + m * (k - 1) + m == a + m * k;
    } else if k < 0 {
      ModShift(a, k + 1, m);
      ModStep(a + m * k, m);
      assert a + m * k + m == a + m * (k + 1);
    }
  }

  /** Different numbers less than `m` apart have different remainders. */
  lemma NearbyRemainders(x: nat, y: nat, m: nat)
    requires x < y < x + m
    ensures x % m != y % m
  {
    if x % m == y % m {
      assert y - x == m * (y / m - x / m);
      MultipleApart(m, y / m - x / m);
    }
  }
}

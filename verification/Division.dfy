/** Quotients and remainders by a number that is not a literal. */
module Division {
  lemma AtLeastOneTimes(a: int, c: nat)
    requires a >= 1
    ensures a * c >= c
  {
    assert a * c == (a - 1) * c + c;
  }

  lemma Regroup(a: nat, k: nat, c: nat)
    ensures a * (k * c) == k * (a * c)
  {
  }

  lemma Divide(x: nat, c: nat)
    requires c > 0
    ensures x == (x / c) * c + x % c
  {
  }

  /** Quotient and remainder are unique. */
  lemma DivisionIsUnique(q: int, r: int, p: int, s: int, c: nat)
    requires q * c + r == p * c + s && 0 <= r < c && 0 <= s < c
    ensures q == p && r == s
  {
    assert (q - p) * c == s - r && (p - q) * c == r - s;
    if q > p {
      AtLeastOneTimes(q - p, c);
    }
    if p > q {
      AtLeastOneTimes(p - q, c);
    }
  }

  lemma QuotientIs(n: nat, q: nat, r: nat, c: nat)
    requires r < c && n == q * c + r
    ensures n / c == q && n % c == r
  {
    Divide(n, c);
    DivisionIsUnique(q, r, n / c, n % c, c);
  }

  lemma QuotientAtLeast(n: nat, k: nat, c: nat)
    requires c > 0 && n >= k * c
    ensures n / c >= k
  {
    Divide(n, c);
    assert (k - n / c) * c == k * c - n / c * c;
    if k - n / c >= 1 {
      AtLeastOneTimes(k - n / c, c);
    }
  }

  /** Counting on either stays in the group of c or starts the next one. */
  lemma NextInGroup(i: nat, c: nat)
    requires c > 1
    ensures (i + 1) % c != 0 ==> (i + 1) / c == i / c && (i + 1) % c == i % c + 1
    ensures (i + 1) % c == 0 ==> (i + 1) / c == i / c + 1 && i % c == c - 1
  {
    Divide(i, c);
    if i % c + 1 < c {
      QuotientIs(i + 1, i / c, i % c + 1, c);
    } else {
      assert (i / c + 1) * c == i / c * c + c;
      QuotientIs(i + 1, i / c + 1, 0, c);
    }
  }
}

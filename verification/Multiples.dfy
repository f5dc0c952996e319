/** Multiples and remainders. */
module Multiples {

  lemma TimesNat(m: nat, n: nat)
    ensures m * n >= 0
  {
  }

  lemma {:induction false} MultipleMod(n: nat, k: nat)
    requires n > 0
    ensures n * k % n == 0
  {
    if k > 0 {
      MultipleMod(n, k - 1);
      NextMod(n * (k - 1), n);
      assert n * k == n * (k - 1) + n;
    }
  }

  lemma NextMod(a: nat, n: nat)
    requires n > 0
    ensures (a + n) % n == a % n
  {
    var q := a / n;
    assert a + n == n * (q + 1) + a % n by {
      assert n * (q + 1) == n * q + n;
    }
    ModUnique(a + n, n, q + 1, a % n);
  }

  lemma ModUnique(a: nat, n: nat, q: nat, r: nat)
    requires n > 0 && a == n * q + r && r < n
    ensures a % n == r && a / n == q
  {
    var q1, r1 := a / n, a % n;
    assert n * (q - q1) == r1 - r by {
      assert n * (q - q1) == n * q - n * q1;
    }
    if q > q1 {
      TimesPositive(n, q - q1);
    } else if q < q1 {
      TimesPositive(n, q1 - q);
    }
  }

  lemma TimesPositive(n: nat, k: nat)
    requires k > 0
    ensures n * k >= n
  {
    assert n * k == n * (k - 1) + n;
    TimesNat(n, k - 1);
  }

  /** From one multiple the next is no further than any other. */
  lemma NextMultiple(a: nat, end: nat, n: nat)
    requires n > 0 && a % n == 0 && end % n == 0 && a < end
    ensures a + n <= end && (a + n) % n == 0
  {
    NextMod(a, n);
    var p, q := a / n, end / n;
    assert end - a == n * (q - p);
    if q <= p {
      TimesNat(n, p - q);
    } else {
      TimesPositive(n, q - p);
    }
  }

  /** Counting down in steps ends at zero. */
  lemma StepsLeft(a: nat, n: nat)
    requires n > 0 && a > 0 && a % n == 0
    ensures a >= n && (a - n) % n == 0
  {
    NextMultiple(0, a, n);
    NextMod(a - n, n);
  }

  /** A multiple of a larger size is one of a smaller size that divides it. */
  lemma FinerMultiple(a: nat, n: nat, m: nat)
    requires n > 0 && m > 0 && n * m > 0 && a % (n * m) == 0
    ensures a % n == 0
  {
    var k := a / (n * m);
    assert a == n * m * k;
    assert n * m * k == n * (m * k);
    TimesNat(m, k);
    MultipleMod(n, m * k);
  }

  lemma TimesMonotone(n: nat, a: nat, b: nat)
    requires a <= b
    ensures n * a <= n * b
  {
    assert n * b == n * a + n * (b - a);
    TimesNat(n, b - a);
  }

  /** Below a product the quotient is below the other factor. */
  lemma QuotientBelow(a: nat, n: nat, m: nat)
    requires n > 0 && a < n * m
    ensures a / n < m
  {
    if a / n >= m {
      TimesMonotone(n, m, a / n);
    }
  }
}

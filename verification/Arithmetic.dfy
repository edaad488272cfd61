/** Facts about multiplication, division and powers of two. */
module Arithmetic {
  lemma MulSub(n: int, x: int, y: int)
    ensures n * (x - y) == n * x - n * y
  {}

  lemma MulAtLeast(n: nat, d: nat)
    requires d >= 1
    ensures n * d >= n
  {}

  lemma SameQuotient(a: int, b: int, qa: int, qb: int, r: int, n: nat)
    requires a == n * qa + r && b == n * qb + r && a <= b < a + n
    ensures a == b
  {
    MulSub(n, qb, qa);
    if qb > qa { MulAtLeast(n, qb - qa); }
    if qb < qa { MulSub(n, qa, qb); MulAtLeast(n, qa - qb); }
  }

  /** Two numbers of one window of length `n` that are congruent modulo `n` are equal. */
  lemma CongruentInWindow(a: nat, b: nat, lo: nat, n: nat)
    requires n > 0 && lo <= a < lo + n && lo <= b < lo + n && a % n == b % n
    ensures a == b
  {
    if a <= b { SameQuotient(a, b, a / n, b / n, a % n, n); }
    else { SameQuotient(b, a, b / n, a / n, a % n, n); }
  }

  /** Quotient and remainder are determined by `a == d * q + r` and `r < d`. */
  lemma DivModUnique(a: nat, d: nat, q: nat, r: nat)
    requires d > 0 && a == d * q + r && r < d
    ensures a / d == q && a % d == r
  {
    var q' := a / d;
    assert a == d * q' + a % d;
    if q' > q { MulSub(d, q', q); MulAtLeast(d, q' - q); }
    if q > q' { MulSub(d, q, q'); MulAtLeast(d, q - q'); }
  }

  /** Dividing by `2 * d` is halving and then dividing by `d`. */
  lemma HalveDivMod(a: nat, d: nat, p: nat)
    requires d > 0 && p == 2 * d
    ensures a / p == (a / 2) / d
    ensures a % p == 2 * ((a / 2) % d) + a % 2
  {
    var h := a / 2;
    assert h == d * (h / d) + h % d;
    DivModUnique(a, p, h / d, 2 * (h % d) + a % 2);
  }

  /** Quotients and remainders by a number and by a multiple of it. */
  lemma Digits(b: nat, e: nat, u': nat, u: nat)
    requires e > 0 && u' > 0 && u == e * u'
    ensures u > 0 && b / u == b / u' / e && b % u / u' == b / u' % e && b % u % u' == b % u'
  {
    hide *;
    var q := b / u';
    DigitsOf(b, e, u', u, q, b % u', q / e, q % e);
  }

  lemma DigitsOf(b: nat, e: nat, u': nat, u: nat, q: nat, r: nat, h: nat, d: nat)
    requires u > 0 && u == e * u' && b == u' * q + r && q == e * h + d && r < u' && d < e
    ensures b / u == h && b % u / u' == d && b % u % u' == r
  {
    DigitsSplit(u', e, h, d, u, r);
    DivModUnique(b, u, h, u' * d + r);
    DivModUnique(u' * d + r, u', d, r);
  }

  lemma DigitsSplit(u': nat, e: nat, h: nat, d: nat, u: nat, r: nat)
    requires u == e * u' && d < e && r < u'
    ensures u' * (e * h + d) == u * h + u' * d && u' * d + r < u
  {
    assert u' * (e * h) == u * h;
    MulSub(u', e, d);
    MulAtLeast(u', e - d);
  }

  function Quot(a: nat, b: nat): nat
    requires b > 0
  {
    a / b
  }
}

/** Divisors, as far as the period of a cyclic redundancy check needs them. */
module Primes {
  import Words

  predicate Divides(d: nat, n: nat)
    requires d > 0
  { n % d == 0 }

  lemma {:induction false} DividesIs(d: nat, n: nat, q: nat)
    requires d > 0 && n == d * q
    ensures Divides(d, n)
  {
    Words.QuotientIs(n, d, q, 0);
  }

  ghost predicate Prime(p: nat) { p > 1 && forall e: nat | 1 < e < p :: !Divides(e, p) }

  // Products.

  lemma {:induction false} Product(a: nat, b: nat, c: nat, d: nat)
    requires a <= b && c <= d
    ensures a * c <= b * d
  {
    assert a * c <= b * c;
    assert b * c <= b * d;
  }

  lemma {:induction false} Cancel(c: nat, a: nat, b: nat)
    requires c > 0 && c * a == c * b
    ensures a == b
  {
    Words.QuotientIs(c * a, c, a, 0);
    Words.QuotientIs(c * b, c, b, 0);
  }

  lemma {:induction false} NotNegative(c: nat, x: int)
    requires c > 0 && c * x >= 0
    ensures x >= 0
  {}

  lemma {:induction false} MoreThanOne(e: nat, f: nat)
    requires e * f > e
    ensures f > 1
  {
    assert f <= 1 ==> e * f <= e;
  }

  lemma {:induction false} AtMost(e: nat, f: nat, n: nat)
    requires e > 0 && e * f == n
    ensures f <= n
  {
    Product(1, e, f, f);
  }

  lemma {:induction false} SmallFactor(e: nat, f: nat, k: nat)
    requires e >= k && e * f < k * k
    ensures f < k
  {
    if f >= k { Product(k, e, k, f); }
  }

  /** What divides a product and one part of the other divides what is left. */
  lemma {:induction false} LeftOver(p: nat, a: nat, q: nat, r: nat, b: nat)
    requires p > 0 && Divides(p, a * b) && p == a * q + r
    ensures Divides(p, r * b)
  {
    var k := a * b / p;
    assert a * b == p * k;
    assert (a * q + r) * b == q * (a * b) + r * b;
    assert q * (p * k) == p * (q * k);
    assert r * b == p * (b - q * k);
    NotNegative(p, b - q * k);
    DividesIs(p, r * b, b - q * k);
  }

  /** A prime that divides a product divides a factor. */
  lemma {:induction false} PrimeDivides(p: nat, a: nat, b: nat)
    requires Prime(p) && 0 < a < p && Divides(p, a * b)
    ensures Divides(p, b)
    decreases a
  {
    if a > 1 {
      assert !Divides(a, p);
      LeftOver(p, a, p / a, p % a, b);
      PrimeDivides(p, p % a, b);
    } else {
      assert a * b == b;
    }
  }

  lemma {:induction false} Reduced(p: nat, a: nat, b: nat)
    requires p > 0 && Divides(p, a * b)
    ensures Divides(p, a % p * b)
  {
    var r, q, k := a % p, a / p, a * b / p;
    assert a * b == p * k;
    assert (p * q + r) * b == p * (q * b) + r * b;
    assert r * b == p * (k - q * b);
    NotNegative(p, k - q * b);
    DividesIs(p, r * b, k - q * b);
  }

  lemma {:induction false} PrimeFactor(p: nat, a: nat, b: nat)
    requires Prime(p) && Divides(p, a * b)
    ensures Divides(p, a) || Divides(p, b)
  {
    Reduced(p, a, b);
    if a % p > 0 { PrimeDivides(p, a % p, b); }
  }

  // Finding primes.

  /** No number from 2 to k - 1 divides n. */
  predicate NoneBelow(n: nat, k: nat) { k <= 2 || (n % (k - 1) != 0 && NoneBelow(n, k - 1)) }

  lemma {:induction false} NoneBelowIs(n: nat, k: nat, e: nat)
    requires NoneBelow(n, k) && 1 < e < k
    ensures !Divides(e, n)
  {
    if e < k - 1 { NoneBelowIs(n, k - 1, e); }
  }

  /** Trying divisors up to the square root is enough. */
  lemma {:induction false} PrimeByTrial(n: nat, k: nat)
    requires n > 1 && NoneBelow(n, k) && n < k * k
    ensures Prime(n)
  {
    forall e: nat | 1 < e < n ensures !Divides(e, n) { NoDivisor(n, k, e); }
  }

  lemma {:induction false} NoDivisor(n: nat, k: nat, e: nat)
    requires 1 < e < n && NoneBelow(n, k) && n < k * k
    ensures !Divides(e, n)
  {
    if e < k {
      NoneBelowIs(n, k, e);
    } else if Divides(e, n) {
      var f := OtherFactor(n, k, e);
      NoneBelowIs(n, k, f);
    }
  }

  lemma {:induction false} OtherFactor(n: nat, k: nat, e: nat) returns (f: nat)
    requires 1 < e < n && k <= e && n < k * k && Divides(e, n)
    ensures 1 < f < k && Divides(f, n)
  {
    f := n / e;
    assert n == e * f;
    MoreThanOne(e, f);
    SmallFactor(e, f, k);
    DividesIs(f, n, e);
  }

  // The divisors of a product of two primes.

  lemma {:induction false} FirstInOther(p: nat, q: nat, d: nat, h: nat)
    requires p > 0 && d > 0 && d * h == p * q && Divides(p, h)
    ensures Divides(d, q)
  {
    var k := h / p;
    assert h == p * k;
    assert d * (p * k) == p * (d * k);
    Cancel(p, d * k, q);
    DividesIs(d, q, k);
  }

  lemma {:induction false} FirstInThis(p: nat, q: nat, d: nat, h: nat)
    requires p > 0 && Prime(q) && d * h == p * q && h > 1 && Divides(p, d)
    ensures d == p
  {
    var k := d / p;
    assert d == p * k;
    assert (p * k) * h == p * (k * h);
    Cancel(p, k * h, q);
    assert h * k == q;
    assert k == 0 ==> h * k == 0;
    AtMost(k, h, q);
    DividesIs(h, q, k);
    assert h == q;
    assert q * 1 == q;
    Cancel(q, k, 1);
  }

  /** A proper divisor of the product divides one of the primes. */
  lemma {:induction false} DivisorsOf(p: nat, q: nat, d: nat)
    requires Prime(p) && Prime(q) && 0 < d < p * q && Divides(d, p * q)
    ensures Divides(d, p) || Divides(d, q)
  {
    var h := p * q / d;
    assert d * h == p * q;
    MoreThanOne(d, h);
    DividesIs(p, d * h, q);
    PrimeFactor(p, d, h);
    if Divides(p, h) {
      FirstInOther(p, q, d, h);
    } else {
      FirstInThis(p, q, d, h);
    }
  }

  // The greatest common divisor.

  function Gcd(a: nat, b: nat): (g: nat)
    requires a + b > 0
    ensures g > 0
    decreases b
  { if b == 0 then a else Gcd(b, a % b) }

  lemma {:induction false} SumDivides(g: nat, b: nat, c: nat, m: nat)
    requires g > 0 && Divides(g, b) && Divides(g, c)
    ensures Divides(g, b * m + c)
  {
    var s, t := b / g, c / g;
    assert b == g * s && c == g * t;
    assert g * s * m == g * (s * m);
    assert g * (s * m) + g * t == g * (s * m + t);
    DividesIs(g, b * m + c, s * m + t);
  }

  lemma {:induction false} GcdDivides(a: nat, b: nat)
    requires a + b > 0
    ensures Divides(Gcd(a, b), a) && Divides(Gcd(a, b), b)
    decreases b
  {
    if b > 0 {
      GcdDivides(b, a % b);
      SumDivides(Gcd(a, b), b, a % b, a / b);
      assert a == b * (a / b) + a % b;
    }
  }
}

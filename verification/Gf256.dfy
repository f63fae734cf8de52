/** The bytes of a fragment are elements of GF(2^8): addition is exclusive or, multiplication
    is reduced by the polynomial 0x11d of the erasure-code library. */
module Gf256 {
  import opened Gf2

  const ZERO: Byte := Zero(8)
  const ONE: Byte := Unit(8, 0)

  /** x^4 + x^3 + x^2 + 1, what remains of 0x11d below x^8. */
  const REDUCTION: Byte :=
    Cons(true, Cons(false, Cons(true, Cons(true, Cons(true, Cons(false, Cons(false, Cons(false, Nil))))))))

  function Plus(a: Byte, b: Byte): Byte { Add(a, b) }

  function Times(a: Byte, b: Byte): Byte { Mul(REDUCTION, a, b) }

  lemma {:induction false} PlusLaws(a: Byte, b: Byte, c: Byte, d: Byte)
    ensures Plus(a, b) == Plus(b, a)
    ensures Plus(Plus(a, b), c) == Plus(a, Plus(b, c))
    ensures Plus(Plus(a, b), Plus(c, d)) == Plus(Plus(a, c), Plus(b, d))
    ensures Plus(a, ZERO) == a && Plus(ZERO, a) == a && Plus(a, a) == ZERO
  {
    AddLaws(a, b);
    AddAssoc(a, b, c);
    Exchange(a, b, c, d);
    AddLaws(a, a);
  }

  lemma {:induction false} TimesLaws(a: Byte, b: Byte, c: Byte)
    ensures Times(a, b) == Times(b, a)
    ensures Times(Times(a, b), c) == Times(a, Times(b, c))
    ensures Times(a, Plus(b, c)) == Plus(Times(a, b), Times(a, c))
    ensures Times(ONE, a) == a && Times(a, ZERO) == ZERO
  {
    RingLaws(REDUCTION, a, b, c);
  }

  // Sums of finitely many bytes.

  function Sum(f: nat -> Byte, n: nat): Byte {
    if n == 0 then ZERO else Plus(Sum(f, n - 1), f(n - 1))
  }

  lemma {:induction false} SumEqual(f: nat -> Byte, g: nat -> Byte, n: nat)
    requires forall i: nat :: i < n ==> f(i) == g(i)
    ensures Sum(f, n) == Sum(g, n)
  {
    if n > 0 { SumEqual(f, g, n - 1); }
  }

  lemma {:induction false} SumZero(f: nat -> Byte, n: nat)
    requires forall i: nat :: i < n ==> f(i) == ZERO
    ensures Sum(f, n) == ZERO
  {
    if n > 0 {
      SumZero(f, n - 1);
      PlusLaws(ZERO, ZERO, ZERO, ZERO);
    }
  }

  lemma {:induction false} SumPlus(f: nat -> Byte, g: nat -> Byte, h: nat -> Byte, n: nat)
    requires forall i: nat :: i < n ==> h(i) == Plus(f(i), g(i))
    ensures Sum(h, n) == Plus(Sum(f, n), Sum(g, n))
  {
    if n == 0 {
      PlusLaws(ZERO, ZERO, ZERO, ZERO);
    } else {
      SumPlus(f, g, h, n - 1);
      PlusLaws(Sum(f, n - 1), Sum(g, n - 1), f(n - 1), g(n - 1));
    }
  }

  lemma {:induction false} SumTimes(c: Byte, f: nat -> Byte, h: nat -> Byte, n: nat)
    requires forall i: nat :: i < n ==> h(i) == Times(c, f(i))
    ensures Sum(h, n) == Times(c, Sum(f, n))
  {
    if n == 0 {
      TimesLaws(c, ZERO, ZERO);
    } else {
      SumTimes(c, f, h, n - 1);
      TimesLaws(c, Sum(f, n - 1), f(n - 1));
    }
  }

  /** A sum with a single term other than zero. */
  lemma {:induction false} SumSingle(f: nat -> Byte, n: nat, k: nat)
    requires k < n && forall i: nat :: i < n && i != k ==> f(i) == ZERO
    ensures Sum(f, n) == f(k)
  {
    PlusLaws(f(n - 1), ZERO, ZERO, ZERO);
    if k == n - 1 {
      SumZero(f, n - 1);
    } else {
      SumSingle(f, n - 1, k);
      PlusLaws(f(k), ZERO, ZERO, ZERO);
    }
  }

  /** Adding d to one term adds d to the sum. */
  lemma {:induction false} SumAdjust(f: nat -> Byte, g: nat -> Byte, n: nat, k: nat, d: Byte)
    requires k < n && g(k) == Plus(f(k), d)
    requires forall i: nat :: i < n && i != k ==> f(i) == g(i)
    ensures Sum(g, n) == Plus(Sum(f, n), d)
  {
    if k == n - 1 {
      SumEqual(f, g, k);
      PlusLaws(Sum(f, k), f(k), d, ZERO);
    } else {
      SumAdjust(f, g, n - 1, k, d);
      PlusLaws(Sum(f, n - 1), d, f(n - 1), ZERO);
      PlusLaws(d, f(n - 1), ZERO, ZERO);
      PlusLaws(Sum(f, n - 1), f(n - 1), d, ZERO);
    }
  }

  /** A double sum may be taken in either order. */
  lemma {:induction false} SumSwap(f: (nat, nat) -> Byte, n: nat, m: nat)
    ensures Sum((i: nat) => Sum((j: nat) => f(i, j), m), n) == Sum((j: nat) => Sum((i: nat) => f(i, j), n), m)
  {
    var byRow := (i: nat) => Sum((j: nat) => f(i, j), m);
    var byColumn := (j: nat) => Sum((i: nat) => f(i, j), n);
    if n == 0 {
      SumZero(byColumn, m);
    } else {
      SumSwap(f, n - 1, m);
      var fewer := (j: nat) => Sum((i: nat) => f(i, j), n - 1);
      var last := (j: nat) => f(n - 1, j);
      SumPlus(fewer, last, byColumn, m);
      SumEqual((i: nat) => Sum((j: nat) => f(i, j), m), byRow, n - 1);
      SumEqual(last, (j: nat) => f(n - 1, j), m);
    }
  }
}

/** Polynomials over GF(2), and the ring of remainders by x^n + p. A polynomial of degree
    below n is the list of its n coefficients, that of x^0 first. */
module Gf2 {
  datatype Poly = Nil | Cons(low: bool, rest: Poly)

  function Len(a: Poly): nat { if a.Nil? then 0 else 1 + Len(a.rest) }

  function Coefficient(a: Poly, i: nat): bool
    requires i < Len(a)
  { if i == 0 then a.low else Coefficient(a.rest, i - 1) }

  type Byte = b: Poly | Len(b) == 8
    witness Cons(false, Cons(false, Cons(false, Cons(false, Cons(false, Cons(false, Cons(false, Cons(false, Nil))))))))

  function Zero(n: nat): (z: Poly)
    ensures Len(z) == n
  { if n == 0 then Nil else Cons(false, Zero(n - 1)) }

  /** x^k, when k < n. */
  function Unit(n: nat, k: nat): (u: Poly)
    ensures Len(u) == n
  { if n == 0 then Nil else if k == 0 then Cons(true, Zero(n - 1)) else Cons(false, Unit(n - 1, k - 1)) }

  function Add(a: Poly, b: Poly): (s: Poly)
    requires Len(a) == Len(b)
    ensures Len(s) == Len(a)
  { if a.Nil? then Nil else Cons(a.low != b.low, Add(a.rest, b.rest)) }

  /** a, scaled by one coefficient. */
  function When(bit: bool, a: Poly): (s: Poly)
    ensures Len(s) == Len(a)
  { if bit then a else Zero(Len(a)) }

  /** The k low terms of a. */
  function Low(a: Poly, k: nat): (s: Poly)
    ensures Len(s) == Len(a)
  { if k == 0 || a.Nil? then Zero(Len(a)) else Cons(a.low, Low(a.rest, k - 1)) }

  /** x * a + carry, before reduction: the leading coefficient is lost. */
  function Shift(carry: bool, a: Poly): (s: Poly)
    ensures Len(s) == Len(a)
    decreases a
  { if a.Nil? then Nil else Cons(carry, Shift(a.low, a.rest)) }

  /** The leading coefficient. */
  function Top(a: Poly): bool
    requires a.Cons?
  { if a.rest.Nil? then a.low else Top(a.rest) }

  /** x * a modulo x^n + p */
  function TimesX(p: Poly, a: Poly): (s: Poly)
    requires a.Cons? && Len(a) == Len(p)
    ensures Len(s) == Len(a)
  { Add(Shift(false, a), When(Top(a), p)) }

  /** x^k * a modulo x^n + p */
  function Power(p: Poly, a: Poly, k: nat): (s: Poly)
    requires a.Cons? && Len(a) == Len(p)
    ensures Len(s) == Len(a)
  { if k == 0 then a else TimesX(p, Power(p, a, k - 1)) }

  /** a times the k low terms of b, modulo x^n + p */
  function MulLow(p: Poly, a: Poly, b: Poly, k: nat): (s: Poly)
    requires a.Cons? && Len(a) == Len(p) && k <= Len(b)
    ensures Len(s) == Len(a)
  { if k == 0 then Zero(Len(a)) else Add(When(Coefficient(b, k - 1), Power(p, a, k - 1)), MulLow(p, a, b, k - 1)) }

  /** a * b modulo x^n + p */
  function Mul(p: Poly, a: Poly, b: Poly): (s: Poly)
    requires a.Cons? && Len(a) == Len(p)
    ensures Len(s) == Len(a)
  { MulLow(p, a, b, Len(b)) }

  // Addition is that of a vector space over GF(2).

  lemma {:induction false} AddLaws(a: Poly, b: Poly)
    requires Len(a) == Len(b)
    ensures Add(a, b) == Add(b, a)
    ensures Add(a, a) == Zero(Len(a)) && Add(a, Zero(Len(a))) == a && Add(Zero(Len(a)), a) == a
  {
    if a.Cons? { AddLaws(a.rest, b.rest); }
  }

  lemma {:induction false} AddAssoc(a: Poly, b: Poly, c: Poly)
    requires Len(a) == Len(b) == Len(c)
    ensures Add(Add(a, b), c) == Add(a, Add(b, c))
  {
    if a.Cons? { AddAssoc(a.rest, b.rest, c.rest); }
  }

  lemma {:induction false} Exchange(a: Poly, b: Poly, c: Poly, d: Poly)
    requires Len(a) == Len(b) == Len(c) == Len(d)
    ensures Add(Add(a, b), Add(c, d)) == Add(Add(a, c), Add(b, d))
  {
    if a.Cons? { Exchange(a.rest, b.rest, c.rest, d.rest); }
  }

  lemma {:induction false} WhenAdd(bit: bool, a: Poly, b: Poly)
    requires Len(a) == Len(b)
    ensures When(bit, Add(a, b)) == Add(When(bit, a), When(bit, b))
  {
    AddLaws(Zero(Len(a)), Zero(Len(b)));
  }

  lemma {:induction false} WhenSum(p: bool, q: bool, a: Poly)
    ensures When(p != q, a) == Add(When(p, a), When(q, a))
  {
    AddLaws(a, Zero(Len(a)));
    AddLaws(a, a);
    AddLaws(Zero(Len(a)), Zero(Len(a)));
  }

  // Multiplication by x^k is linear.

  lemma {:induction false} ShiftAdd(i: bool, j: bool, a: Poly, b: Poly)
    requires Len(a) == Len(b)
    ensures Shift(i != j, Add(a, b)) == Add(Shift(i, a), Shift(j, b))
    ensures a.Cons? ==> Top(Add(a, b)) == (Top(a) != Top(b))
    decreases a
  {
    if a.Cons? { ShiftAdd(a.low, b.low, a.rest, b.rest); }
  }

  lemma {:induction false} ShiftZero(n: nat)
    ensures Shift(false, Zero(n)) == Zero(n)
    ensures n > 0 ==> !Top(Zero(n))
  {
    if n > 0 { ShiftZero(n - 1); }
  }

  lemma {:induction false} TimesXAdd(p: Poly, a: Poly, b: Poly)
    requires a.Cons? && Len(a) == Len(b) == Len(p)
    ensures TimesX(p, Add(a, b)) == Add(TimesX(p, a), TimesX(p, b))
  {
    ShiftAdd(false, false, a, b);
    WhenSum(Top(a), Top(b), p);
    Exchange(Shift(false, a), Shift(false, b), When(Top(a), p), When(Top(b), p));
  }

  lemma {:induction false} TimesXZero(p: Poly)
    requires p.Cons?
    ensures TimesX(p, Zero(Len(p))) == Zero(Len(p))
  {
    ShiftZero(Len(p));
    AddLaws(Zero(Len(p)), Zero(Len(p)));
  }

  lemma {:induction false} PowerAdd(p: Poly, a: Poly, b: Poly, k: nat)
    requires a.Cons? && Len(a) == Len(b) == Len(p)
    ensures Power(p, Add(a, b), k) == Add(Power(p, a, k), Power(p, b, k))
  {
    if k > 0 {
      PowerAdd(p, a, b, k - 1);
      TimesXAdd(p, Power(p, a, k - 1), Power(p, b, k - 1));
    }
  }

  lemma {:induction false} PowerZero(p: Poly, k: nat)
    requires p.Cons?
    ensures Power(p, Zero(Len(p)), k) == Zero(Len(p))
  {
    if k > 0 {
      PowerZero(p, k - 1);
      TimesXZero(p);
    }
  }

  lemma {:induction false} PowerPower(p: Poly, a: Poly, j: nat, k: nat)
    requires a.Cons? && Len(a) == Len(p)
    ensures Power(p, Power(p, a, j), k) == Power(p, a, j + k)
  {
    if k > 0 { PowerPower(p, a, j, k - 1); }
  }

  lemma {:induction false} PowerFirst(p: Poly, a: Poly, k: nat)
    requires a.Cons? && Len(a) == Len(p)
    ensures Power(p, TimesX(p, a), k) == Power(p, a, k + 1) == TimesX(p, Power(p, a, k))
  {
    if k > 0 { PowerFirst(p, a, k - 1); }
  }

  lemma {:induction false} PowerWhen(p: Poly, bit: bool, a: Poly, k: nat)
    requires a.Cons? && Len(a) == Len(p)
    ensures Power(p, When(bit, a), k) == When(bit, Power(p, a, k))
  {
    if !bit { PowerZero(p, k); }
  }

  // Multiplication is additive in both factors and commutes with x^k.

  lemma {:induction false} MulLowAddLeft(p: Poly, a: Poly, b: Poly, c: Poly, k: nat)
    requires a.Cons? && Len(a) == Len(b) == Len(p) && k <= Len(c)
    ensures MulLow(p, Add(a, b), c, k) == Add(MulLow(p, a, c, k), MulLow(p, b, c, k))
  {
    if k == 0 {
      AddLaws(Zero(Len(a)), Zero(Len(a)));
    } else {
      var j := k - 1;
      MulLowAddLeft(p, a, b, c, j);
      PowerAdd(p, a, b, j);
      WhenAdd(Coefficient(c, j), Power(p, a, j), Power(p, b, j));
      Exchange(When(Coefficient(c, j), Power(p, a, j)), When(Coefficient(c, j), Power(p, b, j)), MulLow(p, a, c, j), MulLow(p, b, c, j));
    }
  }

  lemma {:induction false} MulLowAddRight(p: Poly, a: Poly, b: Poly, c: Poly, k: nat)
    requires a.Cons? && Len(a) == Len(p) && k <= Len(b) == Len(c)
    ensures MulLow(p, a, Add(b, c), k) == Add(MulLow(p, a, b, k), MulLow(p, a, c, k))
  {
    if k == 0 {
      AddLaws(Zero(Len(a)), Zero(Len(a)));
    } else {
      var j, x := k - 1, Power(p, a, k - 1);
      MulLowAddRight(p, a, b, c, j);
      CoefficientAdd(b, c, j);
      WhenSum(Coefficient(b, j), Coefficient(c, j), x);
      Exchange(When(Coefficient(b, j), x), When(Coefficient(c, j), x), MulLow(p, a, b, j), MulLow(p, a, c, j));
    }
  }

  lemma {:induction false} MulLowPower(p: Poly, a: Poly, b: Poly, k: nat, e: nat)
    requires a.Cons? && Len(a) == Len(p) && k <= Len(b)
    ensures MulLow(p, Power(p, a, e), b, k) == Power(p, MulLow(p, a, b, k), e)
  {
    if k == 0 {
      PowerZero(p, e);
    } else {
      var j, x := k - 1, Power(p, a, k - 1);
      MulLowPower(p, a, b, j, e);
      PowerPower(p, a, e, j);
      PowerPower(p, a, j, e);
      PowerWhen(p, Coefficient(b, j), x, e);
      PowerAdd(p, When(Coefficient(b, j), x), MulLow(p, a, b, j), e);
    }
  }

  lemma {:induction false} MulZeros(p: Poly, a: Poly, b: Poly, k: nat)
    requires a.Cons? && Len(a) == Len(p) && k <= Len(b)
    ensures MulLow(p, Zero(Len(a)), b, k) == Zero(Len(a))
  {
    if k > 0 {
      MulZeros(p, a, b, k - 1);
      PowerZero(p, k - 1);
      AddLaws(Zero(Len(a)), Zero(Len(a)));
    }
  }

  lemma {:induction false} CoefficientZero(n: nat, i: nat)
    requires i < n
    ensures !Coefficient(Zero(n), i)
  {
    if i > 0 { CoefficientZero(n - 1, i - 1); }
  }

  lemma {:induction false} MulByZero(p: Poly, a: Poly, n: nat, k: nat)
    requires a.Cons? && Len(a) == Len(p) && k <= n
    ensures MulLow(p, a, Zero(n), k) == Zero(Len(a))
  {
    if k > 0 {
      MulByZero(p, a, n, k - 1);
      CoefficientZero(n, k - 1);
      AddLaws(Zero(Len(a)), Zero(Len(a)));
    }
  }

  lemma {:induction false} CoefficientAdd(a: Poly, b: Poly, i: nat)
    requires Len(a) == Len(b) && i < Len(a)
    ensures Coefficient(Add(a, b), i) == (Coefficient(a, i) != Coefficient(b, i))
  {
    if i > 0 { CoefficientAdd(a.rest, b.rest, i - 1); }
  }

  lemma {:induction false} ShiftUnit(n: nat, k: nat)
    requires 0 < k < n
    ensures Shift(false, Unit(n, k - 1)) == Unit(n, k) && !Top(Unit(n, k - 1))
  {
    if k == 1 {
      ShiftOne(n - 1);
    } else {
      ShiftUnit(n - 1, k - 1);
    }
  }

  lemma {:induction false} ShiftOne(n: nat)
    requires 0 < n
    ensures Shift(true, Zero(n)) == Unit(n, 0) && !Top(Zero(n))
  {
    ShiftZero(n - 1);
  }

  lemma {:induction false} PowerUnit(p: Poly, k: nat)
    requires k < Len(p)
    ensures Power(p, Unit(Len(p), 0), k) == Unit(Len(p), k)
  {
    if k > 0 {
      PowerUnit(p, k - 1);
      AddLaws(Unit(Len(p), k), Unit(Len(p), k));
      ShiftUnit(Len(p), k);
    }
  }

  lemma {:induction false} LowNext(a: Poly, k: nat)
    requires k < Len(a)
    ensures Low(a, k + 1) == Add(When(Coefficient(a, k), Unit(Len(a), k)), Low(a, k))
  {
    AddLaws(Zero(Len(a.rest)), Zero(Len(a.rest)));
    if k > 0 {
      LowNext(a.rest, k - 1);
    }
  }

  lemma {:induction false} LowAll(a: Poly)
    ensures Low(a, Len(a)) == a
  {
    if a.Cons? { LowAll(a.rest); }
  }

  /** One is a left unit: every polynomial is the sum of its terms. */
  lemma {:induction false} OneMulLow(p: Poly, b: Poly, k: nat)
    requires b.Cons? && Len(b) == Len(p) && k <= Len(b)
    ensures MulLow(p, Unit(Len(p), 0), b, k) == Low(b, k)
  {
    if k > 0 {
      OneMulLow(p, b, k - 1);
      PowerUnit(p, k - 1);
      LowNext(b, k - 1);
    }
  }

  lemma {:induction false} OneMul(p: Poly, b: Poly)
    requires b.Cons? && Len(b) == Len(p)
    ensures Mul(p, Unit(Len(p), 0), b) == b
  {
    OneMulLow(p, b, Len(b));
    LowAll(b);
  }

  /** The product of the k low terms of a with b, read off from either side. */
  lemma {:induction false} MulLowComm(p: Poly, a: Poly, b: Poly, k: nat)
    requires a.Cons? && Len(a) == Len(b) == Len(p) && k <= Len(a)
    ensures Mul(p, MulLow(p, Unit(Len(p), 0), a, k), b) == MulLow(p, b, a, k)
  {
    var one := Unit(Len(p), 0);
    if k == 0 {
      MulZeros(p, a, b, Len(b));
    } else {
      var j := k - 1;
      var term := When(Coefficient(a, j), Power(p, one, j));
      MulLowComm(p, a, b, j);
      MulLowAddLeft(p, term, MulLow(p, one, a, j), b, Len(b));
      if Coefficient(a, j) {
        MulLowPower(p, one, b, Len(b), j);
        OneMul(p, b);
      } else {
        MulZeros(p, a, b, Len(b));
      }
    }
  }

  lemma {:induction false} MulComm(p: Poly, a: Poly, b: Poly)
    requires a.Cons? && Len(a) == Len(b) == Len(p)
    ensures Mul(p, a, b) == Mul(p, b, a)
  {
    MulLowComm(p, a, b, Len(a));
    OneMul(p, a);
  }

  lemma {:induction false} MulLowAssoc(p: Poly, a: Poly, b: Poly, c: Poly, k: nat)
    requires a.Cons? && Len(a) == Len(b) == Len(c) == Len(p) && k <= Len(c)
    ensures MulLow(p, Mul(p, a, b), c, k) == Mul(p, a, MulLow(p, b, c, k))
  {
    if k == 0 {
      MulByZero(p, a, Len(a), Len(a));
    } else {
      var j := k - 1;
      var term := When(Coefficient(c, j), Power(p, b, j));
      MulLowAssoc(p, a, b, c, j);
      MulLowAddRight(p, a, term, MulLow(p, b, c, j), Len(a));
      if Coefficient(c, j) {
        MulComm(p, a, Power(p, b, j));
        MulLowPower(p, b, a, Len(a), j);
        MulComm(p, a, b);
      } else {
        MulByZero(p, a, Len(a), Len(a));
      }
    }
  }

  /** The remainders by x^n + p form a commutative ring. */
  lemma {:induction false} RingLaws(p: Poly, a: Poly, b: Poly, c: Poly)
    requires a.Cons? && Len(a) == Len(b) == Len(c) == Len(p)
    ensures Mul(p, a, b) == Mul(p, b, a)
    ensures Mul(p, Mul(p, a, b), c) == Mul(p, a, Mul(p, b, c))
    ensures Mul(p, a, Add(b, c)) == Add(Mul(p, a, b), Mul(p, a, c))
    ensures Mul(p, Unit(Len(p), 0), a) == a
    ensures Mul(p, a, Zero(Len(p))) == Zero(Len(p))
  {
    MulComm(p, a, b);
    MulLowAssoc(p, a, b, c, Len(c));
    MulLowAddRight(p, a, b, c, Len(a));
    OneMul(p, a);
    MulByZero(p, a, Len(p), Len(p));
  }
}

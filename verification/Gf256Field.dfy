/** Every byte other than zero has an inverse: the bytes are a field, which the inversion of matrices rests
    on. The proof follows the squaring map, which is linear: eight squarings are the identity, so that a^255
    is its own square, and zero and one are the only such bytes. */
module Gf256Field {
  import opened Gf2
  import opened Gf256

  // Bytes by their coefficients.

  datatype Vec = Vec(b0: bool, b1: bool, b2: bool, b3: bool, b4: bool, b5: bool, b6: bool, b7: bool)

  function Bit(v: Vec, k: nat): bool {
    if k == 0 then v.b0 else if k == 1 then v.b1 else if k == 2 then v.b2 else if k == 3 then v.b3
    else if k == 4 then v.b4 else if k == 5 then v.b5 else if k == 6 then v.b6 else v.b7
  }

  ghost predicate Is(a: Byte, v: Vec) { forall k: nat | k < 8 :: Coefficient(a, k) == Bit(v, k) }

  function Xor(u: Vec, v: Vec): Vec {
    Vec(u.b0 != v.b0, u.b1 != v.b1, u.b2 != v.b2, u.b3 != v.b3, u.b4 != v.b4, u.b5 != v.b5, u.b6 != v.b6, u.b7 != v.b7)
  }

  const NOTHING := Vec(false, false, false, false, false, false, false, false)
  const UNIT := Vec(true, false, false, false, false, false, false, false)
  const RED := Vec(true, false, true, true, true, false, false, false)

  function If(bit: bool, v: Vec): Vec { if bit then v else NOTHING }

  /** x * a, where x^8 is x^4 + x^3 + x^2 + 1. */
  function Doubled(v: Vec): Vec { Vec(v.b7, v.b0, v.b1 != v.b7, v.b2 != v.b7, v.b3 != v.b7, v.b4, v.b5, v.b6) }

  lemma {:induction false} VecOf(a: Byte) returns (v: Vec)
    ensures Is(a, v)
  {
    v := Vec(Coefficient(a, 0), Coefficient(a, 1), Coefficient(a, 2), Coefficient(a, 3),
             Coefficient(a, 4), Coefficient(a, 5), Coefficient(a, 6), Coefficient(a, 7));
  }

  lemma {:induction false} SameCoefficients(a: Poly, b: Poly)
    requires Len(a) == Len(b) && forall k: nat | k < Len(a) :: Coefficient(a, k) == Coefficient(b, k)
    ensures a == b
  {
    if a.Cons? {
      assert Coefficient(a, 0) == Coefficient(b, 0);
      forall k: nat | k < Len(a.rest) ensures Coefficient(a.rest, k) == Coefficient(b.rest, k) {
        assert Coefficient(a, k + 1) == Coefficient(b, k + 1);
      }
      SameCoefficients(a.rest, b.rest);
    }
  }

  lemma {:induction false} SameByte(a: Byte, b: Byte, v: Vec)
    requires Is(a, v) && Is(b, v)
    ensures a == b
  {
    SameCoefficients(a, b);
  }

  lemma {:induction false} SameVec(a: Byte, u: Vec, v: Vec)
    requires Is(a, u) && Is(a, v)
    ensures u == v
  {
    assert Bit(u, 0) == Bit(v, 0) && Bit(u, 1) == Bit(v, 1) && Bit(u, 2) == Bit(v, 2) && Bit(u, 3) == Bit(v, 3);
    assert Bit(u, 4) == Bit(v, 4) && Bit(u, 5) == Bit(v, 5) && Bit(u, 6) == Bit(v, 6) && Bit(u, 7) == Bit(v, 7);
  }

  lemma {:induction false} XorBit(u: Vec, v: Vec, k: nat)
    requires k < 8
    ensures Bit(Xor(u, v), k) == (Bit(u, k) != Bit(v, k))
  {
    if k < 4 { XorLow(u, v, k); } else { XorHigh(u, v, k); }
  }

  lemma {:induction false} XorLow(u: Vec, v: Vec, k: nat)
    requires k < 4
    ensures Bit(Xor(u, v), k) == (Bit(u, k) != Bit(v, k))
  {}

  lemma {:induction false} XorHigh(u: Vec, v: Vec, k: nat)
    requires 4 <= k < 8
    ensures Bit(Xor(u, v), k) == (Bit(u, k) != Bit(v, k))
  {}

  lemma {:induction false} XorIs(a: Byte, b: Byte, u: Vec, v: Vec)
    requires Is(a, u) && Is(b, v)
    ensures Is(Plus(a, b), Xor(u, v))
  {
    forall k: nat | k < 8 ensures Coefficient(Plus(a, b), k) == Bit(Xor(u, v), k) {
      CoefficientAdd(a, b, k);
      XorBit(u, v, k);
    }
  }

  lemma {:induction false} IfIs(bit: bool, a: Byte, v: Vec)
    requires Is(a, v)
    ensures Is(When(bit, a), If(bit, v))
  {
    if !bit { NothingIs(); }
  }

  lemma {:induction false} NothingIs()
    ensures Is(Zero(8), NOTHING)
  {
    forall k: nat | k < 8 ensures Coefficient(Zero(8), k) == Bit(NOTHING, k) { CoefficientZero(8, k); }
  }

  lemma {:induction false} UnitIs()
    ensures Is(Unit(8, 0), UNIT)
  {
    forall k: nat | k < 8 ensures Coefficient(Unit(8, 0), k) == Bit(UNIT, k) {
      if k > 0 { CoefficientZero(7, k - 1); }
    }
  }

  lemma {:induction false} ReductionIs()
    ensures Is(REDUCTION, RED)
  {
    forall k: nat | k < 8 ensures Coefficient(REDUCTION, k) == Bit(RED, k) {}
  }

  lemma {:induction false} ShiftCoefficient(carry: bool, a: Poly, k: nat)
    requires k < Len(a)
    ensures Coefficient(Shift(carry, a), k) == if k == 0 then carry else Coefficient(a, k - 1)
    ensures Top(a) == Coefficient(a, Len(a) - 1)
    decreases a
  {
    if a.rest.Cons? { ShiftCoefficient(a.low, a.rest, if k == 0 then 0 else k - 1); }
  }

  /** a shifted up by one place. */
  function Raised(v: Vec): Vec { Vec(false, v.b0, v.b1, v.b2, v.b3, v.b4, v.b5, v.b6) }

  lemma {:induction false} RaisedIs(a: Byte, v: Vec)
    requires Is(a, v)
    ensures Is(Shift(false, a), Raised(v)) && Top(a) == v.b7
  {
    forall k: nat | k < 8 ensures Coefficient(Shift(false, a), k) == Bit(Raised(v), k) { ShiftCoefficient(false, a, k); }
    ShiftCoefficient(false, a, 0);
    assert Coefficient(a, 7) == Bit(v, 7);
  }

  lemma {:induction false} DoubledIs(p: Byte, a: Byte, v: Vec)
    requires Is(p, RED) && Is(a, v)
    ensures Is(TimesX(p, a), Doubled(v))
  {
    RaisedIs(a, v);
    IfIs(v.b7, p, RED);
    XorIs(Shift(false, a), When(v.b7, p), Raised(v), If(v.b7, RED));
    assert Xor(Raised(v), If(v.b7, RED)) == Doubled(v);
  }

  // Squares.

  function XPower(p: Byte, n: nat): Byte { Power(p, Unit(8, 0), n) }

  /** x^(2 k) */
  function Column(k: nat): Vec { if k == 0 then UNIT else Doubled(Doubled(Column(k - 1))) }

  lemma {:induction false} ColumnIs(p: Byte, k: nat)
    requires Is(p, RED)
    ensures Is(XPower(p, 2 * k), Column(k))
  {
    if k == 0 {
      UnitIs();
    } else {
      ColumnIs(p, k - 1);
      var a := XPower(p, 2 * (k - 1));
      DoubledIs(p, a, Column(k - 1));
      DoubledIs(p, TimesX(p, a), Doubled(Column(k - 1)));
      TwoMore(p, 2 * k);
    }
  }

  lemma {:induction false} TwoMore(p: Byte, n: nat)
    requires n >= 2
    ensures XPower(p, n) == TimesX(p, TimesX(p, XPower(p, n - 2)))
  {
    assert XPower(p, n - 1) == TimesX(p, XPower(p, n - 2));
  }

  lemma {:induction false} SquareAdd(a: Byte, b: Byte)
    ensures Times(Plus(a, b), Plus(a, b)) == Plus(Times(a, a), Times(b, b))
  {
    var s, ab := Plus(a, b), Times(a, b);
    TimesLaws(s, a, b);
    TimesLaws(a, a, b);
    TimesLaws(b, a, b);
    TimesLaws(a, s, b);
    TimesLaws(b, s, a);
    PlusLaws(Times(a, a), ab, ab, Times(b, b));
    PlusLaws(ab, ab, ZERO, ZERO);
    PlusLaws(Times(a, a), ab, Times(b, b), ab);
    PlusLaws(Plus(Times(a, a), Times(b, b)), ZERO, ZERO, ZERO);
    PlusLaws(ab, Times(b, b), ZERO, ZERO);
  }

  lemma {:induction false} SquareUnit(p: Byte, j: nat)
    requires j < 8
    ensures Mul(p, Unit(8, j), Unit(8, j)) == XPower(p, 2 * j)
  {
    var u, one := Unit(8, j), Unit(8, 0);
    PowerUnit(p, j);
    MulLowPower(p, one, u, 8, j);
    OneMul(p, u);
    PowerPower(p, one, j, j);
  }

  /** The sum of the squares of the k low terms. */
  function SquareSum(v: Vec, k: nat): Vec { if k == 0 then NOTHING else Xor(If(Bit(v, k - 1), Column(k - 1)), SquareSum(v, k - 1)) }

  function Own(a: Byte): Byte { Times(a, a) }

  lemma {:induction false} SquareLow(a: Byte, v: Vec, k: nat)
    requires k <= 8 && Is(a, v)
    ensures Is(Own(Low(a, k)), SquareSum(v, k))
  {
    if k == 0 {
      TimesLaws(ZERO, ZERO, ZERO);
      NothingIs();
    } else {
      SquareLow(a, v, k - 1);
      SquareTerm(a, k - 1);
      ReductionIs();
      ColumnIs(REDUCTION, k - 1);
      IfIs(Coefficient(a, k - 1), XPower(REDUCTION, 2 * (k - 1)), Column(k - 1));
      XorIs(When(Coefficient(a, k - 1), XPower(REDUCTION, 2 * (k - 1))), Own(Low(a, k - 1)),
            If(Bit(v, k - 1), Column(k - 1)), SquareSum(v, k - 1));
    }
  }

  lemma {:induction false} SquareTerm(a: Byte, j: nat)
    requires j < 8
    ensures Own(Low(a, j + 1)) == Plus(When(Coefficient(a, j), XPower(REDUCTION, 2 * j)), Own(Low(a, j)))
  {
    var bit := Coefficient(a, j);
    LowNext(a, j);
    SquareAdd(When(bit, Unit(8, j)), Low(a, j));
    SquareUnit(REDUCTION, j);
    TimesLaws(ZERO, ZERO, ZERO);
  }

  // The squares of the powers of x.

  const C0 := Vec(true, false, false, false, false, false, false, false)  // x^0
  const C1 := Vec(false, false, true, false, false, false, false, false)  // x^2
  const C2 := Vec(false, false, false, false, true, false, false, false)  // x^4
  const C3 := Vec(false, false, false, false, false, false, true, false)  // x^6
  const C4 := Vec(true, false, true, true, true, false, false, false)  // x^8
  const C5 := Vec(false, false, true, false, true, true, true, false)  // x^10
  const C6 := Vec(true, false, true, true, false, false, true, true)  // x^12
  const C7 := Vec(true, true, false, false, true, false, false, false)  // x^14

  lemma {:induction false} ColumnsAre()
    ensures Column(0) == C0 && Column(1) == C1 && Column(2) == C2 && Column(3) == C3
    ensures Column(4) == C4 && Column(5) == C5 && Column(6) == C6 && Column(7) == C7
  {}

  /** The square of a byte, coefficient by coefficient. */
  function Square(v: Vec): Vec {
    Vec(((v.b0 != v.b4) != v.b6) != v.b7, v.b7, ((v.b1 != v.b4) != v.b5) != v.b6, v.b4 != v.b6,
        ((v.b2 != v.b4) != v.b5) != v.b7, v.b5, (v.b3 != v.b5) != v.b6, v.b6)
  }

  lemma {:induction false} SumNext(v: Vec, k: nat, bit: bool, c: Vec, sum: Vec)
    requires k < 8 && bit == Bit(v, k) && c == Column(k) && SquareSum(v, k) == sum
    ensures SquareSum(v, k + 1) == Xor(If(bit, c), sum)
  {}

  lemma {:induction false} Sum1(v: Vec, n: nat)
    requires n == 0
    ensures SquareSum(v, n + 1) == Vec(v.b0, false, false, false, false, false, false, false)
  {
    ColumnsAre();
    SumNext(v, n + 0, v.b0, C0, NOTHING);
    Term0(v);
  }

  lemma {:induction false} Term0(v: Vec)
    ensures Xor(If(v.b0, C0), NOTHING) ==
            Vec(v.b0, false, false, false, false, false, false, false)
  {
    var s := NOTHING;
    var r := Vec(v.b0, false, false, false, false, false, false, false);
    if v.b0 {
      assert Xor(C0, s) == r;
    } else {
      assert Xor(NOTHING, s) == r;
    }
  }

  lemma {:induction false} Sum2(v: Vec, n: nat)
    requires n == 0
    ensures SquareSum(v, n + 2) == Vec(v.b0, false, v.b1, false, false, false, false, false)
  {
    ColumnsAre();
    Sum1(v, n);
    SumNext(v, n + 1, v.b1, C1, Vec(v.b0, false, false, false, false, false, false, false));
    Term1(v);
  }

  lemma {:induction false} Term1(v: Vec)
    ensures Xor(If(v.b1, C1), Vec(v.b0, false, false, false, false, false, false, false)) ==
            Vec(v.b0, false, v.b1, false, false, false, false, false)
  {
    var s := Vec(v.b0, false, false, false, false, false, false, false);
    var r := Vec(v.b0, false, v.b1, false, false, false, false, false);
    if v.b1 {
      assert Xor(C1, s) == r;
    } else {
      assert Xor(NOTHING, s) == r;
    }
  }

  lemma {:induction false} Sum3(v: Vec, n: nat)
    requires n == 0
    ensures SquareSum(v, n + 3) == Vec(v.b0, false, v.b1, false, v.b2, false, false, false)
  {
    ColumnsAre();
    Sum2(v, n);
    SumNext(v, n + 2, v.b2, C2, Vec(v.b0, false, v.b1, false, false, false, false, false));
    Term2(v);
  }

  lemma {:induction false} Term2(v: Vec)
    ensures Xor(If(v.b2, C2), Vec(v.b0, false, v.b1, false, false, false, false, false)) ==
            Vec(v.b0, false, v.b1, false, v.b2, false, false, false)
  {
    var s := Vec(v.b0, false, v.b1, false, false, false, false, false);
    var r := Vec(v.b0, false, v.b1, false, v.b2, false, false, false);
    if v.b2 {
      assert Xor(C2, s) == r;
    } else {
      assert Xor(NOTHING, s) == r;
    }
  }

  lemma {:induction false} Sum4(v: Vec, n: nat)
    requires n == 0
    ensures SquareSum(v, n + 4) == Vec(v.b0, false, v.b1, false, v.b2, false, v.b3, false)
  {
    ColumnsAre();
    Sum3(v, n);
    SumNext(v, n + 3, v.b3, C3, Vec(v.b0, false, v.b1, false, v.b2, false, false, false));
    Term3(v);
  }

  lemma {:induction false} Term3(v: Vec)
    ensures Xor(If(v.b3, C3), Vec(v.b0, false, v.b1, false, v.b2, false, false, false)) ==
            Vec(v.b0, false, v.b1, false, v.b2, false, v.b3, false)
  {
    var s := Vec(v.b0, false, v.b1, false, v.b2, false, false, false);
    var r := Vec(v.b0, false, v.b1, false, v.b2, false, v.b3, false);
    if v.b3 {
      assert Xor(C3, s) == r;
    } else {
      assert Xor(NOTHING, s) == r;
    }
  }

  lemma {:induction false} Sum5(v: Vec, n: nat)
    requires n == 0
    ensures SquareSum(v, n + 5) == Vec(v.b0 != v.b4, false, v.b1 != v.b4, v.b4, v.b2 != v.b4, false, v.b3, false)
  {
    ColumnsAre();
    Sum4(v, n);
    SumNext(v, n + 4, v.b4, C4, Vec(v.b0, false, v.b1, false, v.b2, false, v.b3, false));
    Term4(v);
  }

  lemma {:induction false} Term4(v: Vec)
    ensures Xor(If(v.b4, C4), Vec(v.b0, false, v.b1, false, v.b2, false, v.b3, false)) ==
            Vec(v.b0 != v.b4, false, v.b1 != v.b4, v.b4, v.b2 != v.b4, false, v.b3, false)
  {
    var s := Vec(v.b0, false, v.b1, false, v.b2, false, v.b3, false);
    var r := Vec(v.b0 != v.b4, false, v.b1 != v.b4, v.b4, v.b2 != v.b4, false, v.b3, false);
    if v.b4 {
      assert Xor(C4, s) == r;
    } else {
      assert Xor(NOTHING, s) == r;
    }
  }

  lemma {:induction false} Sum6(v: Vec, n: nat)
    requires n == 0
    ensures SquareSum(v, n + 6) == Vec(v.b0 != v.b4, false, (v.b1 != v.b4) != v.b5, v.b4, (v.b2 != v.b4) != v.b5, v.b5, v.b3 != v.b5, false)
  {
    ColumnsAre();
    Sum5(v, n);
    SumNext(v, n + 5, v.b5, C5, Vec(v.b0 != v.b4, false, v.b1 != v.b4, v.b4, v.b2 != v.b4, false, v.b3, false));
    Term5(v);
  }

  lemma {:induction false} Term5(v: Vec)
    ensures Xor(If(v.b5, C5), Vec(v.b0 != v.b4, false, v.b1 != v.b4, v.b4, v.b2 != v.b4, false, v.b3, false)) ==
            Vec(v.b0 != v.b4, false, (v.b1 != v.b4) != v.b5, v.b4, (v.b2 != v.b4) != v.b5, v.b5, v.b3 != v.b5, false)
  {
    var s := Vec(v.b0 != v.b4, false, v.b1 != v.b4, v.b4, v.b2 != v.b4, false, v.b3, false);
    var r := Vec(v.b0 != v.b4, false, (v.b1 != v.b4) != v.b5, v.b4, (v.b2 != v.b4) != v.b5, v.b5, v.b3 != v.b5, false);
    if v.b5 {
      assert Xor(C5, s) == r;
    } else {
      assert Xor(NOTHING, s) == r;
    }
  }

  lemma {:induction false} Sum7(v: Vec, n: nat)
    requires n == 0
    ensures SquareSum(v, n + 7) == Vec((v.b0 != v.b4) != v.b6, false, ((v.b1 != v.b4) != v.b5) != v.b6, v.b4 != v.b6, (v.b2 != v.b4) != v.b5, v.b5, (v.b3 != v.b5) != v.b6, v.b6)
  {
    ColumnsAre();
    Sum6(v, n);
    SumNext(v, n + 6, v.b6, C6, Vec(v.b0 != v.b4, false, (v.b1 != v.b4) != v.b5, v.b4, (v.b2 != v.b4) != v.b5, v.b5, v.b3 != v.b5, false));
    Term6(v);
  }

  lemma {:induction false} Term6(v: Vec)
    ensures Xor(If(v.b6, C6), Vec(v.b0 != v.b4, false, (v.b1 != v.b4) != v.b5, v.b4, (v.b2 != v.b4) != v.b5, v.b5, v.b3 != v.b5, false)) ==
            Vec((v.b0 != v.b4) != v.b6, false, ((v.b1 != v.b4) != v.b5) != v.b6, v.b4 != v.b6, (v.b2 != v.b4) != v.b5, v.b5, (v.b3 != v.b5) != v.b6, v.b6)
  {
    var s := Vec(v.b0 != v.b4, false, (v.b1 != v.b4) != v.b5, v.b4, (v.b2 != v.b4) != v.b5, v.b5, v.b3 != v.b5, false);
    var r := Vec((v.b0 != v.b4) != v.b6, false, ((v.b1 != v.b4) != v.b5) != v.b6, v.b4 != v.b6, (v.b2 != v.b4) != v.b5, v.b5, (v.b3 != v.b5) != v.b6, v.b6);
    if v.b6 {
      assert Xor(C6, s) == r;
    } else {
      assert Xor(NOTHING, s) == r;
    }
  }

  lemma {:induction false} Sum8(v: Vec, n: nat)
    requires n == 0
    ensures SquareSum(v, n + 8) == Square(v)
  {
    ColumnsAre();
    Sum7(v, n);
    SumNext(v, n + 7, v.b7, C7, Vec((v.b0 != v.b4) != v.b6, false, ((v.b1 != v.b4) != v.b5) != v.b6, v.b4 != v.b6, (v.b2 != v.b4) != v.b5, v.b5, (v.b3 != v.b5) != v.b6, v.b6));
    Term7(v);
  }

  lemma {:induction false} Term7(v: Vec)
    ensures Xor(If(v.b7, C7), Vec((v.b0 != v.b4) != v.b6, false, ((v.b1 != v.b4) != v.b5) != v.b6, v.b4 != v.b6, (v.b2 != v.b4) != v.b5, v.b5, (v.b3 != v.b5) != v.b6, v.b6)) ==
            Square(v)
  {
    var s := Vec((v.b0 != v.b4) != v.b6, false, ((v.b1 != v.b4) != v.b5) != v.b6, v.b4 != v.b6, (v.b2 != v.b4) != v.b5, v.b5, (v.b3 != v.b5) != v.b6, v.b6);
    var r := Vec(((v.b0 != v.b4) != v.b6) != v.b7, v.b7, ((v.b1 != v.b4) != v.b5) != v.b6, v.b4 != v.b6, ((v.b2 != v.b4) != v.b5) != v.b7, v.b5, (v.b3 != v.b5) != v.b6, v.b6);
    if v.b7 {
      assert Xor(C7, s) == r;
    } else {
      assert Xor(NOTHING, s) == r;
    }
  }

  /** Squaring is this linear map. */
  lemma {:induction false} SquareIs(a: Byte, v: Vec)
    requires Is(a, v)
    ensures Is(Own(a), Square(v))
  {
    var n: nat :| n == 8;
    SquareLow(a, v, n);
    LowAll(a);
    Sum8(v, n - 8);
  }

  /** Squared twice. */
  function Fourth(v: Vec): Vec {
    Vec(((v.b0 != v.b2) != v.b3) != v.b6, v.b6, (((v.b2 != v.b3) != v.b4) != v.b5) != v.b6, (((v.b2 != v.b3) != v.b4) != v.b6) != v.b7,
        ((v.b1 != v.b2) != v.b5) != v.b7, v.b5, v.b3 != v.b4, (v.b3 != v.b5) != v.b6)
  }

  /** Squared four times. */
  function Sixteenth(v: Vec): Vec {
    Vec(((((v.b0 != v.b2) != v.b4) != v.b5) != v.b6) != v.b7, v.b3 != v.b4, (((v.b1 != v.b2) != v.b3) != v.b4) != v.b5, (((v.b1 != v.b2) != v.b4) != v.b5) != v.b6,
        ((v.b2 != v.b4) != v.b5) != v.b6, v.b5, (((v.b1 != v.b3) != v.b4) != v.b5) != v.b6, ((v.b2 != v.b5) != v.b6) != v.b7)
  }

  lemma {:induction false} FourthIs(v: Vec)
    ensures Square(Square(v)) == Fourth(v)
  {}

  lemma {:induction false} SixteenthIs(v: Vec)
    ensures Fourth(Fourth(v)) == Sixteenth(v) && Sixteenth(Sixteenth(v)) == v
  {}

  /** Only zero and one are their own squares. */
  lemma {:induction false} SelfSquare(v: Vec)
    requires Square(v) == v
    ensures v == NOTHING || v == UNIT
  {}

  // Inverses.

  /** a^(2^n) */
  function Squared(a: Byte, n: nat): Byte { if n == 0 then a else Own(Squared(a, n - 1)) }

  lemma {:induction false} SquaredTwice(a: Byte, v: Vec, n: nat)
    requires Is(Squared(a, n), v)
    ensures Is(Squared(a, n + 2), Fourth(v))
  {
    var b := Squared(a, n);
    SquareIs(b, v);
    SquareIs(Own(b), Square(v));
    FourthIs(v);
    assert Squared(a, n + 1) == Own(b);
  }

  /** Eight squarings are the identity. */
  lemma {:induction false} Fermat(a: Byte, n: nat)
    requires n == 0
    ensures Squared(a, n + 8) == a
  {
    var v := VecOf(a);
    SquaredTwice(a, v, n);
    SquaredTwice(a, Fourth(v), n + 2);
    SquaredTwice(a, Fourth(Fourth(v)), n + 4);
    SquaredTwice(a, Fourth(Fourth(Fourth(v))), n + 6);
    SixteenthIs(v);
    SixteenthIs(Fourth(Fourth(v)));
    SameByte(Squared(a, n + 8), a, v);
  }

  /** The product of a^2, a^4, and so on, n factors: a^(2^(n + 1) - 2). */
  function Product(a: Byte, n: nat): Byte { if n == 0 then ONE else Times(Product(a, n - 1), Squared(a, n)) }

  /** a^254 */
  function Inverse(a: Byte): Byte { Product(a, 7) }

  /** a times the product, times a, is the next square. */
  lemma {:induction false} ProductNext(a: Byte, n: nat)
    ensures Times(Times(a, Product(a, n)), a) == Squared(a, n + 1)
  {
    if n == 0 {
      TimesLaws(ONE, a, a);
      TimesLaws(a, ONE, a);
    } else {
      ProductNext(a, n - 1);
      Regroup(a, Product(a, n - 1), Squared(a, n));
    }
  }

  /** a times the product, squared, is the next product. */
  lemma {:induction false} ProductIs(a: Byte, n: nat)
    ensures Own(Times(a, Product(a, n))) == Product(a, n + 1)
  {
    var p := Product(a, n);
    ProductNext(a, n);
    TimesLaws(Times(a, p), a, p);
    TimesLaws(Squared(a, n + 1), p, ZERO);
  }

  lemma {:induction false} Regroup(a: Byte, p: Byte, q: Byte)
    ensures Times(Times(a, Times(p, q)), a) == Times(Times(Times(a, p), a), q)
  {
    TimesLaws(a, p, q);
    TimesLaws(Times(a, p), q, a);
    TimesLaws(Times(a, p), a, q);
    TimesLaws(q, a, ZERO);
  }

  /** Every byte other than zero has an inverse. */
  lemma {:induction false} InverseIs(a: Byte)
    requires a != ZERO
    ensures Times(a, Inverse(a)) == ONE
  {
    var n: nat :| n == 7;
    var e := Times(a, Product(a, n));
    Fermat(a, n - 7);
    ProductNext(a, n);
    ProductIs(a, n);
    TimesLaws(Product(a, n), a, ZERO);
    OwnSquare(e);
    TimesLaws(e, a, ZERO);
    TimesLaws(a, ZERO, ZERO);
  }

  lemma {:induction false} OwnSquare(e: Byte)
    requires Own(e) == e
    ensures e == ZERO || e == ONE
  {
    var v := VecOf(e);
    SquareIs(e, v);
    SameVec(e, v, Square(v));
    SelfSquare(v);
    NothingIs();
    UnitIs();
    if v == NOTHING { SameByte(e, ZERO, v); } else { SameByte(e, ONE, v); }
  }
}

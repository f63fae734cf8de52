/** Two flipped bits: they go unnoticed exactly when their distance is a multiple of 2^23 - 1. */
module Crc24Period {
  import opened Gf2
  import opened Crc24
  import opened Crc24Table
  import opened Crc24Literal
  import opened Crc24Hash
  import opened Crc24Detection
  import opened Crc24Errors
  import opened Crc24Order
  import opened Primes
  import Words

  // PERIOD is the product of two primes.
  const FACTOR: nat := 47
  const COFACTOR: nat := 178481

  lemma {:induction false} FactorPrime()
    ensures Prime(FACTOR)
  {
    assert NoneBelow(FACTOR, 7);
    PrimeByTrial(FACTOR, 7);
  }

  lemma {:induction false} Tried0()
    ensures NoneBelow(COFACTOR, 111)
  {
    assert NoneBelow(COFACTOR, 15); assert NoneBelow(COFACTOR, 27); assert NoneBelow(COFACTOR, 39);
    assert NoneBelow(COFACTOR, 51); assert NoneBelow(COFACTOR, 63); assert NoneBelow(COFACTOR, 75);
    assert NoneBelow(COFACTOR, 87); assert NoneBelow(COFACTOR, 99); assert NoneBelow(COFACTOR, 111);
  }

  lemma {:induction false} Tried1()
    requires NoneBelow(COFACTOR, 111)
    ensures NoneBelow(COFACTOR, 219)
  {
    assert NoneBelow(COFACTOR, 123); assert NoneBelow(COFACTOR, 135); assert NoneBelow(COFACTOR, 147);
    assert NoneBelow(COFACTOR, 159); assert NoneBelow(COFACTOR, 171); assert NoneBelow(COFACTOR, 183);
    assert NoneBelow(COFACTOR, 195); assert NoneBelow(COFACTOR, 207); assert NoneBelow(COFACTOR, 219);
  }

  lemma {:induction false} Tried2()
    requires NoneBelow(COFACTOR, 219)
    ensures NoneBelow(COFACTOR, 327)
  {
    assert NoneBelow(COFACTOR, 231); assert NoneBelow(COFACTOR, 243); assert NoneBelow(COFACTOR, 255);
    assert NoneBelow(COFACTOR, 267); assert NoneBelow(COFACTOR, 279); assert NoneBelow(COFACTOR, 291);
    assert NoneBelow(COFACTOR, 303); assert NoneBelow(COFACTOR, 315); assert NoneBelow(COFACTOR, 327);
  }

  lemma {:induction false} Tried3()
    requires NoneBelow(COFACTOR, 327)
    ensures NoneBelow(COFACTOR, 423)
  {
    assert NoneBelow(COFACTOR, 339); assert NoneBelow(COFACTOR, 351); assert NoneBelow(COFACTOR, 363);
    assert NoneBelow(COFACTOR, 375); assert NoneBelow(COFACTOR, 387); assert NoneBelow(COFACTOR, 399);
    assert NoneBelow(COFACTOR, 411); assert NoneBelow(COFACTOR, 423);
  }

  lemma {:induction false} CofactorPrime()
    ensures Prime(COFACTOR)
  {
    Tried0();
    Tried1();
    Tried2();
    Tried3();
    PrimeByTrial(COFACTOR, 423);
  }

  // The exponents at which a power of x is one.

  predicate IsUnit(p: Register, n: nat) { XPower(p, n) == Unit(24, 0) }

  lemma {:induction false} UnitDifference(p: Register, m: nat, n: nat)
    requires IsUnit(p, m) && m <= n
    ensures IsUnit(p, n) <==> IsUnit(p, n - m)
  {
    XPowerSum(p, m, n - m);
  }

  lemma {:induction false} UnitRemainder(p: Register, m: nat, n: nat)
    requires IsUnit(p, m) && m > 0
    ensures IsUnit(p, n) <==> IsUnit(p, n % m)
    decreases n
  {
    if n >= m {
      UnitDifference(p, m, n);
      UnitRemainder(p, m, n - m);
      Wrapped(n, m);
    } else {
      assert n % m == n;
    }
  }

  lemma {:induction false} Wrapped(n: nat, m: nat)
    requires 0 < m <= n
    ensures (n - m) % m == n % m
  {
    var q, r := (n - m) / m, (n - m) % m;
    assert n == m * (q + 1) + r;
    Words.QuotientIs(n, m, q + 1, r);
  }

  lemma {:induction false} UnitGcd(p: Register, a: nat, b: nat)
    requires a + b > 0 && IsUnit(p, a) && IsUnit(p, b)
    ensures IsUnit(p, Gcd(a, b))
    decreases b
  {
    if b > 0 {
      UnitRemainder(p, b, a);
      UnitGcd(p, b, a % b);
    }
  }

  lemma {:induction false} UnitMultiple(p: Register, d: nat, n: nat)
    requires d > 0 && IsUnit(p, d) && Divides(d, n)
    ensures IsUnit(p, n)
  {
    UnitRemainder(p, d, n);
  }

  // The values that the powers take.

  lemma {:induction false} PeriodUnit(g: Word)
    requires Reads(g, POLY)
    ensures IsUnit(Low24(g), PERIOD)
  {
    AllOnes0(g);
    AllOnes1(g);
    AllOnes2(g);
    IsOne(g);
    ReadsSame(XPower(Low24(g), PERIOD), XPower(Low24(g), 0), 1);
  }

  /** A word with bit 3 set is not one. */
  lemma {:induction false} NotUnit(g: Word, n: nat, x: bv32)
    requires IsPower(g, n, x) && x & 8 != 0
    ensures !IsUnit(Low24(g), n)
  {
    var a := XPower(Low24(g), n);
    assert IsBit(1, 0) && IsBit(2, 1) && IsBit(4, 2) && IsBit(8, 3);
    IsOne(g);
    ReadsCoefficient(a, x, 8, 3);
    if a == XPower(Low24(g), 0) { ReadsCoefficient(a, 1, 8, 3); }
  }

  lemma {:induction false} FactorNotUnit(g: Word)
    requires Reads(g, POLY)
    ensures !IsUnit(Low24(g), FACTOR)
  {
    Columns0(g);
    Columns1(g);
    Columns2(g);
    Columns3(g);
    Columns4(g);
    Columns5(g);
    NextPower(g, 46, 0xCEA429, 0x1B04A9);
    NotUnit(g, FACTOR, 0x1B04A9);
  }

  lemma {:induction false} CofactorNotUnit(g: Word)
    requires Reads(g, POLY)
    ensures !IsUnit(Low24(g), COFACTOR)
  {
    Cofactor0(g);
    Cofactor1(g);
    Cofactor2(g);
    NotUnit(g, COFACTOR, 0x475A89);
  }

  /** The order of x modulo the generator is 2^23 - 1. */
  lemma {:induction false} UnitExactly(g: Word, n: nat)
    requires Reads(g, POLY)
    ensures IsUnit(Low24(g), n) <==> n % PERIOD == 0
  {
    var p := Low24(g);
    PeriodUnit(g);
    if n % PERIOD == 0 {
      UnitMultiple(p, PERIOD, n);
    } else if IsUnit(p, n) {
      var d := Gcd(n, PERIOD);
      UnitGcd(p, n, PERIOD);
      GcdDivides(n, PERIOD);
      NoProperDivisor(g, d);
    }
  }

  lemma {:induction false} NoProperDivisor(g: Word, d: nat)
    requires Reads(g, POLY) && d > 0 && Divides(d, PERIOD) && IsUnit(Low24(g), d)
    ensures d == PERIOD
  {
    DivisorAtMost(d, PERIOD);
    if d < PERIOD {
      FactorPrime();
      CofactorPrime();
      FactorNotUnit(g);
      CofactorNotUnit(g);
      DivisorsOf(FACTOR, COFACTOR, d);
      if Divides(d, FACTOR) {
        UnitMultiple(Low24(g), d, FACTOR);
      } else {
        UnitMultiple(Low24(g), d, COFACTOR);
      }
    }
  }

  lemma {:induction false} DivisorAtMost(d: nat, n: nat)
    requires d > 0 && n > 0 && Divides(d, n)
    ensures d <= n
  {}

  // Messages.

  /** The bits number before and before + distance, and no other, are set. */
  ghost predicate TwoFlips(bits: seq<bool>, before: nat, distance: nat, after: nat) {
    distance > 0 && bits == Zeros(before) + [true] + Zeros(distance - 1) + [true] + Zeros(after)
  }

  /** Two flipped bits go unnoticed exactly when their distance is a multiple of 2^23 - 1. */
  lemma {:induction false} DoubleDetected(g: Word, message: seq<Byte>, error: seq<Byte>, before: nat, distance: nat, after: nat)
    requires Reads(g, POLY) && |message| == |error| >= 3 && Passes(Low24(g), message)
    requires TwoFlips(MessageBits(error), before, distance, after)
    ensures Passes(Low24(g), Corrupted(message, error)) <==> distance % PERIOD == 0
  {
    DoubleAtDistance(g, message, error, before, distance, after);
    UnitExactly(g, distance);
  }

  /** Some two flipped bits of the error. */
  ghost predicate IsDouble(error: seq<Byte>) {
    exists before: nat, distance: nat, after: nat :: TwoFlips(MessageBits(error), before, distance, after)
  }

  /** Every double error of the message is noticed. */
  ghost predicate NoticesDoubles(p: Register, message: seq<Byte>) {
    forall error: seq<Byte> | |error| == |message| >= 3 && IsDouble(error) :: !Passes(p, Corrupted(message, error))
  }

  lemma {:induction false} BitCount(message: seq<Byte>)
    ensures |MessageBits(message)| == 8 * |message|
  {
    if message != [] {
      BitsOfLength(message[0]);
      BitCount(message[1..]);
    }
  }

  /** The code words of at most 2^23 - 1 bits are those in which every double error is noticed. */
  lemma {:induction false} DoubleClaim(g: Word, message: seq<Byte>)
    requires Reads(g, POLY) && |message| >= 3 && Passes(Low24(g), message)
    ensures NoticesDoubles(Low24(g), message) <==> 8 * |message| <= PERIOD
  {
    var p := Low24(g);
    if 8 * |message| <= PERIOD {
      forall error: seq<Byte> | |error| == |message| && IsDouble(error) ensures !Passes(p, Corrupted(message, error)) {
        ShortDouble(g, message, error);
      }
    } else {
      Undetected(g, message);
    }
  }

  lemma {:induction false} ShortDouble(g: Word, message: seq<Byte>, error: seq<Byte>)
    requires Reads(g, POLY) && |message| == |error| >= 3 && Passes(Low24(g), message)
    requires 8 * |message| <= PERIOD && IsDouble(error)
    ensures !Passes(Low24(g), Corrupted(message, error))
  {
    var before: nat, distance: nat, after: nat :| TwoFlips(MessageBits(error), before, distance, after);
    BitCount(error);
    assert distance < PERIOD;
    DoubleDetected(g, message, error, before, distance, after);
  }

  // An error that goes unnoticed.

  const FIRST: Byte := Unit(8, 7)
  const LAST: Byte := Unit(8, 0)

  function Blank(n: nat): (s: seq<Byte>)
    ensures |s| == n
  { seq(n, _ => Zero(8)) }

  /** The first bit and the bit 2^23 - 1 after it, in a message of n bytes. */
  function FarApart(n: nat): (error: seq<Byte>)
    requires n >= 0x10_0000
    ensures |error| == n
  { [FIRST] + Blank(0xF_FFFE) + [LAST] + Blank(n - 0x10_0000) }

  lemma {:induction false} ZerosMore(m: nat, n: nat)
    ensures Zeros(m) + Zeros(n) == Zeros(m + n)
  {}

  lemma {:induction false} BlankByte(n: nat)
    ensures BitsOf(Zero(n)) == Zeros(n)
  {
    if n > 0 {
      BlankByte(n - 1);
      ZerosMore(n - 1, 1);
      assert Zeros(1) == [false];
    }
  }

  lemma {:induction false} BlankBits(n: nat)
    ensures MessageBits(Blank(n)) == Zeros(8 * n)
  {
    if n > 0 {
      assert Blank(n)[1..] == Blank(n - 1);
      BlankBits(n - 1);
      BlankByte(8);
      ZerosMore(8, 8 * (n - 1));
    }
  }

  lemma {:induction false} UnitBits(n: nat, k: nat)
    requires k < n
    ensures BitsOf(Unit(n, k)) == Zeros(n - 1 - k) + [true] + Zeros(k)
  {
    if k == 0 {
      BlankByte(n - 1);
    } else {
      UnitBits(n - 1, k - 1);
      ZerosMore(k - 1, 1);
      assert Zeros(1) == [false];
    }
  }

  lemma {:induction false} FourParts(a: seq<Byte>, b: seq<Byte>, c: seq<Byte>, d: seq<Byte>)
    ensures MessageBits(a + b + c + d) == MessageBits(a) + MessageBits(b) + MessageBits(c) + MessageBits(d)
  {
    MessageBitsAppend(a + b + c, d);
    MessageBitsAppend(a + b, c);
    MessageBitsAppend(a, b);
  }

  lemma {:induction false} FarApartBits(n: nat)
    requires n >= 0x10_0000
    ensures TwoFlips(MessageBits(FarApart(n)), 0, PERIOD, 8 * (n - 0x10_0000))
  {
    var gap: nat :| gap == 0xF_FFFE;
    OneFlip(7);
    OneFlip(0);
    ApartBits(FIRST, LAST, 7, gap, n - gap - 2);
  }

  lemma {:induction false} ApartBits(first: Byte, last: Byte, k: nat, gap: nat, after: nat)
    requires MessageBits([first]) == Zeros(0) + [true] + Zeros(k) && MessageBits([last]) == Zeros(k) + [true] + Zeros(0)
    ensures MessageBits([first] + Blank(gap) + [last] + Blank(after)) == Zeros(0) + [true] + Zeros(k + 8 * gap + k) + [true] + Zeros(8 * after)
  {
    FourParts([first], Blank(gap), [last], Blank(after));
    BlankBits(gap);
    BlankBits(after);
    Joined(k, 8 * gap, k, 8 * after);
  }

  lemma {:induction false} Joined(k: nat, m: nat, n: nat, after: nat)
    ensures Zeros(0) + [true] + Zeros(k) + Zeros(m) + (Zeros(n) + [true] + Zeros(0)) + Zeros(after)
         == Zeros(0) + [true] + Zeros(k + m + n) + [true] + Zeros(after)
  {
    ZerosMore(k, m);
    ZerosMore(k + m, n);
    assert Zeros(0) == [];
  }

  lemma {:induction false} OneFlip(k: nat)
    requires k < 8
    ensures MessageBits([Unit(8, k)]) == Zeros(7 - k) + [true] + Zeros(k)
  {
    OneByte(Unit(8, k));
    UnitBits(8, k);
  }

  lemma {:induction false} OneByte(b: Byte)
    ensures MessageBits([b]) == BitsOf(b)
  {
    assert [b][1..] == [] && MessageBits([]) == [];
  }

  /** From 2^20 bytes on there is a double error that the check does not notice. */
  lemma {:induction false} Undetected(g: Word, message: seq<Byte>)
    requires Reads(g, POLY) && |message| >= 0x10_0000 && Passes(Low24(g), message)
    ensures var error := FarApart(|message|);
            IsDouble(error) && Corrupted(message, error) != message && Passes(Low24(g), Corrupted(message, error))
  {
    var error := FarApart(|message|);
    FarApartBits(|message|);
    DoubleDetected(g, message, error, 0, PERIOD, 8 * (|message| - 0x10_0000));
    Changed(message[0]);
  }

  lemma {:induction false} Changed(b: Byte)
    ensures Add(b, FIRST) != b
  {
    CoefficientAdd(b, FIRST, 7);
    assert Coefficient(Unit(8, 7), 7);
  }
}

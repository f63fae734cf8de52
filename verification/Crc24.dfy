/** CRC-24Q as polynomial arithmetic: the remainder of a bit string by the generator, the same
    remainder computed bit by bit in a register, and a byte at a time with a table. */
module Crc24 {
  import opened Words
  import opened Gf2

  // Cutting lists of coefficients.

  function Append(a: Poly, b: Poly): (s: Poly)
    ensures Len(s) == Len(a) + Len(b)
  { if a.Nil? then b else Cons(a.low, Append(a.rest, b)) }

  function Take(a: Poly, n: nat): (s: Poly)
    requires n <= Len(a)
    ensures Len(s) == n
  { if n == 0 then Nil else Cons(a.low, Take(a.rest, n - 1)) }

  function Drop(a: Poly, n: nat): (s: Poly)
    requires n <= Len(a)
    ensures Len(s) == Len(a) - n
  { if n == 0 then a else Drop(a.rest, n - 1) }

  lemma {:induction false} TakeDrop(a: Poly, n: nat)
    requires n <= Len(a)
    ensures Append(Take(a, n), Drop(a, n)) == a
  {
    if n > 0 { TakeDrop(a.rest, n - 1); }
  }

  lemma {:induction false} TakeAdd(a: Poly, b: Poly, n: nat)
    requires n <= Len(a) == Len(b)
    ensures Take(Add(a, b), n) == Add(Take(a, n), Take(b, n))
    ensures Drop(Add(a, b), n) == Add(Drop(a, n), Drop(b, n))
  {
    if n > 0 { TakeAdd(a.rest, b.rest, n - 1); }
  }

  lemma {:induction false} TakeAppend(a: Poly, b: Poly, n: nat)
    requires n <= Len(b)
    ensures Take(Append(a, b), Len(a) + n) == Append(a, Take(b, n))
  {
    if a.Cons? { TakeAppend(a.rest, b, n); }
  }

  lemma {:induction false} TakeTake(a: Poly, m: nat, n: nat)
    requires n <= m <= Len(a)
    ensures Take(Take(a, m), n) == Take(a, n)
  {
    if n > 0 { TakeTake(a.rest, m - 1, n - 1); }
  }

  lemma {:induction false} TakeZero(m: nat, n: nat)
    requires n <= m
    ensures Take(Zero(m), n) == Zero(n)
  {
    if n > 0 { TakeZero(m - 1, n - 1); }
  }

  lemma {:induction false} TakeShift(carry: bool, a: Poly, n: nat)
    requires n <= Len(a)
    ensures Take(Shift(carry, a), n) == Shift(carry, Take(a, n))
    decreases n
  {
    if n > 0 { TakeShift(a.low, a.rest, n - 1); }
  }

  lemma {:induction false} TopOfTake(a: Poly, n: nat)
    requires 0 < n <= Len(a)
    ensures Top(Take(a, n)) == Coefficient(a, n - 1)
  {
    if n > 1 { TopOfTake(a.rest, n - 1); }
  }

  lemma {:induction false} AddAppend(a: Poly, b: Poly, c: Poly, d: Poly)
    requires Len(a) == Len(c) && Len(b) == Len(d)
    ensures Add(Append(a, b), Append(c, d)) == Append(Add(a, c), Add(b, d))
  {
    if a.Cons? { AddAppend(a.rest, b, c.rest, d); }
  }

  // Numbers as words.

  /** The n low bits of x. */
  function Bits(n: nat, x: nat): (s: Poly)
    ensures Len(s) == n
  { if n == 0 then Nil else Cons(x % 2 == 1, Bits(n - 1, x / 2)) }

  function Value(a: Poly): nat { if a.Nil? then 0 else (if a.low then 1 else 0) + 2 * Value(a.rest) }

  lemma {:induction false} BitsValue(a: Poly)
    ensures Bits(Len(a), Value(a)) == a && Value(a) < Pow2(Len(a))
  {
    if a.Cons? { BitsValue(a.rest); }
  }

  lemma {:induction false} BitsAbove(n: nat, k: nat, x: nat)
    requires k < n && x < Pow2(k)
    ensures Bits(n, Pow2(k) + x) == Add(Bits(n, x), Unit(n, k))
  {
    if k == 0 {
      BitsOfZero(n - 1);
      AddLaws(Zero(n - 1), Zero(n - 1));
    } else {
      BitsAbove(n - 1, k - 1, x / 2);
      assert (Pow2(k) + x) / 2 == Pow2(k - 1) + x / 2 && (Pow2(k) + x) % 2 == x % 2;
    }
  }

  lemma {:induction false} BitsOfZero(n: nat)
    ensures Bits(n, 0) == Zero(n)
  {
    if n > 0 { BitsOfZero(n - 1); }
  }

  // The generator, and division by it.

  type Register = r: Poly | Len(r) == 24 witness Bits(24, 0)

  // The generator is x^24 + p. What follows holds of any p.

  /** One step of long division: the remainder of x * r + bit. */
  function Next(p: Register, r: Register, bit: bool): Register
  { Add(TimesX(p, r), When(bit, Unit(24, 0))) }

  /** The remainder after further bits, the leading one first. */
  function RemainderFrom(p: Register, r: Register, bits: seq<bool>): Register
    decreases |bits|
  {
    if bits == [] then r else RemainderFrom(p, Next(p, r, bits[0]), bits[1..])
  }

  /** The polynomial with these coefficients, the leading one first, modulo the generator. */
  function Remainder(p: Register, bits: seq<bool>): Register
  { RemainderFrom(p, Zero(24), bits) }

  function Zeros(n: nat): (s: seq<bool>)
    ensures |s| == n && forall i | 0 <= i < n :: !s[i]
  { if n == 0 then [] else [false] + Zeros(n - 1) }

  function BitwiseAdd(a: seq<bool>, b: seq<bool>): (s: seq<bool>)
    requires |a| == |b|
    ensures |s| == |a| && forall i | 0 <= i < |s| :: s[i] == (a[i] != b[i])
  { if a == [] then [] else [a[0] != b[0]] + BitwiseAdd(a[1..], b[1..]) }

  lemma {:induction false} RemainderAppend(p: Register, r: Register, a: seq<bool>, b: seq<bool>)
    ensures RemainderFrom(p, r, a + b) == RemainderFrom(p, RemainderFrom(p, r, a), b)
    decreases |a|
  {
    if a == [] {
      assert a + b == b;
    } else {
      assert (a + b)[1..] == a[1..] + b;
      RemainderAppend(p, Next(p, r, a[0]), a[1..], b);
    }
  }

  lemma {:induction false} NextAdd(p: Register, r: Register, s: Register, i: bool, j: bool)
    ensures Next(p, Add(r, s), i != j) == Add(Next(p, r, i), Next(p, s, j))
  {
    TimesXAdd(p, r, s);
    WhenSum(i, j, Unit(24, 0));
    Exchange(TimesX(p, r), TimesX(p, s), When(i, Unit(24, 0)), When(j, Unit(24, 0)));
  }

  /** Division is linear. */
  lemma {:induction false} RemainderAdd(p: Register, r: Register, s: Register, a: seq<bool>, b: seq<bool>)
    requires |a| == |b|
    ensures RemainderFrom(p, Add(r, s), BitwiseAdd(a, b)) == Add(RemainderFrom(p, r, a), RemainderFrom(p, s, b))
    decreases |a|
  {
    if a != [] {
      NextAdd(p, r, s, a[0], b[0]);
      RemainderAdd(p, Next(p, r, a[0]), Next(p, s, b[0]), a[1..], b[1..]);
    }
  }

  lemma {:induction false} RemainderZeros(p: Register, r: Register, n: nat)
    ensures RemainderFrom(p, r, Zeros(n)) == Power(p, r, n)
    decreases n
  {
    if n > 0 {
      AddLaws(TimesX(p, r), Zero(24));
      RemainderZeros(p, TimesX(p, r), n - 1);
      PowerFirst(p, r, n - 1);
    }
  }

  // The register form: message bits enter at the top.

  /** One bit of the message, folded into the top of the register. */
  function Feed(p: Register, r: Register, bit: bool): Register
  { TimesX(p, Add(r, When(bit, Unit(24, 23)))) }

  /** The bits of b, the leading one first. */
  function FeedAll(p: Register, r: Register, b: Poly): Register
  {
    if b.Nil? then r else Feed(p, FeedAll(p, r, b.rest), b.low)
  }

  /** x^n is the generator's lower part. */
  lemma {:induction false} PowerDegree(p: Register)
    ensures Power(p, Unit(24, 0), 24) == TimesX(p, Unit(24, 23))
  {
    PowerUnit(p, 23);
  }

  /** A register fed with a message holds x^n times the message. */
  lemma {:induction false} FeedIsNext(p: Register, r: Register, bit: bool)
    ensures Feed(p, Power(p, r, 24), bit) == Power(p, Next(p, r, bit), 24)
  {
    PowerAdd(p, TimesX(p, r), When(bit, Unit(24, 0)), 24);
    PowerWhen(p, bit, Unit(24, 0), 24);
    PowerDegree(p);
    PowerFirst(p, r, 24);
    TimesXAdd(p, Power(p, r, 24), When(bit, Unit(24, 23)));
    TimesXZero(p);
  }

  /** The bits of b, the leading one first. */
  function BitsOf(b: Poly): seq<bool> { if b.Nil? then [] else BitsOf(b.rest) + [b.low] }

  function MessageBits(message: seq<Byte>): seq<bool> {
    if message == [] then [] else BitsOf(message[0]) + MessageBits(message[1..])
  }

  lemma {:induction false} FeedAllIsRemainder(p: Register, r: Register, b: Poly)
    ensures FeedAll(p, Power(p, r, 24), b) == Power(p, RemainderFrom(p, r, BitsOf(b)), 24)
  {
    if b.Cons? {
      FeedAllIsRemainder(p, r, b.rest);
      var s := RemainderFrom(p, r, BitsOf(b.rest));
      RemainderAppend(p, r, BitsOf(b.rest), [b.low]);
      assert RemainderFrom(p, s, [b.low]) == Next(p, s, b.low);
      FeedIsNext(p, s, b.low);
    }
  }

  // A whole byte in one step.

  lemma {:induction false} AppendZeros(a: Poly, n: nat)
    ensures Append(Zero(n), Cons(false, a)) == Append(Zero(n + 1), a)
    ensures Append(a, Zero(0)) == a
  {
    if n > 0 { AppendZeros(a, n - 1); }
    if a.Cons? { AppendZeros(a.rest, 0); }
  }

  lemma {:induction false} AppendOne(n: nat, a: Poly)
    ensures Append(Zero(n), Cons(true, a)) == Add(Unit(n + 1 + Len(a), n), Append(Zero(n + 1), a))
  {
    if n > 0 {
      AppendOne(n - 1, a);
    } else {
      AddLaws(a, a);
    }
  }

  lemma {:induction false} AddNothing(a: Poly, b: Poly)
    requires Len(a) == Len(b)
    ensures Add(When(false, a), b) == b
  {
    AddLaws(b, b);
  }

  lemma {:induction false} AppendNone(n: nat, a: Poly, unit: Poly)
    requires Len(unit) == n + 1 + Len(a)
    ensures Append(Zero(n), Cons(false, a)) == Add(When(false, unit), Append(Zero(n + 1), a))
  {
    AppendZeros(a, n);
    AddNothing(unit, Append(Zero(n + 1), a));
  }

  lemma {:induction false} AppendUnit(n: nat, bit: bool, a: Poly)
    ensures Append(Zero(n), Cons(bit, a)) == Add(When(bit, Unit(n + 1 + Len(a), n)), Append(Zero(n + 1), a))
  {
    if bit {
      AppendOne(n, a);
    } else {
      AppendNone(n, a, Unit(n + 1 + Len(a), n));
    }
  }

  /** Feeding n bits adds them at the top and multiplies by x^n. */
  lemma {:induction false} FeedAllIsPower(p: Register, r: Register, b: Poly)
    requires Len(b) <= 24
    ensures FeedAll(p, r, b) == Power(p, Add(r, Append(Zero(24 - Len(b)), b)), Len(b))
  {
    if b.Nil? {
      AppendNil(Zero(24));
      AddLaws(r, r);
    } else {
      var n := Len(b.rest);
      var before, unit := Add(r, Append(Zero(24 - n), b.rest)), Unit(24, 23 - n);
      FeedAllIsPower(p, r, b.rest);
      UnitsOnTop(r, 23 - n, b.low, b.rest);
      assert b == Cons(b.low, b.rest);
      PowerUnitMore(p, 23 - n, n);
      PowerUnit(p, 23);
      FeedIsPower(p, before, unit, b.low, n);
    }
  }

  lemma {:induction false} FeedIsPower(p: Register, before: Register, unit: Register, bit: bool, n: nat)
    requires Power(p, unit, n) == Unit(24, 23)
    ensures Feed(p, Power(p, before, n), bit) == Power(p, Add(before, When(bit, unit)), n + 1)
  {
    PowerAdd(p, before, When(bit, unit), n);
    PowerWhen(p, bit, unit, n);
  }

  lemma {:induction false} UnitsOnTop(r: Register, n: nat, low: bool, rest: Poly)
    requires n + 1 + Len(rest) == 24
    ensures Add(r, Append(Zero(n), Cons(low, rest)))
         == Add(Add(r, Append(Zero(n + 1), rest)), When(low, Unit(24, n)))
  {
    AppendUnit(n, low, rest);
    AddRotate(r, When(low, Unit(24, n)), Append(Zero(n + 1), rest));
  }

  lemma {:induction false} AddRotate(a: Poly, b: Poly, c: Poly)
    requires Len(a) == Len(b) == Len(c)
    ensures Add(a, Add(b, c)) == Add(Add(a, c), b)
  {
    AddLaws(b, c);
    AddAssoc(a, c, b);
  }

  lemma {:induction false} AppendNil(a: Poly)
    ensures Append(a, Nil) == a
  {
    if a.Cons? { AppendNil(a.rest); }
  }

  /** As long as nothing is lost at the top, multiplying by x^n is a shift. */
  lemma {:induction false} PowerIsShift(p: Register, a: Poly, n: nat)
    requires Len(a) + n == 24
    ensures Power(p, Append(a, Zero(n)), n) == Append(Zero(n), a)
    decreases n
  {
    if n == 0 {
      AppendNil(a);
    } else {
      ShiftAppend(false, a, n);
      var shifted := Append(Cons(false, a), Zero(n - 1));
      AddLaws(shifted, Zero(24));
      PowerIsShift(p, Cons(false, a), n - 1);
      PowerFirst(p, Append(a, Zero(n)), n - 1);
      AppendZeros(a, n - 1);
    }
  }

  lemma {:induction false} ShiftAppend(carry: bool, a: Poly, n: nat)
    requires 0 < n
    ensures Shift(carry, Append(a, Zero(n))) == Append(Cons(carry, a), Zero(n - 1))
    ensures !Top(Append(a, Zero(n)))
    decreases a
  {
    if a.Cons? {
      ShiftAppend(a.low, a.rest, n);
    } else {
      ShiftZero(n - 1);
    }
  }

  lemma {:induction false} PowerUnitMore(p: Register, j: nat, n: nat)
    requires j < 24
    ensures Power(p, Unit(24, j), n) == Power(p, Unit(24, 0), j + n)
  {
    PowerUnit(p, j);
    PowerPower(p, Unit(24, 0), j, n);
  }

  /** The sum of h * x^k over the terms x^k of b. */
  function Combine(p: Register, b: Poly, h: Register): Register {
    if b.Nil? then Zero(24) else Add(When(b.low, h), Combine(p, b.rest, TimesX(p, h)))
  }

  lemma {:induction false} CombineTimesX(p: Register, b: Poly, h: Register)
    ensures Combine(p, b, TimesX(p, h)) == TimesX(p, Combine(p, b, h))
  {
    if b.Nil? {
      TimesXZero(p);
    } else {
      CombineTimesX(p, b.rest, TimesX(p, h));
      TimesXAdd(p, When(b.low, h), Combine(p, b.rest, TimesX(p, h)));
      if !b.low { TimesXZero(p); }
    }
  }

  /** Fed into an empty register, b becomes b * x^24. */
  lemma {:induction false} FeedAllIsCombine(p: Register, b: Poly)
    ensures FeedAll(p, Zero(24), b) == Combine(p, b, TimesX(p, Unit(24, 23)))
  {
    if b.Cons? {
      var h := TimesX(p, Unit(24, 23));
      var before := Combine(p, b.rest, h);
      FeedAllIsCombine(p, b.rest);
      CombineTimesX(p, b.rest, h);
      TimesXAdd(p, before, When(b.low, Unit(24, 23)));
      if !b.low { TimesXZero(p); }
      AddLaws(TimesX(p, before), When(b.low, h));
    }
  }

  lemma {:induction false} FeedAllAdd(p: Register, r: Register, s: Register, b: Poly, c: Poly)
    requires Len(b) == Len(c)
    ensures FeedAll(p, Add(r, s), Add(b, c)) == Add(FeedAll(p, r, b), FeedAll(p, s, c))
  {
    if b.Cons? {
      FeedAllAdd(p, r, s, b.rest, c.rest);
      FeedAdd(p, FeedAll(p, r, b.rest), FeedAll(p, s, c.rest), b.low, c.low);
    }
  }

  lemma {:induction false} FeedAdd(p: Register, r: Register, s: Register, i: bool, j: bool)
    ensures Feed(p, Add(r, s), i != j) == Add(Feed(p, r, i), Feed(p, s, j))
  {
    var top := Unit(24, 23);
    WhenSum(i, j, top);
    Exchange(r, s, When(i, top), When(j, top));
    TimesXAdd(p, Add(r, When(i, top)), Add(s, When(j, top)));
  }
}

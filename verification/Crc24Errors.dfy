/** The transmission errors that CRC-24Q detects. */
module Crc24Errors {
  import opened Gf2
  import opened Crc24
  import opened Crc24Table
  import opened Crc24Literal
  import opened Crc24Hash
  import opened Crc24Detection

  // Errors are exclusive-ored onto the message.

  function Corrupted(message: seq<Byte>, error: seq<Byte>): (s: seq<Byte>)
    requires |message| == |error|
    ensures |s| == |message|
  {
    if message == [] then [] else [Add(message[0], error[0])] + Corrupted(message[1..], error[1..])
  }

  lemma {:induction false} BitsOfAdd(a: Poly, b: Poly)
    requires Len(a) == Len(b)
    ensures |BitsOf(a)| == |BitsOf(b)| && BitsOf(Add(a, b)) == BitwiseAdd(BitsOf(a), BitsOf(b))
  {
    if a.Cons? { BitsOfAdd(a.rest, b.rest); }
  }

  lemma {:induction false} CorruptedBits(message: seq<Byte>, error: seq<Byte>)
    requires |message| == |error|
    ensures |MessageBits(message)| == |MessageBits(error)|
    ensures MessageBits(Corrupted(message, error)) == BitwiseAdd(MessageBits(message), MessageBits(error))
    decreases |message|
  {
    if message != [] {
      BitsOfAdd(message[0], error[0]);
      CorruptedBits(message[1..], error[1..]);
      var c := Corrupted(message, error);
      assert c[1..] == Corrupted(message[1..], error[1..]);
    }
  }

  /** Whether an error goes unnoticed depends on the error alone: it must be a multiple of the
      generator. */
  lemma {:induction false} ErrorPasses(p: Register, message: seq<Byte>, error: seq<Byte>)
    requires |message| == |error| >= 3 && Passes(p, message)
    ensures Passes(p, Corrupted(message, error)) <==> Remainder(p, MessageBits(error)) == Zero(24)
  {
    PassesExactly(p, message);
    PassesExactly(p, Corrupted(message, error));
    CorruptedBits(message, error);
    RemainderAdd(p, Zero(24), Zero(24), MessageBits(message), MessageBits(error));
    AddLaws(Zero(24), Zero(24));
    var r := Remainder(p, MessageBits(error));
    AddLaws(r, r);
  }

  // Bursts.

  lemma {:induction false} ShiftNonZero(carry: bool, a: Poly)
    requires a.Cons? && !Top(a) && a != Zero(Len(a))
    ensures Shift(carry, a) != Zero(Len(a))
    decreases a
  {
    if a.rest.Cons? && !a.low { ShiftNonZero(a.low, a.rest); }
  }

  /** With a constant term in the generator, multiplying by x loses nothing. */
  lemma {:induction false} TimesXNonZero(p: Register, r: Register)
    requires p.low && r != Zero(24)
    ensures TimesX(p, r) != Zero(24)
  {
    if Top(r) {
      assert TimesX(p, r).low;
    } else {
      ShiftNonZero(false, r);
      AddLaws(Shift(false, r), Shift(false, r));
    }
  }

  lemma {:induction false} PowerNonZero(p: Register, r: Register, n: nat)
    requires p.low && r != Zero(24)
    ensures Power(p, r, n) != Zero(24)
  {
    if n > 0 {
      PowerNonZero(p, r, n - 1);
      TimesXNonZero(p, Power(p, r, n - 1));
    }
  }

  /** All bits set lie within 24 places from s on, and there is one. */
  ghost predicate Burst(bits: seq<bool>, s: nat) {
    && (forall i | 0 <= i < |bits| && bits[i] :: s <= i < s + 24)
    && (exists i | 0 <= i < |bits| :: bits[i])
  }

  /** The polynomial whose bits these are. */
  function FromBits(bits: seq<bool>): (c: Poly)
    ensures Len(c) == |bits| && BitsOf(c) == bits
  {
    if bits == [] then Nil else
      var c := FromBits(bits[..|bits| - 1]);
      Cons(bits[|bits| - 1], c)
  }

  lemma {:induction false} FromBitsNonZero(bits: seq<bool>, i: nat)
    requires i < |bits| && bits[i]
    ensures FromBits(bits) != Zero(|bits|)
  {
    if i < |bits| - 1 { FromBitsNonZero(bits[..|bits| - 1], i); }
  }

  lemma {:induction false} AppendNonZero(a: Poly, n: nat)
    requires a != Zero(Len(a))
    ensures Append(a, Zero(n)) != Zero(Len(a) + n)
  {
    if a.Cons? && !a.low { AppendNonZero(a.rest, n); }
  }

  lemma {:induction false} AllZeros(bits: seq<bool>)
    requires forall i | 0 <= i < |bits| :: !bits[i]
    ensures bits == Zeros(|bits|)
  {}

  /** A burst of at most 24 bits is no multiple of the generator. */
  lemma {:induction false} BurstRemainder(p: Register, bits: seq<bool>, s: nat)
    requires p.low && Burst(bits, s)
    ensures Remainder(p, bits) != Zero(24)
  {
    BurstShape(bits, s);
    var end := BurstEnd(bits, s);
    var i :| s <= i < end && bits[i];
    ShortNonZero(p, bits[s..end], i - s);
    Padded(p, s, bits[s..end], |bits| - end);
  }

  function BurstEnd(bits: seq<bool>, s: nat): nat { if s + 24 <= |bits| then s + 24 else |bits| }

  lemma {:induction false} BurstShape(bits: seq<bool>, s: nat)
    requires Burst(bits, s)
    ensures s < |bits| && exists i | s <= i < BurstEnd(bits, s) :: bits[i]
    ensures bits == Zeros(s) + bits[s..BurstEnd(bits, s)] + Zeros(|bits| - BurstEnd(bits, s))
  {
    var i :| 0 <= i < |bits| && bits[i];
    var end := BurstEnd(bits, s);
    AllZeros(bits[..s]);
    AllZeros(bits[end..]);
    assert bits == bits[..s] + bits[s..end] + bits[end..];
  }

  lemma {:induction false} ShortNonZero(p: Register, bits: seq<bool>, i: nat)
    requires i < |bits| <= 24 && bits[i]
    ensures Remainder(p, bits) != Zero(24)
  {
    FromBitsNonZero(bits, i);
    ShortRemainder(p, FromBits(bits));
    AppendNonZero(FromBits(bits), 24 - |bits|);
  }

  /** Zeros around a bit string do not make it a multiple of the generator. */
  lemma {:induction false} Padded(p: Register, before: nat, bits: seq<bool>, after: nat)
    requires p.low && Remainder(p, bits) != Zero(24)
    ensures Remainder(p, Zeros(before) + bits + Zeros(after)) != Zero(24)
  {
    RemainderAppend(p, Zero(24), Zeros(before), bits);
    RemainderZeros(p, Zero(24), before);
    PowerZero(p, before);
    RemainderAppend(p, Zero(24), Zeros(before) + bits, Zeros(after));
    RemainderZeros(p, Remainder(p, bits), after);
    PowerNonZero(p, Remainder(p, bits), after);
  }

  // Odd numbers of errors.

  function Parity(a: Poly): bool { if a.Nil? then false else a.low != Parity(a.rest) }

  function OddOnes(bits: seq<bool>): bool { if bits == [] then false else bits[0] != OddOnes(bits[1..]) }

  lemma {:induction false} ParityAdd(a: Poly, b: Poly)
    requires Len(a) == Len(b)
    ensures Parity(Add(a, b)) == (Parity(a) != Parity(b))
  {
    if a.Cons? { ParityAdd(a.rest, b.rest); }
  }

  lemma {:induction false} ParityShift(carry: bool, a: Poly)
    requires a.Cons?
    ensures Parity(Shift(carry, a)) == (carry != (Parity(a) != Top(a)))
    decreases a
  {
    if a.rest.Cons? { ParityShift(a.low, a.rest); }
  }

  lemma {:induction false} ParityZero(n: nat)
    ensures !Parity(Zero(n)) && (n > 0 ==> Parity(Unit(n, 0)))
  {
    if n > 0 { ParityZero(n - 1); }
  }

  /** With an even number of terms in the generator, division keeps the parity. */
  lemma {:induction false} ParityRemainder(p: Register, r: Register, bits: seq<bool>)
    requires Parity(p)
    ensures Parity(RemainderFrom(p, r, bits)) == (Parity(r) != OddOnes(bits))
    decreases |bits|
  {
    if bits != [] {
      ParityNext(p, r, bits[0]);
      ParityRemainder(p, Next(p, r, bits[0]), bits[1..]);
    }
  }

  lemma {:induction false} ParityNext(p: Register, r: Register, bit: bool)
    requires Parity(p)
    ensures Parity(Next(p, r, bit)) == (Parity(r) != bit)
  {
    ParityShift(false, r);
    ParityZero(24);
    ParityAdd(Shift(false, r), When(Top(r), p));
    ParityAdd(TimesX(p, r), When(bit, Unit(24, 0)));
  }

  // Two errors.

  /** Two flipped bits go unnoticed exactly when x to their distance is 1 modulo the generator. */
  lemma {:induction false} DoubleRemainder(p: Register, before: nat, distance: nat, after: nat)
    requires p.low && 0 < distance
    ensures Remainder(p, Zeros(before) + [true] + Zeros(distance - 1) + [true] + Zeros(after)) == Zero(24)
       <==> Power(p, Unit(24, 0), distance) == Unit(24, 0)
  {
    var one := Unit(24, 0);
    var first := Zeros(before) + [true];
    var second := first + Zeros(distance - 1);
    var third := second + [true];
    RemainderZeros(p, Zero(24), before);
    PowerZero(p, before);
    RemainderAppend(p, Zero(24), Zeros(before), [true]);
    TimesXZero(p);
    AddLaws(one, one);
    assert Remainder(p, first) == Next(p, Zero(24), true) == one;
    RemainderAppend(p, Zero(24), first, Zeros(distance - 1));
    RemainderZeros(p, one, distance - 1);
    var r := Power(p, one, distance - 1);
    RemainderAppend(p, Zero(24), second, [true]);
    assert Remainder(p, third) == Next(p, r, true) == Add(Power(p, one, distance), one);
    SumIsZero(Power(p, one, distance), one);
    RemainderAppend(p, Zero(24), third, Zeros(after));
    RemainderZeros(p, Remainder(p, third), after);
    if Remainder(p, third) == Zero(24) {
      PowerZero(p, after);
    } else {
      PowerNonZero(p, Remainder(p, third), after);
    }
  }

  // The generator of CRC-24Q.

  /** Whether an odd number of the low 2 n bits of x is set. */
  function Odd(n: nat, x: bv32): bool {
    if n == 0 then false else (x & 1 == 1) != (((x >> 1) & 1 == 1) != Odd(n - 1, x >> 2))
  }

  lemma {:induction false} TwoShifts(x: bv32)
    ensures x >> 1 >> 1 == x >> 2
  {}

  lemma {:induction false} ParityReads(a: Poly, x: bv32, n: nat)
    requires Reads(a, x) && Len(a) == 2 * n
    ensures Parity(a) == Odd(n, x)
  {
    if n > 0 {
      TwoShifts(x);
      ParityReads(a.rest.rest, x >> 2, n - 1);
    }
  }

  lemma {:induction false} GeneratorParity(g: Word)
    requires Reads(g, POLY)
    ensures Low24(g).low && Parity(Low24(g))
  {
    ReadsTake(g, POLY, 24);
    ParityReads(Low24(g), POLY, 12);
    OddPoly();
  }

  lemma {:induction false} OddPoly()
    ensures Odd(12, POLY) && POLY & 1 == 1
  {
    assert Odd(2, 0x18);
    assert Odd(4, 0x186);
    assert !Odd(6, 0x1864);
    assert !Odd(8, 0x1864C);
    assert !Odd(10, 0x1864CF);
  }

  /** Every burst of at most 24 bits in a signed message is detected, wherever it falls. */
  lemma {:induction false} BurstDetected(g: Word, message: seq<Byte>, error: seq<Byte>, s: nat)
    requires Reads(g, POLY) && |message| == |error| >= 3 && Passes(Low24(g), message)
    requires Burst(MessageBits(error), s)
    ensures !Passes(Low24(g), Corrupted(message, error))
  {
    GeneratorParity(g);
    BurstRemainder(Low24(g), MessageBits(error), s);
    ErrorPasses(Low24(g), message, error);
  }

  /** Every odd number of flipped bits is detected. */
  lemma {:induction false} OddDetected(g: Word, message: seq<Byte>, error: seq<Byte>)
    requires Reads(g, POLY) && |message| == |error| >= 3 && Passes(Low24(g), message)
    requires OddOnes(MessageBits(error))
    ensures !Passes(Low24(g), Corrupted(message, error))
  {
    GeneratorParity(g);
    ParityZero(24);
    ParityRemainder(Low24(g), Zero(24), MessageBits(error));
    ErrorPasses(Low24(g), message, error);
  }

  /** Two flipped bits are detected unless x to their distance is 1 modulo the generator; Crc24Period says when it is. */
  lemma {:induction false} DoubleAtDistance(g: Word, message: seq<Byte>, error: seq<Byte>, before: nat, distance: nat, after: nat)
    requires Reads(g, POLY) && |message| == |error| >= 3 && Passes(Low24(g), message) && 0 < distance
    requires MessageBits(error) == Zeros(before) + [true] + Zeros(distance - 1) + [true] + Zeros(after)
    ensures Passes(Low24(g), Corrupted(message, error)) <==> Power(Low24(g), Unit(24, 0), distance) == Unit(24, 0)
  {
    GeneratorParity(g);
    DoubleRemainder(Low24(g), before, distance, after);
    ErrorPasses(Low24(g), message, error);
  }
}

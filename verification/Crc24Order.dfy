/** The order of x modulo the generator: how far apart two flipped bits must be to go unnoticed. */
module Crc24Order {
  import opened Gf2
  import opened Crc24
  import opened Crc24Table
  import opened Crc24Literal

  /** 2^23 - 1. */
  const PERIOD: nat := 8388607

  function XPower(p: Register, n: nat): Register { Power(p, Unit(24, 0), n) }

  lemma {:induction false} XPowerSum(p: Register, m: nat, n: nat)
    ensures XPower(p, m + n) == Power(p, XPower(p, m), n) == Mul(p, XPower(p, m), XPower(p, n))
  {
    var one, b := Unit(24, 0), XPower(p, n);
    PowerPower(p, one, m, n);
    PowerPower(p, one, n, m);
    MulLowPower(p, one, b, 24, m);
    OneMul(p, b);
  }

  // Squares are sums of squares.

  /** The square of the coefficients of b, of which the first belongs to x^j. */
  function SquareFrom(p: Register, b: Poly, j: nat): Register {
    if b.Nil? then Zero(24) else Add(When(b.low, XPower(p, 2 * j)), SquareFrom(p, b.rest, j + 1))
  }

  lemma {:induction false} SquareAdd(p: Register, a: Register, b: Register)
    ensures Mul(p, Add(a, b), Add(a, b)) == Add(Mul(p, a, a), Mul(p, b, b))
  {
    var s, ab := Add(a, b), Mul(p, a, b);
    RingLaws(p, s, a, b);
    RingLaws(p, a, a, b);
    RingLaws(p, b, a, b);
    RingLaws(p, a, s, b);
    RingLaws(p, b, s, a);
    Exchange(Mul(p, a, a), ab, ab, Mul(p, b, b));
    Exchange(Mul(p, a, a), ab, Mul(p, b, b), ab);
    AddLaws(ab, ab);
    AddLaws(ab, Mul(p, b, b));
    AddLaws(Add(Mul(p, a, a), Mul(p, b, b)), ab);
  }

  lemma {:induction false} SquareUnit(p: Register, bit: bool, j: nat)
    requires j < 24
    ensures Mul(p, When(bit, Unit(24, j)), When(bit, Unit(24, j))) == When(bit, XPower(p, 2 * j))
  {
    PowerUnit(p, j);
    XPowerSum(p, j, j);
    RingLaws(p, Zero(24), Zero(24), Zero(24));
  }

  lemma {:induction false} SquareIs(p: Register, b: Poly, j: nat)
    requires Len(b) + j == 24
    ensures Mul(p, Append(Zero(j), b), Append(Zero(j), b)) == SquareFrom(p, b, j)
    decreases b
  {
    if b.Nil? {
      AppendNil(Zero(24));
      RingLaws(p, Zero(24), Zero(24), Zero(24));
    } else {
      AppendUnit(j, b.low, b.rest);
      SquareAdd(p, When(b.low, Unit(24, j)), Append(Zero(j + 1), b.rest));
      SquareUnit(p, b.low, j);
      SquareIs(p, b.rest, j + 1);
    }
  }

  // The same on machine words.

  /** The word y is x to the n. */
  ghost predicate IsPower(g: Word, n: nat, y: bv32) { Reads(XPower(Low24(g), n), y) }

  function Pick(x: bv32, c: bv32): bv32 { if x & 1 == 1 then c else 0 }

  /** What the lowest coefficient adds to a square. */
  function Mix(x: bv32, c: bv32, rest: bv32): bv32 { Pick(x, c) ^ rest }

  /** What four coefficients add to a square. */
  function Four(x: bv32, c0: bv32, c1: bv32, c2: bv32, c3: bv32, rest: bv32): bv32 {
    Mix(x, c0, Mix(x >> 1, c1, Mix(x >> 1 >> 1, c2, Mix(x >> 1 >> 1 >> 1, c3, rest))))
  }

  // The square of what the coefficients from 4 i on make, for each i.

  function Square5(x: bv32): bv32 { Four(x, 0x8309D7, 0x86F251, 0x911C49, 0xCEA429, 0) }

  function Square4(x: bv32): bv32 { Four(x, 0x668F48, 0x1C71DB, 0x71C76C, 0x41514B, Square5(x >> 4)) }

  function Square3(x: bv32): bv32 { Four(x, 0x864CFB, 0x93E6E1, 0xC54E89, 0x19A3D2, Square4(x >> 4)) }

  function Square2(x: bv32): bv32 { Four(x, 0x010000, 0x040000, 0x100000, 0x400000, Square3(x >> 4)) }

  function Square1(x: bv32): bv32 { Four(x, 0x000100, 0x000400, 0x001000, 0x004000, Square2(x >> 4)) }

  function Square0(x: bv32): bv32 { Four(x, 0x000001, 0x000004, 0x000010, 0x000040, Square1(x >> 4)) }

  function SquareValue(x: bv32): bv32 { Square0(x) }

  lemma {:induction false} NextIs(g: Word, a: Register, x: bv32)
    requires Reads(g, POLY) && Reads(a, x)
    ensures Reads(TimesX(Low24(g), a), NextValue(POLY, x))
  {
    var w := WordBits(32, x);
    ReadsTake(w, x, 24);
    ReadsSame(Low24(w), a, x);
    NextValueIs(g, w, POLY, x);
    NextWordIsTimesX(g, w);
    ReadsTake(NextWord(g, w), NextValue(POLY, x), 24);
  }

  lemma {:induction false} ReadsZero(n: nat)
    ensures Reads(Zero(n), 0)
  {
    if n > 0 { ReadsZero(n - 1); }
  }

  lemma {:induction false} IsOne(g: Word)
    ensures IsPower(g, 0, 1)
  {
    ReadsZero(23);
  }

  lemma {:induction false} NextPower(g: Word, n: nat, x: bv32, y: bv32)
    requires Reads(g, POLY) && IsPower(g, n, x) && NextValue(POLY, x) == y
    ensures IsPower(g, n + 1, y)
  {
    NextIs(g, XPower(Low24(g), n), x);
  }

  lemma {:induction false} PickReads(g: Word, b: Poly, x: bv32, j: nat, c: bv32, rest: bv32)
    requires b.Cons? && Reads(b, x) && IsPower(g, 2 * j, c) && Reads(SquareFrom(Low24(g), b.rest, j + 1), rest)
    ensures Reads(SquareFrom(Low24(g), b, j), Mix(x, c, rest))
  {
    var p := Low24(g);
    ReadsZero(24);
    ReadsXor(When(b.low, XPower(p, 2 * j)), SquareFrom(p, b.rest, j + 1), Pick(x, c), rest);
  }

  lemma {:induction false} FourOf(b: Poly)
    requires Len(b) >= 4
    ensures b.Cons? && b.rest.Cons? && b.rest.rest.Cons? && b.rest.rest.rest.Cons?
    ensures Drop(b, 4) == b.rest.rest.rest.rest
  {
    assert Len(b) == 1 + Len(b.rest);
    assert Len(b.rest) == 1 + Len(b.rest.rest);
    assert Len(b.rest.rest) == 1 + Len(b.rest.rest.rest);
    assert Drop(b, 4) == Drop(b.rest, 3);
    assert Drop(b.rest, 3) == Drop(b.rest.rest, 2);
    assert Drop(b.rest.rest, 2) == Drop(b.rest.rest.rest, 1);
    assert Drop(b.rest.rest.rest, 1) == Drop(b.rest.rest.rest.rest, 0);
  }

  lemma {:induction false} FourReads(g: Word, b: Poly, x: bv32, j: nat, c0: bv32, c1: bv32, c2: bv32, c3: bv32, rest: bv32)
    requires Len(b) >= 4 && Reads(b, x)
    requires IsPower(g, 2 * j, c0) && IsPower(g, 2 * j + 2, c1) && IsPower(g, 2 * j + 4, c2) && IsPower(g, 2 * j + 6, c3)
    requires Reads(SquareFrom(Low24(g), Drop(b, 4), j + 4), rest)
    ensures Reads(SquareFrom(Low24(g), b, j), Four(x, c0, c1, c2, c3, rest))
  {
    FourOf(b);
    ReadsRests(b, x);
    var x1, x2, x3 := x >> 1, x >> 1 >> 1, x >> 1 >> 1 >> 1;
    PickReads(g, b.rest.rest.rest, x3, j + 3, c3, rest);
    var r3 := Mix(x3, c3, rest);
    PickReads(g, b.rest.rest, x2, j + 2, c2, r3);
    var r2 := Mix(x2, c2, r3);
    PickReads(g, b.rest, x1, j + 1, c1, r2);
    PickReads(g, b, x, j, c0, Mix(x1, c1, r2));
  }

  lemma {:induction false} ReadsRests(b: Poly, x: bv32)
    requires b.Cons? && b.rest.Cons? && b.rest.rest.Cons? && b.rest.rest.rest.Cons? && Reads(b, x)
    ensures Reads(b.rest, x >> 1) && Reads(b.rest.rest, x >> 1 >> 1) && Reads(b.rest.rest.rest, x >> 1 >> 1 >> 1)
    ensures Reads(b.rest.rest.rest.rest, x >> 1 >> 1 >> 1 >> 1)
  {}

  lemma {:induction false} FourShifts(x: bv32)
    ensures x >> 1 >> 1 >> 1 >> 1 == x >> 4
  {}

  lemma {:induction false} ReadsFour(b: Poly, x: bv32)
    requires Len(b) >= 4 && Reads(b, x)
    ensures Reads(Drop(b, 4), x >> 4)
  {
    FourOf(b);
    ReadsRests(b, x);
    FourShifts(x);
  }

  lemma {:induction false} SquarePower(p: Register, n: nat)
    ensures SquareFrom(p, XPower(p, n), 0) == XPower(p, 2 * n)
  {
    XPowerSum(p, n, n);
    SquareIs(p, XPower(p, n), 0);
  }

  // The squares of the first powers.

  lemma {:induction false} Columns0(g: Word)
    requires Reads(g, POLY)
    ensures IsPower(g, 0, 0x000001) && IsPower(g, 2, 0x000004) && IsPower(g, 4, 0x000010) && IsPower(g, 6, 0x000040)
  {
    IsOne(g);
    NextPower(g, 0, 0x000001, 0x000002);
    NextPower(g, 1, 0x000002, 0x000004);
    NextPower(g, 2, 0x000004, 0x000008);
    NextPower(g, 3, 0x000008, 0x000010);
    NextPower(g, 4, 0x000010, 0x000020);
    NextPower(g, 5, 0x000020, 0x000040);
  }

  lemma {:induction false} Columns1(g: Word)
    requires Reads(g, POLY) && IsPower(g, 6, 0x000040)
    ensures IsPower(g, 8, 0x000100) && IsPower(g, 10, 0x000400) && IsPower(g, 12, 0x001000) && IsPower(g, 14, 0x004000)
  {
    NextPower(g, 6, 0x000040, 0x000080);
    NextPower(g, 7, 0x000080, 0x000100);
    NextPower(g, 8, 0x000100, 0x000200);
    NextPower(g, 9, 0x000200, 0x000400);
    NextPower(g, 10, 0x000400, 0x000800);
    NextPower(g, 11, 0x000800, 0x001000);
    NextPower(g, 12, 0x001000, 0x002000);
    NextPower(g, 13, 0x002000, 0x004000);
  }

  lemma {:induction false} Columns2(g: Word)
    requires Reads(g, POLY) && IsPower(g, 14, 0x004000)
    ensures IsPower(g, 16, 0x010000) && IsPower(g, 18, 0x040000) && IsPower(g, 20, 0x100000) && IsPower(g, 22, 0x400000)
  {
    NextPower(g, 14, 0x004000, 0x008000);
    NextPower(g, 15, 0x008000, 0x010000);
    NextPower(g, 16, 0x010000, 0x020000);
    NextPower(g, 17, 0x020000, 0x040000);
    NextPower(g, 18, 0x040000, 0x080000);
    NextPower(g, 19, 0x080000, 0x100000);
    NextPower(g, 20, 0x100000, 0x200000);
    NextPower(g, 21, 0x200000, 0x400000);
  }

  lemma {:induction false} Columns3(g: Word)
    requires Reads(g, POLY) && IsPower(g, 22, 0x400000)
    ensures IsPower(g, 24, 0x864CFB) && IsPower(g, 26, 0x93E6E1) && IsPower(g, 28, 0xC54E89) && IsPower(g, 30, 0x19A3D2)
  {
    NextPower(g, 22, 0x400000, 0x800000);
    NextPower(g, 23, 0x800000, 0x864CFB);
    NextPower(g, 24, 0x864CFB, 0x8AD50D);
    NextPower(g, 25, 0x8AD50D, 0x93E6E1);
    NextPower(g, 26, 0x93E6E1, 0xA18139);
    NextPower(g, 27, 0xA18139, 0xC54E89);
    NextPower(g, 28, 0xC54E89, 0x0CD1E9);
    NextPower(g, 29, 0x0CD1E9, 0x19A3D2);
  }

  lemma {:induction false} Columns4(g: Word)
    requires Reads(g, POLY) && IsPower(g, 30, 0x19A3D2)
    ensures IsPower(g, 32, 0x668F48) && IsPower(g, 34, 0x1C71DB) && IsPower(g, 36, 0x71C76C) && IsPower(g, 38, 0x41514B)
  {
    NextPower(g, 30, 0x19A3D2, 0x3347A4);
    NextPower(g, 31, 0x3347A4, 0x668F48);
    NextPower(g, 32, 0x668F48, 0xCD1E90);
    NextPower(g, 33, 0xCD1E90, 0x1C71DB);
    NextPower(g, 34, 0x1C71DB, 0x38E3B6);
    NextPower(g, 35, 0x38E3B6, 0x71C76C);
    NextPower(g, 36, 0x71C76C, 0xE38ED8);
    NextPower(g, 37, 0xE38ED8, 0x41514B);
  }

  lemma {:induction false} Columns5(g: Word)
    requires Reads(g, POLY) && IsPower(g, 38, 0x41514B)
    ensures IsPower(g, 40, 0x8309D7) && IsPower(g, 42, 0x86F251) && IsPower(g, 44, 0x911C49) && IsPower(g, 46, 0xCEA429)
  {
    NextPower(g, 38, 0x41514B, 0x82A296);
    NextPower(g, 39, 0x82A296, 0x8309D7);
    NextPower(g, 40, 0x8309D7, 0x805F55);
    NextPower(g, 41, 0x805F55, 0x86F251);
    NextPower(g, 42, 0x86F251, 0x8BA859);
    NextPower(g, 43, 0x8BA859, 0x911C49);
    NextPower(g, 44, 0x911C49, 0xA47469);
    NextPower(g, 45, 0xA47469, 0xCEA429);
  }

  lemma {:induction false} SquareReads5(g: Word, b: Poly, x: bv32)
    requires Reads(g, POLY) && Reads(b, x) && Len(b) == 4 && IsPower(g, 38, 0x41514B)
    ensures Reads(SquareFrom(Low24(g), b, 20), Square5(x))
  {
    Columns5(g);
    ReadsFour(b, x);
    var more := Drop(b, 4);
    assert more.Nil?;
    ReadsZero(24);
    FourReads(g, b, x, 20, 0x8309D7, 0x86F251, 0x911C49, 0xCEA429, 0);
  }

  lemma {:induction false} SquareReads4(g: Word, b: Poly, x: bv32)
    requires Reads(g, POLY) && Reads(b, x) && Len(b) == 8 && IsPower(g, 30, 0x19A3D2)
    ensures Reads(SquareFrom(Low24(g), b, 16), Square4(x))
  {
    Columns4(g);
    ReadsFour(b, x);
    var more := Drop(b, 4);
    SquareReads5(g, more, x >> 4);
    FourReads(g, b, x, 16, 0x668F48, 0x1C71DB, 0x71C76C, 0x41514B, Square5(x >> 4));
  }

  lemma {:induction false} SquareReads3(g: Word, b: Poly, x: bv32)
    requires Reads(g, POLY) && Reads(b, x) && Len(b) == 12 && IsPower(g, 22, 0x400000)
    ensures Reads(SquareFrom(Low24(g), b, 12), Square3(x))
  {
    Columns3(g);
    ReadsFour(b, x);
    var more := Drop(b, 4);
    SquareReads4(g, more, x >> 4);
    FourReads(g, b, x, 12, 0x864CFB, 0x93E6E1, 0xC54E89, 0x19A3D2, Square4(x >> 4));
  }

  lemma {:induction false} SquareReads2(g: Word, b: Poly, x: bv32)
    requires Reads(g, POLY) && Reads(b, x) && Len(b) == 16 && IsPower(g, 14, 0x004000)
    ensures Reads(SquareFrom(Low24(g), b, 8), Square2(x))
  {
    Columns2(g);
    ReadsFour(b, x);
    var more := Drop(b, 4);
    SquareReads3(g, more, x >> 4);
    FourReads(g, b, x, 8, 0x010000, 0x040000, 0x100000, 0x400000, Square3(x >> 4));
  }

  lemma {:induction false} SquareReads1(g: Word, b: Poly, x: bv32)
    requires Reads(g, POLY) && Reads(b, x) && Len(b) == 20 && IsPower(g, 6, 0x000040)
    ensures Reads(SquareFrom(Low24(g), b, 4), Square1(x))
  {
    Columns1(g);
    ReadsFour(b, x);
    var more := Drop(b, 4);
    SquareReads2(g, more, x >> 4);
    FourReads(g, b, x, 4, 0x000100, 0x000400, 0x001000, 0x004000, Square2(x >> 4));
  }

  lemma {:induction false} SquareReads0(g: Word, b: Poly, x: bv32)
    requires Reads(g, POLY) && Reads(b, x) && Len(b) == 24
    ensures Reads(SquareFrom(Low24(g), b, 0), Square0(x))
  {
    Columns0(g);
    ReadsFour(b, x);
    var more := Drop(b, 4);
    SquareReads1(g, more, x >> 4);
    FourReads(g, b, x, 0, 0x000001, 0x000004, 0x000010, 0x000040, Square1(x >> 4));
  }

  lemma {:induction false} Squared(g: Word, n: nat, x: bv32, y: bv32)
    requires Reads(g, POLY) && IsPower(g, n, x) && SquareValue(x) == y
    ensures IsPower(g, 2 * n, y)
  {
    SquarePower(Low24(g), n);
    SquareReads0(g, XPower(Low24(g), n), x);
  }

  // One square after another, with one more factor for every bit of the exponent.

  lemma {:induction false} AllOnes0(g: Word)
    requires Reads(g, POLY)
    ensures IsPower(g, 255, 0x65C007)
  {
    IsOne(g);
    NextPower(g, 0, 0x000001, 0x000002);
    Squared(g, 1, 0x000002, 0x000004);
    NextPower(g, 2, 0x000004, 0x000008);
    Squared(g, 3, 0x000008, 0x000040);
    NextPower(g, 6, 0x000040, 0x000080);
    Squared(g, 7, 0x000080, 0x004000);
    NextPower(g, 14, 0x004000, 0x008000);
    Squared(g, 15, 0x008000, 0x19A3D2);
    NextPower(g, 30, 0x19A3D2, 0x3347A4);
    Squared(g, 31, 0x3347A4, 0xAF0F8C);
    NextPower(g, 62, 0xAF0F8C, 0xD853E3);
    Squared(g, 63, 0xD853E3, 0xDBB68B);
    NextPower(g, 126, 0xDBB68B, 0x3121ED);
    Squared(g, 127, 0x3121ED, 0xF1C67E);
    NextPower(g, 254, 0xF1C67E, 0x65C007);
  }

  lemma {:induction false} AllOnes1(g: Word)
    requires Reads(g, POLY) && IsPower(g, 255, 0x65C007)
    ensures IsPower(g, 65535, 0xAED36E)
  {
    Squared(g, 255, 0x65C007, 0xDC4B72);
    NextPower(g, 510, 0xDC4B72, 0x3EDA1F);
    Squared(g, 511, 0x3EDA1F, 0x37BC8F);
    NextPower(g, 1022, 0x37BC8F, 0x6F791E);
    Squared(g, 1023, 0x6F791E, 0xCC636B);
    NextPower(g, 2046, 0xCC636B, 0x1E8A2D);
    Squared(g, 2047, 0x1E8A2D, 0xF249A8);
    NextPower(g, 4094, 0xF249A8, 0x62DFAB);
    Squared(g, 4095, 0x62DFAB, 0x047A26);
    NextPower(g, 8190, 0x047A26, 0x08F44C);
    Squared(g, 8191, 0x08F44C, 0x98065A);
    NextPower(g, 16382, 0x98065A, 0xB6404F);
    Squared(g, 16383, 0xB6404F, 0x63B7C4);
    NextPower(g, 32766, 0x63B7C4, 0xC76F88);
    Squared(g, 32767, 0xC76F88, 0x5769B7);
    NextPower(g, 65534, 0x5769B7, 0xAED36E);
  }

  lemma {:induction false} AllOnes2(g: Word)
    requires Reads(g, POLY) && IsPower(g, 65535, 0xAED36E)
    ensures IsPower(g, 8388607, 0x000001)
  {
    Squared(g, 65535, 0xAED36E, 0x3B0470);
    NextPower(g, 131070, 0x3B0470, 0x7608E0);
    Squared(g, 131071, 0x7608E0, 0xB90578);
    NextPower(g, 262142, 0xB90578, 0xF4460B);
    Squared(g, 262143, 0xF4460B, 0xFACA46);
    NextPower(g, 524286, 0xFACA46, 0x73D877);
    Squared(g, 524287, 0x73D877, 0xF4ADE9);
    NextPower(g, 1048574, 0xF4ADE9, 0x6F1729);
    Squared(g, 1048575, 0x6F1729, 0xCECE16);
    NextPower(g, 2097150, 0xCECE16, 0x1BD0D7);
    Squared(g, 2097151, 0x1BD0D7, 0xE256BA);
    NextPower(g, 4194302, 0xE256BA, 0x42E18F);
    Squared(g, 4194303, 0x42E18F, 0xC3267D);
    NextPower(g, 8388606, 0xC3267D, 0x000001);
  }

  lemma {:induction false} Cofactor0(g: Word)
    requires Reads(g, POLY)
    ensures IsPower(g, 174, 0xE109EF)
  {
    IsOne(g);
    NextPower(g, 0, 0x000001, 0x000002);
    Squared(g, 1, 0x000002, 0x000004);
    Squared(g, 2, 0x000004, 0x000010);
    NextPower(g, 4, 0x000010, 0x000020);
    Squared(g, 5, 0x000020, 0x000400);
    Squared(g, 10, 0x000400, 0x100000);
    NextPower(g, 20, 0x100000, 0x200000);
    Squared(g, 21, 0x200000, 0x86F251);
    NextPower(g, 42, 0x86F251, 0x8BA859);
    Squared(g, 43, 0x8BA859, 0x3F5F83);
    NextPower(g, 86, 0x3F5F83, 0x7EBF06);
    Squared(g, 87, 0x7EBF06, 0xE109EF);
  }

  lemma {:induction false} Cofactor1(g: Word)
    requires Reads(g, POLY) && IsPower(g, 174, 0xE109EF)
    ensures IsPower(g, 44620, 0x0F24AE)
  {
    Squared(g, 174, 0xE109EF, 0xFE912C);
    Squared(g, 348, 0xFE912C, 0xE84F63);
    NextPower(g, 696, 0xE84F63, 0x56D23D);
    Squared(g, 697, 0x56D23D, 0x2107D8);
    Squared(g, 1394, 0x2107D8, 0xF52C59);
    Squared(g, 2788, 0xF52C59, 0x8EFC62);
    NextPower(g, 5576, 0x8EFC62, 0x9BB43F);
    Squared(g, 5577, 0x9BB43F, 0x6A0EBB);
    NextPower(g, 11154, 0x6A0EBB, 0xD41D76);
    Squared(g, 11155, 0xD41D76, 0x7A2F34);
    Squared(g, 22310, 0x7A2F34, 0x0F24AE);
  }

  lemma {:induction false} Cofactor2(g: Word)
    requires Reads(g, POLY) && IsPower(g, 44620, 0x0F24AE)
    ensures IsPower(g, 178481, 0x475A89)
  {
    Squared(g, 44620, 0x0F24AE, 0xC9CA01);
    Squared(g, 89240, 0xC9CA01, 0xE08B39);
    NextPower(g, 178480, 0xE08B39, 0x475A89);
  }
}

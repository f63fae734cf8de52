/** The table of CRC-24Q, built and literal, and hashing a byte at a time with it. */
module Crc24Table {
  import opened Words
  import opened Gf2
  import opened Crc24

  /** The source's 32-bit unsigned integers. */
  type Word = w: Poly | Len(w) == 32 witness Bits(32, 0)

  /** The low 24 bits, which alone matter. */
  function Low24(w: Word): Register { Take(w, 24) }

  // The table entry of a byte is the sum, over its bits, of words that are the powers of x from
  // x^24 on. g is the generator as a word, with its leading bit.

  function NextWord(g: Word, h: Word): Word {
    var doubled := Shift(false, h);
    if Coefficient(doubled, 24) then Add(doubled, g) else doubled
  }

  function CombineWords(g: Word, b: Poly, h: Word): Word {
    if b.Nil? then Zero(32) else Add(When(b.low, h), CombineWords(g, b.rest, NextWord(g, h)))
  }

  /** The word for bit k of the index. */
  function PowerWord(g: Word, h: Word, k: nat): Word { if k == 0 then h else NextWord(g, PowerWord(g, h, k - 1)) }

  function Entry(g: Word, b: Byte): Word { CombineWords(g, b, g) }

  lemma {:induction false} CoefficientShift(carry: bool, a: Poly, i: nat)
    requires 0 < i < Len(a)
    ensures Coefficient(Shift(carry, a), i) == Coefficient(a, i - 1)
    decreases i
  {
    if i > 1 { CoefficientShift(a.low, a.rest, i - 1); }
  }

  /** Modulo the generator, the next word is x times the last, whatever is in the high bits. */
  lemma {:induction false} NextWordIsTimesX(g: Word, h: Word)
    ensures Low24(NextWord(g, h)) == TimesX(Low24(g), Low24(h))
  {
    var doubled, low := Shift(false, h), Low24(h);
    TakeShift(false, h, 24);
    CoefficientShift(false, h, 24);
    TopOfTake(h, 24);
    TakeAdd(doubled, g, 24);
    AddLaws(Shift(false, low), Shift(false, low));
  }

  lemma {:induction false} CombineWordsIsCombine(g: Word, b: Poly, h: Word)
    ensures Low24(CombineWords(g, b, h)) == Combine(Low24(g), b, Low24(h))
  {
    if b.Nil? {
      TakeZero(32, 24);
    } else {
      CombineWordsIsCombine(g, b.rest, NextWord(g, h));
      NextWordIsTimesX(g, h);
      TakeAdd(When(b.low, h), CombineWords(g, b.rest, NextWord(g, h)), 24);
      TakeZero(32, 24);
    }
  }

  lemma {:induction false} TopUnit(n: nat)
    ensures Shift(false, Unit(n + 1, n)) == Zero(n + 1) && Top(Unit(n + 1, n))
    ensures Shift(true, Unit(n + 1, n)) == Unit(n + 1, 0)
  {
    if n > 0 { TopUnit(n - 1); }
  }

  lemma {:induction false} FirstPower(p: Register)
    ensures TimesX(p, Unit(24, 23)) == p
  {
    TopUnit(23);
    AddLaws(p, p);
  }

  /** An entry is its index times x^24, modulo the generator. */
  lemma {:induction false} EntryIsRemainder(g: Word, b: Byte)
    ensures Low24(Entry(g, b)) == FeedAll(Low24(g), Zero(24), b)
         == Remainder(Low24(g), BitsOf(b) + Zeros(24))
  {
    var p := Low24(g);
    CombineWordsIsCombine(g, b, g);
    FirstPower(p);
    FeedAllIsCombine(p, b);
    PowerZero(p, 24);
    FeedAllIsRemainder(p, Zero(24), b);
    RemainderAppend(p, Zero(24), BitsOf(b), Zeros(24));
    RemainderZeros(p, Remainder(p, BitsOf(b)), 24);
  }

  // Entries add up as their indices do, which is how the table is built.

  lemma {:induction false} CombineWordsAdd(g: Word, b: Poly, c: Poly, h: Word)
    requires Len(b) == Len(c)
    ensures CombineWords(g, Add(b, c), h) == Add(CombineWords(g, b, h), CombineWords(g, c, h))
  {
    if b.Nil? {
      AddLaws(Zero(32), Zero(32));
    } else {
      var next := NextWord(g, h);
      CombineWordsAdd(g, b.rest, c.rest, next);
      WhenSum(b.low, c.low, h);
      Exchange(When(b.low, h), When(c.low, h), CombineWords(g, b.rest, next), CombineWords(g, c.rest, next));
    }
  }

  lemma {:induction false} CombineZero(g: Word, n: nat, h: Word)
    ensures CombineWords(g, Zero(n), h) == Zero(32)
  {
    if n > 0 {
      CombineZero(g, n - 1, NextWord(g, h));
      AddLaws(Zero(32), Zero(32));
    }
  }

  lemma {:induction false} PowerWordFirst(g: Word, h: Word, k: nat)
    ensures PowerWord(g, NextWord(g, h), k) == PowerWord(g, h, k + 1)
  {
    if k > 0 { PowerWordFirst(g, h, k - 1); }
  }

  lemma {:induction false} CombineUnit(g: Word, n: nat, k: nat, h: Word)
    requires k < n
    ensures CombineWords(g, Unit(n, k), h) == PowerWord(g, h, k)
    decreases n
  {
    if k == 0 {
      CombineZero(g, n - 1, NextWord(g, h));
      AddLaws(h, h);
    } else {
      CombineUnit(g, n - 1, k - 1, NextWord(g, h));
      PowerWordFirst(g, h, k - 1);
      AddNothing(h, PowerWord(g, h, k));
    }
  }

  /** The entry at index i. */
  function EntryAt(g: Word, i: nat): Word { Entry(g, Bits(8, i)) }

  lemma {:induction false} EntryAbove(g: Word, k: nat, j: nat)
    requires k < 8 && j < Pow2(k)
    ensures EntryAt(g, Pow2(k) + j) == Add(EntryAt(g, j), PowerWord(g, g, k))
  {
    BitsAbove(8, k, j);
    CombineWordsAdd(g, Bits(8, j), Unit(8, k), g);
    CombineUnit(g, 8, k, g);
  }

  lemma {:induction false} EntryZero(g: Word)
    ensures EntryAt(g, 0) == Zero(32)
  {
    BitsOfZero(8);
    CombineZero(g, 8, g);
  }
}

/** Hashing, signing and checking messages with CRC-24Q. */
module Crc24Hash {
  import opened Words
  import opened Gf2
  import opened Crc24
  import opened Crc24Table
  import opened Crc24Literal

  /** The generator of CRC-24Q as a word. */
  function Generator(): (g: Word)
    ensures Reads(g, POLY)
  { WordBits(32, POLY) }

  /** The message times x^24, modulo the generator. */
  function HashOf(p: Register, message: seq<Byte>): Register { Remainder(p, MessageBits(message) + Zeros(24)) }

  /** Builds the table. */
  method CrcInit(table: array<Word>)
    requires table.Length == 256
    modifies table
    ensures forall i | 0 <= i < 256 :: table[i] == EntryAt(Generator(), i)
  {
    BuildTable(table, Generator());
  }

  /** The table for a generator g. */
  method BuildTable(table: array<Word>, g: Word)
    requires table.Length == 256
    modifies table
    ensures forall i | 0 <= i < 256 :: table[i] == EntryAt(g, i)
  {
    var h := g;
    table[0], table[1] := Zero(32), h;
    FirstEntries(g);
    var i := 2;
    ghost var k: nat := 1;
    while i < 256
      invariant 1 <= k <= 8 && i == Pow2(k) && h == PowerWord(g, g, k - 1)
      invariant forall j | 0 <= j < i && j < 256 :: table[j] == EntryAt(g, j)
      decreases 8 - k
    {
      Pow2Bound(k);
      h := Shift(false, h);
      if Coefficient(h, 24) { h := Add(h, g); }
      FillCopies(table, g, k, i, h);
      i, k := i * 2, k + 1;
    }
    Pow2Bound(k);
  }

  lemma {:induction false} FirstEntries(g: Word)
    ensures EntryAt(g, 0) == Zero(32) && EntryAt(g, 1) == g
  {
    EntryZero(g);
    EntryAbove(g, 0, 0);
    AddLaws(g, g);
  }

  /** The entries from i to 2 i are those below i, each with h added. */
  method FillCopies(table: array<Word>, ghost g: Word, ghost k: nat, i: nat, h: Word)
    requires table.Length == 256 && k < 8 && i == Pow2(k) <= 128 && h == PowerWord(g, g, k)
    requires forall j | 0 <= j < i :: table[j] == EntryAt(g, j)
    modifies table
    ensures forall j | 0 <= j < 2 * i :: table[j] == EntryAt(g, j)
  {
    var j := 0;
    while j < i
      invariant j <= i && forall n | 0 <= n < i + j :: table[n] == EntryAt(g, n)
    {
      EntryAbove(g, k, j);
      table[i + j] := Add(table[j], h);
      j := j + 1;
    }
  }

  lemma {:induction false} Pow2Bound(k: nat)
    requires k <= 8
    ensures Pow2(k) <= 256 && (k < 8 <==> Pow2(k) <= 128)
  {
    assert Pow2(2) == 4 && Pow2(4) == 16 && Pow2(6) == 64 && Pow2(7) == 128 && Pow2(8) == 256;
    Pow2Monotone(k, 8);
    if k < 8 { Pow2Monotone(k, 7); } else { assert k == 8; }
  }

  // One byte of the message.

  /** Bits 8 * n to 8 * n + 7 of a word. */
  function ByteOf(w: Word, n: nat): Byte
    requires n < 4
  { Take(Drop(w, 8 * n), 8) }

  /** What the loop makes of the register and one byte. */
  function Stepped(g: Word, crc: Word, b: Byte): Word {
    Add(Append(Zero(8), Take(crc, 24)), Entry(g, Add(b, ByteOf(crc, 2))))
  }

  lemma {:induction false} TakeOfDrop(a: Poly, m: nat, n: nat)
    requires m + n <= Len(a)
    ensures Take(Drop(a, m), n) == Drop(Take(a, m + n), m)
  {
    if m > 0 { TakeOfDrop(a.rest, m - 1, n); }
  }

  /** Feeding a byte: the bits leaving the register at the top select what is added below. */
  lemma {:induction false} FeedSplit(p: Register, low: Poly, high: Byte, b: Byte)
    requires Len(low) == 16
    ensures FeedAll(p, Append(low, high), b) == Add(Append(Zero(8), low), FeedAll(p, Zero(24), Add(b, high)))
  {
    var entering: Register := Append(Zero(16), b);
    var staying, leaving: Register := Append(low, Zero(8)), Append(Zero(16), Add(b, high));
    FeedAllIsPower(p, Append(low, high), b);
    FeedAllIsPower(p, Zero(24), Add(b, high));
    SplitRegister(low, high, b);
    PowerAdd(p, staying, leaving, 8);
    PowerIsShift(p, low, 8);
    AddLaws(leaving, leaving);
  }

  lemma {:induction false} SplitRegister(low: Poly, high: Byte, b: Byte)
    requires Len(low) == 16
    ensures Add(Append(low, high), Append(Zero(16), b)) == Add(Append(low, Zero(8)), Append(Zero(16), Add(b, high)))
  {
    AddAppend(low, high, Zero(16), b);
    AddAppend(low, Zero(8), Zero(16), Add(b, high));
    AddLaws(high, b);
    AddLaws(Add(b, high), Add(b, high));
  }

  /** The table step is eight bit steps, whatever the high byte of the word holds. */
  lemma {:induction false} SteppedIsFed(g: Word, crc: Word, b: Byte)
    ensures Low24(Stepped(g, crc, b)) == FeedAll(Low24(g), Low24(crc), b)
  {
    var r := Low24(crc);
    var low, high := Take(r, 16), ByteOf(crc, 2);
    TakeOfDrop(crc, 16, 8);
    TakeDrop(r, 16);
    FeedSplit(Low24(g), low, high, b);
    EntryIsRemainder(g, Add(b, high));
    TakeAdd(Append(Zero(8), r), Entry(g, Add(b, high)), 24);
    TakeAppend(Zero(8), r, 16);
  }

  /** The hash of a longer message. */
  lemma {:induction false} HashNext(p: Register, message: seq<Byte>, b: Byte)
    ensures HashOf(p, message + [b]) == FeedAll(p, HashOf(p, message), b)
  {
    MessageBitsAppend(message, [b]);
    var bits := MessageBits(message);
    var r := Remainder(p, bits);
    HashIsPower(p, message);
    HashIsPower(p, message + [b]);
    FeedAllIsRemainder(p, r, b);
    assert MessageBits([b]) == BitsOf(b);
    RemainderAppend(p, Zero(24), bits, BitsOf(b));
  }

  lemma {:induction false} HashIsPower(p: Register, message: seq<Byte>)
    ensures HashOf(p, message) == Power(p, Remainder(p, MessageBits(message)), 24)
  {
    RemainderAppend(p, Zero(24), MessageBits(message), Zeros(24));
    RemainderZeros(p, Remainder(p, MessageBits(message)), 24);
  }

  lemma {:induction false} MessageBitsAppend(a: seq<Byte>, b: seq<Byte>)
    ensures MessageBits(a + b) == MessageBits(a) + MessageBits(b)
    decreases |a|
  {
    if a == [] {
      assert a + b == b;
    } else {
      assert (a + b)[1..] == a[1..] + b;
      MessageBitsAppend(a[1..], b);
    }
  }

  /** For every message, the hash is the remainder of bit by bit division. */
  method Hash(data: array<Byte>, len: nat) returns (crc: Word)
    requires len <= data.Length
    ensures crc == Append(HashOf(Low24(Generator()), data[..len]), Zero(8))
  {
    ghost var g := Generator();
    crc := Zero(32);
    TakeZero(32, 24);
    HashOfNothing(Low24(g));
    var i := 0;
    while i < len
      invariant i <= len && Low24(crc) == HashOf(Low24(g), data[..i])
    {
      var index := Add(data[i], ByteOf(crc, 2));
      BitsValue(index);
      LiteralTable(g, Value(index));
      SteppedIsFed(g, crc, data[i]);
      HashNext(Low24(g), data[..i], data[i]);
      assert data[..i + 1] == data[..i] + [data[i]];
      crc := Add(Append(Zero(8), Take(crc, 24)), WordBits(32, TableAt(CRC24Q, Value(index))));
      i := i + 1;
    }
    crc := Append(Take(crc, 24), Zero(8));
  }

  lemma {:induction false} HashOfNothing(p: Register)
    ensures HashOf(p, []) == Zero(24)
  {
    HashIsPower(p, []);
    PowerZero(p, 24);
  }
}

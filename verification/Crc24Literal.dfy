/** The literal table of CRC-24Q and its agreement with the table that is built. */
module Crc24Literal {
  import opened Words
  import opened Gf2
  import opened Crc24
  import opened Crc24Table

  // Machine words and their bits.

  /** a holds the low bits of x. */
  predicate Reads(a: Poly, x: bv32) { a.Nil? || (a.low == (x & 1 == 1) && Reads(a.rest, x >> 1)) }

  /** The n low bits of a machine word. */
  function WordBits(n: nat, x: bv32): (s: Poly)
    ensures Len(s) == n && Reads(s, x)
  { if n == 0 then Nil else Cons(x & 1 == 1, WordBits(n - 1, x >> 1)) }

  lemma {:induction false} ReadsSame(a: Poly, b: Poly, x: bv32)
    requires Reads(a, x) && Reads(b, x) && Len(a) == Len(b)
    ensures a == b
  {
    if a.Cons? { ReadsSame(a.rest, b.rest, x >> 1); }
  }

  lemma {:induction false} XorBit(x: bv32, y: bv32)
    ensures (x ^ y) >> 1 == (x >> 1) ^ (y >> 1)
    ensures ((x ^ y) & 1 == 1) == ((x & 1 == 1) != (y & 1 == 1))
  {}

  lemma {:induction false} ReadsXor(a: Poly, b: Poly, x: bv32, y: bv32)
    requires Reads(a, x) && Reads(b, y) && Len(a) == Len(b)
    ensures Reads(Add(a, b), x ^ y)
  {
    if a.Cons? {
      ReadsXor(a.rest, b.rest, x >> 1, y >> 1);
      XorBit(x, y);
    }
  }

  /** The n low bits of m are set. */
  predicate Ones(n: nat, m: bv32) { n == 0 || (m & 1 == 1 && Ones(n - 1, m >> 1)) }

  lemma {:induction false} AndBit(x: bv32, m: bv32)
    ensures (x & m) >> 1 == (x >> 1) & (m >> 1)
    ensures m & 1 == 1 ==> (x & m) & 1 == x & 1
  {}

  lemma {:induction false} ReadsAnd(a: Poly, x: bv32, m: bv32)
    requires Reads(a, x) && Ones(Len(a), m)
    ensures Reads(a, x & m)
  {
    if a.Cons? {
      AndBit(x, m);
      ReadsAnd(a.rest, x >> 1, m >> 1);
    }
  }

  lemma {:induction false} ReadsTake(a: Poly, x: bv32, n: nat)
    requires Reads(a, x) && n <= Len(a)
    ensures Reads(Take(a, n), x)
  {
    if n > 0 { ReadsTake(a.rest, x >> 1, n - 1); }
  }

  lemma {:induction false} ShiftTake(carry: bool, a: Poly)
    requires a.Cons?
    ensures Shift(carry, a) == Cons(carry, Take(a, Len(a) - 1))
    decreases a
  {
    if a.rest.Cons? { ShiftTake(a.low, a.rest); }
  }

  lemma {:induction false} ShlBit(x: bv32)
    ensures (x << 1) & 1 == 0 && (x << 1) >> 1 == x & 0x7fffffff
  {}

  lemma {:induction false} ReadsShl(w: Word, x: bv32)
    requires Reads(w, x)
    ensures Reads(Shift(false, w), x << 1)
  {
    OnesBelow();
    ShlBit(x);
    ShiftTake(false, w);
    ReadsTake(w, x, 31);
    ReadsAnd(Take(w, 31), x, 0x7fffffff);
  }

  /** Bit i is the one bit of m. */
  predicate IsBit(m: bv32, i: nat) { if i == 0 then m == 1 else m & 1 == 0 && IsBit(m >> 1, i - 1) }

  lemma {:induction false} BitStep(x: bv32, m: bv32)
    ensures m & 1 == 0 ==> (x & m != 0 <==> (x >> 1) & (m >> 1) != 0)
    ensures x & 1 != 0 <==> x & 1 == 1
  {}

  lemma {:induction false} ReadsCoefficient(a: Poly, x: bv32, m: bv32, i: nat)
    requires Reads(a, x) && i < Len(a) && IsBit(m, i)
    ensures Coefficient(a, i) == (x & m != 0)
  {
    BitStep(x, m);
    if i > 0 { ReadsCoefficient(a.rest, x >> 1, m >> 1, i - 1); }
  }

  lemma {:induction false} EightShifts(m: bv32)
    ensures m >> 1 >> 1 >> 1 >> 1 >> 1 >> 1 >> 1 >> 1 == m >> 8
    ensures m & 0xff == 0xff ==> (
        m & 1 == 1 && (m >> 1) & 1 == 1 && (m >> 1 >> 1) & 1 == 1 && (m >> 1 >> 1 >> 1) & 1 == 1
        && (m >> 1 >> 1 >> 1 >> 1) & 1 == 1 && (m >> 1 >> 1 >> 1 >> 1 >> 1) & 1 == 1
        && (m >> 1 >> 1 >> 1 >> 1 >> 1 >> 1) & 1 == 1 && (m >> 1 >> 1 >> 1 >> 1 >> 1 >> 1 >> 1) & 1 == 1)
    ensures m & 0xff == 0 ==> (
        m & 1 == 0 && (m >> 1) & 1 == 0 && (m >> 1 >> 1) & 1 == 0 && (m >> 1 >> 1 >> 1) & 1 == 0
        && (m >> 1 >> 1 >> 1 >> 1) & 1 == 0 && (m >> 1 >> 1 >> 1 >> 1 >> 1) & 1 == 0
        && (m >> 1 >> 1 >> 1 >> 1 >> 1 >> 1) & 1 == 0 && (m >> 1 >> 1 >> 1 >> 1 >> 1 >> 1 >> 1) & 1 == 0)
  {}

  lemma {:induction false} OnesEight(n: nat, m: bv32)
    requires m & 0xff == 0xff && Ones(n, m >> 8)
    ensures Ones(n + 8, m)
  {
    EightShifts(m);
    assert Ones(n + 2, m >> 1 >> 1 >> 1 >> 1 >> 1 >> 1);
    assert Ones(n + 4, m >> 1 >> 1 >> 1 >> 1);
    assert Ones(n + 6, m >> 1 >> 1);
  }

  lemma {:induction false} OnesBelow()
    ensures Ones(31, 0x7fffffff)
  {
    assert Ones(0, 0);
    assert Ones(1, 0x1);
    assert Ones(2, 0x3);
    assert Ones(3, 0x7);
    assert Ones(4, 0xf);
    assert Ones(5, 0x1f);
    assert Ones(6, 0x3f);
    assert Ones(7, 0x7f);
    OnesEight(7, 0x7fff);
    OnesEight(15, 0x7fffff);
    OnesEight(23, 0x7fffffff);
  }

  lemma {:induction false} IsBitEight(m: bv32, i: nat)
    requires m & 0xff == 0 && IsBit(m >> 8, i)
    ensures IsBit(m, i + 8)
  {
    EightShifts(m);
    assert IsBit(m >> 1 >> 1 >> 1 >> 1 >> 1 >> 1, i + 2);
    assert IsBit(m >> 1 >> 1 >> 1 >> 1, i + 4);
    assert IsBit(m >> 1 >> 1, i + 6);
  }

  lemma {:induction false} BitTwentyFour()
    ensures IsBit(0x1000000, 24)
  {
    assert IsBit(1, 0);
    IsBitEight(0x100, 0);
    IsBitEight(0x10000, 8);
    IsBitEight(0x1000000, 16);
  }

  // The words at the powers of two, as the loop that builds the table computes them.

  const POLY: bv32 := 0x1864CFB

  function NextValue(g: bv32, h: bv32): bv32 { if (h << 1) & 0x1000000 != 0 then (h << 1) ^ g else h << 1 }

  lemma {:induction false} NextValueIs(g: Word, w: Word, x: bv32, h: bv32)
    requires Reads(g, x) && Reads(w, h)
    ensures Reads(NextWord(g, w), NextValue(x, h))
  {
    ReadsShl(w, h);
    BitTwentyFour();
    ReadsCoefficient(Shift(false, w), h << 1, 0x1000000, 24);
    ReadsXor(Shift(false, w), g, h << 1, x);
  }

  /** The entry at 2^k. */
  function PowerValue(k: nat): bv32 { if k == 0 then POLY else NextValue(POLY, PowerValue(k - 1)) }

  lemma {:induction false} PowerValueIs(g: Word, k: nat)
    requires Reads(g, POLY)
    ensures Reads(PowerWord(g, g, k), PowerValue(k))
  {
    if k > 0 {
      PowerValueIs(g, k - 1);
      NextValueIs(g, PowerWord(g, g, k - 1), POLY, PowerValue(k - 1));
    }
  }

  // A table of 256 entries in rows of 16, each power of two starting a copy of the entries
  // before it with its own word added.

  type Rows = rows: seq<seq<bv32>> | |rows| == 16 && forall r | 0 <= r < 16 :: |rows[r]| == 16
    witness [NONE, NONE, NONE, NONE, NONE, NONE, NONE, NONE, NONE, NONE, NONE, NONE, NONE, NONE, NONE, NONE]

  const NONE: seq<bv32> := [0, 0, 0, 0, 0, 0, 0, 0, 0, 0, 0, 0, 0, 0, 0, 0]

  function TableAt(rows: Rows, i: nat): bv32
    requires i < 256
  { rows[i / 16][i % 16] }

  predicate EntryCopied(rows: Rows, k: nat, j: nat)
    requires k < 4 && j < Pow2(k)
  {
    Pow2(k) + j < 16 && rows[0][Pow2(k) + j] == rows[0][j] ^ PowerValue(k)
  }

  predicate RowCopied(rows: Rows, k: nat, q: nat)
    requires k < 4 && q < Pow2(k)
  {
    Pow2(k) + q < 16 && forall c | 0 <= c < 16 :: rows[Pow2(k) + q][c] == rows[q][c] ^ PowerValue(k + 4)
  }

  ghost predicate Built(rows: Rows) {
    && rows[0][0] == 0
    && (forall k: nat, j: nat | k < 4 && j < Pow2(k) :: EntryCopied(rows, k, j))
    && (forall k: nat, q: nat | k < 4 && q < Pow2(k) :: RowCopied(rows, k, q))
  }

  lemma {:induction false} Pow2Small(k: nat)
    requires k < 4
    ensures Pow2(k) <= 8 && Pow2(k + 4) == 16 * Pow2(k)
  {
    assert Pow2(0) == 1 && Pow2(1) == 2 && Pow2(2) == 4 && Pow2(3) == 8;
    assert Pow2(k + 4) == 4 * Pow2(k + 2);
  }

  lemma {:induction false} TableStep(rows: Rows, k: nat, j: nat, h: bv32)
    requires Built(rows) && k < 8 && j < Pow2(k) && h == PowerValue(k)
    ensures Pow2(k) + j < 256 && TableAt(rows, Pow2(k) + j) == TableAt(rows, j) ^ h
  {
    if k < 4 {
      Pow2Small(k);
      assert EntryCopied(rows, k, j);
      EntryStep(rows, Pow2(k), j, h);
    } else {
      LaterStep(rows, k - 4, j, h);
    }
  }

  lemma {:induction false} LaterStep(rows: Rows, k: nat, j: nat, h: bv32)
    requires Built(rows) && k < 4 && j < Pow2(k + 4) && h == PowerValue(k + 4)
    ensures Pow2(k + 4) + j < 256 && TableAt(rows, Pow2(k + 4) + j) == TableAt(rows, j) ^ h
  {
    Pow2Small(k);
    RowsDivide(Pow2(k), j);
    var q := j / 16;
    assert RowCopied(rows, k, q);
    RowCopy(rows, k, q, h);
    RowStep(rows, Pow2(k), j, q, h);
  }

  lemma {:induction false} RowCopy(rows: Rows, k: nat, q: nat, h: bv32)
    requires k < 4 && q < Pow2(k) && RowCopied(rows, k, q) && h == PowerValue(k + 4)
    ensures Pow2(k) + q < 16 && forall c | 0 <= c < 16 :: rows[Pow2(k) + q][c] == rows[q][c] ^ h
  {}

  lemma {:induction false} EntryStep(rows: Rows, n: nat, j: nat, h: bv32)
    requires j < n && n + j < 16 && rows[0][n + j] == rows[0][j] ^ h
    ensures TableAt(rows, n + j) == TableAt(rows, j) ^ h
  {}

  lemma {:induction false} RowStep(rows: Rows, n: nat, j: nat, q: nat, h: bv32)
    requires j < 16 * n && q == j / 16 && n + q < 16
    requires forall c | 0 <= c < 16 :: rows[n + q][c] == rows[q][c] ^ h
    ensures 16 * n + j < 256 && TableAt(rows, 16 * n + j) == TableAt(rows, j) ^ h
  {
    RowsDivide(n, j);
  }

  lemma {:induction false} RowsDivide(n: nat, j: nat)
    requires j < 16 * n
    ensures (16 * n + j) / 16 == n + j / 16 && (16 * n + j) % 16 == j % 16 && j / 16 < n
  {}

  /** The highest power of two in i. */
  function TopOf(i: nat, n: nat): (k: nat)
    requires 0 < i < Pow2(n)
    ensures k < n && Pow2(k) <= i < 2 * Pow2(k)
  { if i == 1 then 0 else 1 + TopOf(i / 2, n - 1) }

  lemma {:induction false} ReadsZero(n: nat)
    ensures Reads(Zero(n), 0)
  {
    if n > 0 { ReadsZero(n - 1); }
  }

  /** Every entry is the sum of the words of its index. */
  lemma {:induction false} TableIsEntry(rows: Rows, g: Word, i: nat)
    requires Built(rows) && Reads(g, POLY) && i < 256
    ensures Reads(EntryAt(g, i), TableAt(rows, i))
  {
    if i == 0 {
      EntryZero(g);
      ReadsZero(32);
    } else {
      assert Pow2(8) == 256;
      var k := TopOf(i, 8);
      TableIsEntry(rows, g, i - Pow2(k));
      TableNext(rows, g, k, i - Pow2(k));
    }
  }

  lemma {:induction false} TableNext(rows: Rows, g: Word, k: nat, j: nat)
    requires Built(rows) && Reads(g, POLY) && k < 8 && j < Pow2(k) && j < 256
    requires Reads(EntryAt(g, j), TableAt(rows, j))
    ensures Pow2(k) + j < 256 && Reads(EntryAt(g, Pow2(k) + j), TableAt(rows, Pow2(k) + j))
  {
    TableStep(rows, k, j, PowerValue(k));
    EntryAbove(g, k, j);
    PowerValueIs(g, k);
    ReadsXor(EntryAt(g, j), PowerWord(g, g, k), TableAt(rows, j), PowerValue(k));
  }

  // The literal table.

  const ROW_0: seq<bv32> := [
    0x00000000, 0x01864CFB, 0x028AD50D, 0x030C99F6,
    0x0493E6E1, 0x0515AA1A, 0x061933EC, 0x079F7F17,
    0x08A18139, 0x0927CDC2, 0x0A2B5434, 0x0BAD18CF,
    0x0C3267D8, 0x0DB42B23, 0x0EB8B2D5, 0x0F3EFE2E]

  const ROW_1: seq<bv32> := [
    0x10C54E89, 0x11430272, 0x124F9B84, 0x13C9D77F,
    0x1456A868, 0x15D0E493, 0x16DC7D65, 0x175A319E,
    0x1864CFB0, 0x19E2834B, 0x1AEE1ABD, 0x1B685646,
    0x1CF72951, 0x1D7165AA, 0x1E7DFC5C, 0x1FFBB0A7]

  const ROW_2: seq<bv32> := [
    0x200CD1E9, 0x218A9D12, 0x228604E4, 0x2300481F,
    0x249F3708, 0x25197BF3, 0x2615E205, 0x2793AEFE,
    0x28AD50D0, 0x292B1C2B, 0x2A2785DD, 0x2BA1C926,
    0x2C3EB631, 0x2DB8FACA, 0x2EB4633C, 0x2F322FC7]

  const ROW_3: seq<bv32> := [
    0x30C99F60, 0x314FD39B, 0x32434A6D, 0x33C50696,
    0x345A7981, 0x35DC357A, 0x36D0AC8C, 0x3756E077,
    0x38681E59, 0x39EE52A2, 0x3AE2CB54, 0x3B6487AF,
    0x3CFBF8B8, 0x3D7DB443, 0x3E712DB5, 0x3FF7614E]

  const ROW_4: seq<bv32> := [
    0x4019A3D2, 0x419FEF29, 0x429376DF, 0x43153A24,
    0x448A4533, 0x450C09C8, 0x4600903E, 0x4786DCC5,
    0x48B822EB, 0x493E6E10, 0x4A32F7E6, 0x4BB4BB1D,
    0x4C2BC40A, 0x4DAD88F1, 0x4EA11107, 0x4F275DFC]

  const ROW_5: seq<bv32> := [
    0x50DCED5B, 0x515AA1A0, 0x52563856, 0x53D074AD,
    0x544F0BBA, 0x55C94741, 0x56C5DEB7, 0x5743924C,
    0x587D6C62, 0x59FB2099, 0x5AF7B96F, 0x5B71F594,
    0x5CEE8A83, 0x5D68C678, 0x5E645F8E, 0x5FE21375]

  const ROW_6: seq<bv32> := [
    0x6015723B, 0x61933EC0, 0x629FA736, 0x6319EBCD,
    0x648694DA, 0x6500D821, 0x660C41D7, 0x678A0D2C,
    0x68B4F302, 0x6932BFF9, 0x6A3E260F, 0x6BB86AF4,
    0x6C2715E3, 0x6DA15918, 0x6EADC0EE, 0x6F2B8C15]

  const ROW_7: seq<bv32> := [
    0x70D03CB2, 0x71567049, 0x725AE9BF, 0x73DCA544,
    0x7443DA53, 0x75C596A8, 0x76C90F5E, 0x774F43A5,
    0x7871BD8B, 0x79F7F170, 0x7AFB6886, 0x7B7D247D,
    0x7CE25B6A, 0x7D641791, 0x7E688E67, 0x7FEEC29C]

  const ROW_8: seq<bv32> := [
    0x803347A4, 0x81B50B5F, 0x82B992A9, 0x833FDE52,
    0x84A0A145, 0x8526EDBE, 0x862A7448, 0x87AC38B3,
    0x8892C69D, 0x89148A66, 0x8A181390, 0x8B9E5F6B,
    0x8C01207C, 0x8D876C87, 0x8E8BF571, 0x8F0DB98A]

  const ROW_9: seq<bv32> := [
    0x90F6092D, 0x917045D6, 0x927CDC20, 0x93FA90DB,
    0x9465EFCC, 0x95E3A337, 0x96EF3AC1, 0x9769763A,
    0x98578814, 0x99D1C4EF, 0x9ADD5D19, 0x9B5B11E2,
    0x9CC46EF5, 0x9D42220E, 0x9E4EBBF8, 0x9FC8F703]

  const ROW_10: seq<bv32> := [
    0xA03F964D, 0xA1B9DAB6, 0xA2B54340, 0xA3330FBB,
    0xA4AC70AC, 0xA52A3C57, 0xA626A5A1, 0xA7A0E95A,
    0xA89E1774, 0xA9185B8F, 0xAA14C279, 0xAB928E82,
    0xAC0DF195, 0xAD8BBD6E, 0xAE872498, 0xAF016863]

  const ROW_11: seq<bv32> := [
    0xB0FAD8C4, 0xB17C943F, 0xB2700DC9, 0xB3F64132,
    0xB4693E25, 0xB5EF72DE, 0xB6E3EB28, 0xB765A7D3,
    0xB85B59FD, 0xB9DD1506, 0xBAD18CF0, 0xBB57C00B,
    0xBCC8BF1C, 0xBD4EF3E7, 0xBE426A11, 0xBFC426EA]

  const ROW_12: seq<bv32> := [
    0xC02AE476, 0xC1ACA88D, 0xC2A0317B, 0xC3267D80,
    0xC4B90297, 0xC53F4E6C, 0xC633D79A, 0xC7B59B61,
    0xC88B654F, 0xC90D29B4, 0xCA01B042, 0xCB87FCB9,
    0xCC1883AE, 0xCD9ECF55, 0xCE9256A3, 0xCF141A58]

  const ROW_13: seq<bv32> := [
    0xD0EFAAFF, 0xD169E604, 0xD2657FF2, 0xD3E33309,
    0xD47C4C1E, 0xD5FA00E5, 0xD6F69913, 0xD770D5E8,
    0xD84E2BC6, 0xD9C8673D, 0xDAC4FECB, 0xDB42B230,
    0xDCDDCD27, 0xDD5B81DC, 0xDE57182A, 0xDFD154D1]

  const ROW_14: seq<bv32> := [
    0xE026359F, 0xE1A07964, 0xE2ACE092, 0xE32AAC69,
    0xE4B5D37E, 0xE5339F85, 0xE63F0673, 0xE7B94A88,
    0xE887B4A6, 0xE901F85D, 0xEA0D61AB, 0xEB8B2D50,
    0xEC145247, 0xED921EBC, 0xEE9E874A, 0xEF18CBB1]

  const ROW_15: seq<bv32> := [
    0xF0E37B16, 0xF16537ED, 0xF269AE1B, 0xF3EFE2E0,
    0xF4709DF7, 0xF5F6D10C, 0xF6FA48FA, 0xF77C0401,
    0xF842FA2F, 0xF9C4B6D4, 0xFAC82F22, 0xFB4E63D9,
    0xFCD11CCE, 0xFD575035, 0xFE5BC9C3, 0xFFDD8538]

  const CRC24Q: Rows := [
    ROW_0, ROW_1, ROW_2, ROW_3, ROW_4, ROW_5, ROW_6, ROW_7,
    ROW_8, ROW_9, ROW_10, ROW_11, ROW_12, ROW_13, ROW_14, ROW_15]

  predicate RowAdds(row: seq<bv32>, from: seq<bv32>, h: bv32) {
    |row| == |from| == 16 && forall c | 0 <= c < 16 :: row[c] == from[c] ^ h
  }

  lemma {:induction false} PowerValues()
    ensures PowerValue(0) == 0x01864CFB && PowerValue(1) == 0x028AD50D && PowerValue(2) == 0x0493E6E1
    ensures PowerValue(3) == 0x08A18139 && PowerValue(4) == 0x10C54E89 && PowerValue(5) == 0x200CD1E9
    ensures PowerValue(6) == 0x4019A3D2 && PowerValue(7) == 0x803347A4
  {
    assert PowerValue(0) == 0x01864CFB;
    assert PowerValue(1) == 0x028AD50D;
    assert PowerValue(2) == 0x0493E6E1;
    assert PowerValue(3) == 0x08A18139;
    assert PowerValue(4) == 0x10C54E89;
    assert PowerValue(5) == 0x200CD1E9;
    assert PowerValue(6) == 0x4019A3D2;
  }

  lemma {:induction false} Row1()
    ensures RowAdds(ROW_1, ROW_0, 0x10C54E89)
  {}

  lemma {:induction false} Row2()
    ensures RowAdds(ROW_2, ROW_0, 0x200CD1E9)
  {}

  lemma {:induction false} Row3()
    ensures RowAdds(ROW_3, ROW_1, 0x200CD1E9)
  {}

  lemma {:induction false} Row4()
    ensures RowAdds(ROW_4, ROW_0, 0x4019A3D2)
  {}

  lemma {:induction false} Row5()
    ensures RowAdds(ROW_5, ROW_1, 0x4019A3D2)
  {}

  lemma {:induction false} Row6()
    ensures RowAdds(ROW_6, ROW_2, 0x4019A3D2)
  {}

  lemma {:induction false} Row7()
    ensures RowAdds(ROW_7, ROW_3, 0x4019A3D2)
  {}

  lemma {:induction false} Row8()
    ensures RowAdds(ROW_8, ROW_0, 0x803347A4)
  {}

  lemma {:induction false} Row9()
    ensures RowAdds(ROW_9, ROW_1, 0x803347A4)
  {}

  lemma {:induction false} Row10()
    ensures RowAdds(ROW_10, ROW_2, 0x803347A4)
  {}

  lemma {:induction false} Row11()
    ensures RowAdds(ROW_11, ROW_3, 0x803347A4)
  {}

  lemma {:induction false} Row12()
    ensures RowAdds(ROW_12, ROW_4, 0x803347A4)
  {}

  lemma {:induction false} Row13()
    ensures RowAdds(ROW_13, ROW_5, 0x803347A4)
  {}

  lemma {:induction false} Row14()
    ensures RowAdds(ROW_14, ROW_6, 0x803347A4)
  {}

  lemma {:induction false} Row15()
    ensures RowAdds(ROW_15, ROW_7, 0x803347A4)
  {}

  lemma {:induction false} FirstRow(k: nat, j: nat)
    requires k < 4 && j < Pow2(k)
    ensures EntryCopied(CRC24Q, k, j)
  {
    PowerValues();
    assert Pow2(0) == 1 && Pow2(1) == 2 && Pow2(2) == 4 && Pow2(3) == 8;
    assert CRC24Q[0] == ROW_0;
    match k
    case 0 => assert ROW_0[1] == ROW_0[0] ^ 0x01864CFB;
    case 1 => assert forall j | 0 <= j < 2 :: ROW_0[2 + j] == ROW_0[j] ^ 0x028AD50D;
    case 2 => assert forall j | 0 <= j < 4 :: ROW_0[4 + j] == ROW_0[j] ^ 0x0493E6E1;
    case 3 => assert forall j | 0 <= j < 8 :: ROW_0[8 + j] == ROW_0[j] ^ 0x08A18139;
  }

  lemma {:induction false} OtherRows(k: nat, q: nat)
    requires k < 4 && q < Pow2(k)
    ensures Pow2(k) + q < 16 && RowAdds(CRC24Q[Pow2(k) + q], CRC24Q[q], PowerValue(k + 4))
  {
    PowerValues();
    assert Pow2(0) == 1 && Pow2(1) == 2 && Pow2(2) == 4 && Pow2(3) == 8;
    OtherRow(Pow2(k) + q);
  }

  lemma {:induction false} OtherRow(r: nat)
    requires 1 <= r < 16
    ensures RowAdds(CRC24Q[r], CRC24Q[if r < 2 then r - 1 else if r < 4 then r - 2 else if r < 8 then r - 4 else r - 8],
                    if r < 2 then 0x10C54E89 else if r < 4 then 0x200CD1E9 else if r < 8 then 0x4019A3D2 else 0x803347A4)
  {
    match r
    case 1 => Row1();
    case 2 => Row2();
    case 3 => Row3();
    case 4 => Row4();
    case 5 => Row5();
    case 6 => Row6();
    case 7 => Row7();
    case 8 => Row8();
    case 9 => Row9();
    case 10 => Row10();
    case 11 => Row11();
    case 12 => Row12();
    case 13 => Row13();
    case 14 => Row14();
    case 15 => Row15();
  }

  lemma {:induction false} LiteralIsBuilt()
    ensures Built(CRC24Q)
  {
    forall k: nat, j: nat | k < 4 && j < Pow2(k) ensures EntryCopied(CRC24Q, k, j) { FirstRow(k, j); }
    forall k: nat, q: nat | k < 4 && q < Pow2(k) ensures RowCopied(CRC24Q, k, q) { OtherRows(k, q); }
  }

  /** The literal table is the table that is built. */
  lemma {:induction false} LiteralTable(g: Word, i: nat)
    requires Reads(g, POLY) && i < 256
    ensures WordBits(32, TableAt(CRC24Q, i)) == EntryAt(g, i)
  {
    LiteralIsBuilt();
    TableIsEntry(CRC24Q, g, i);
    ReadsSame(WordBits(32, TableAt(CRC24Q, i)), EntryAt(g, i), TableAt(CRC24Q, i));
  }
}

/**
 The 32-bit maps that record which bins are non-empty, and the bit tricks used to
 find the next non-empty bin without looking at the bins themselves. A word is its
 sequence of bits, least significant first.
 */
module BinMap {

  const WIDTH: nat := 32

  function Zeros(n: nat): (r: seq<bool>)
    ensures |r| == n && forall i :: 0 <= i < n ==> !r[i]
  {
    if n == 0 then [] else Zeros(n - 1) + [false]
  }

  type Bits = m: seq<bool> | |m| == WIDTH witness Zeros(WIDTH)

  type Index = i: nat | i < WIDTH

  const ZERO: Bits := Zeros(WIDTH)

  // Word arithmetic

  function Not(x: seq<bool>): (r: seq<bool>)
    ensures |r| == |x|
  {
    seq(|x|, i requires 0 <= i < |x| => !x[i])
  }

  function And(x: Bits, y: Bits): Bits { seq(WIDTH, i requires 0 <= i < WIDTH => x[i] && y[i]) }

  function Or(x: Bits, y: Bits): Bits { seq(WIDTH, i requires 0 <= i < WIDTH => x[i] || y[i]) }

  /** Add one, dropping the carry out of the top bit. */
  function Increment(x: seq<bool>): (r: seq<bool>)
    ensures |r| == |x|
  {
    if x == [] then []
    else if x[0] then [false] + Increment(x[1..])
    else [true] + x[1..]
  }

  /** Two's complement. */
  function Negate(x: Bits): Bits { Increment(Not(x)) }

  function ShiftLeft(x: Bits, n: Index): Bits { Zeros(n) + x[..WIDTH - n] }

  function ShiftRight(x: Bits, n: Index): Bits { x[n..] + Zeros(n) }

  // The macros of the allocator

  function IdxToBit(i: Index): Bits { ZERO[i := true] }

  function Mark(m: Bits, i: Index): Bits { Or(m, IdxToBit(i)) }

  function Clear(m: Bits, i: Index): Bits { And(m, Not(IdxToBit(i))) }

  /** `x & -x`. */
  function LeastBit(x: Bits): Bits { And(x, Negate(x)) }

  /** `(x << 1) | -(x << 1)`. */
  function LeftBits(x: Bits): Bits { Or(ShiftLeft(x, 1), Negate(ShiftLeft(x, 1))) }

  /** `__builtin_ctz`: the number of zero bits below the lowest set bit. */
  function CountTrailingZeros(x: seq<bool>): (i: nat)
    requires true in x
    ensures i < |x| && x[i] && forall j :: 0 <= j < i ==> !x[j]
  {
    if x[0] then 0 else 1 + CountTrailingZeros(x[1..])
  }

  /** `compute_bit2idx(least_bit(x), i)`. */
  function FirstMarked(x: Bits): (i: nat)
    requires x != ZERO
    ensures i < WIDTH && x[i] && forall j :: 0 <= j < i ==> !x[j]
  {
    LeastBitExists(x);
    var r := CountTrailingZeros(LeastBit(x));
    r
  }

  // What the tricks compute

  lemma LeastBitExists(x: Bits)
    requires x != ZERO
    ensures true in LeastBit(x)
    ensures forall i: Index :: LeastBit(x)[i] ==> x[i] && forall j :: 0 <= j < i ==> !x[j]
  {
    assert true in x by {
      if true !in x { assert forall i :: 0 <= i < WIDTH ==> x[i] == ZERO[i]; }
    }
    var f := CountTrailingZeros(x);
    LeastBitIs(x, f);
    assert LeastBit(x)[f];
  }

  lemma {:induction false} NegateAt(x: seq<bool>, f: nat, j: nat)
    requires j < |x| && f <= |x|
    requires forall i :: 0 <= i < f ==> !x[i]
    requires f < |x| ==> x[f]
    ensures Increment(Not(x))[j] == if j <= f then x[j] else !x[j]
  {
    if f > 0 {
      assert Not(x)[1..] == Not(x[1..]);
      if j > 0 { NegateAt(x[1..], f - 1, j - 1); }
    }
  }

  /** The least bit is the word with only the lowest set bit of `x`. */
  lemma LeastBitIs(x: Bits, f: Index)
    requires x[f] && forall j :: 0 <= j < f ==> !x[j]
    ensures LeastBit(x) == IdxToBit(f)
  {
    forall j | 0 <= j < WIDTH
      ensures LeastBit(x)[j] == IdxToBit(f)[j]
    {
      NegateAt(x, f, j);
    }
  }

  /** The bits left of bin `i` are exactly those of higher bins. */
  lemma LeftBitsIs(i: Index, j: Index)
    ensures LeftBits(IdxToBit(i))[j] <==> i < j
  {
    var y := ShiftLeft(IdxToBit(i), 1);
    if i + 1 < WIDTH {
      assert forall k :: 0 <= k < WIDTH ==> (y[k] <==> k == i + 1);
      NegateAt(y, i + 1, j);
    } else {
      assert forall k :: 0 <= k < WIDTH ==> !y[k];
      NegateAt(y, WIDTH, j);
    }
  }

  lemma MarkIs(m: Bits, i: Index)
    ensures Mark(m, i) == m[i := true] && Clear(m, i) == m[i := false]
  {
  }

  lemma NonZeroIs(m: Bits)
    ensures m != ZERO <==> exists j: Index :: m[j]
  {
    if m != ZERO { assert m[FirstMarked(m)]; }
  }

  /** `left_bits(idx2bit(i)) & m`: the marked bins strictly above `i`. */
  lemma AboveIs(m: Bits, i: Index, j: Index)
    ensures And(LeftBits(IdxToBit(i)), m)[j] <==> i < j && m[j]
  {
    LeftBitsIs(i, j);
  }

  /** `m >> i` and back: bins below `i` are dropped, the rest keep their place. */
  lemma ShiftIs(m: Bits, i: Index, j: Index)
    ensures ShiftRight(m, i)[j] <==> i + j < WIDTH && m[i + j]
    ensures ShiftLeft(ShiftRight(m, i), i)[j] <==> i <= j && m[j]
  {
  }
}

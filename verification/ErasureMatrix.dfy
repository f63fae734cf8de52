/** The linear algebra behind recovery. Matrices are flat: entry (i, j) of a matrix of k columns
    is at index k * i + j. */
module ErasureMatrix {
  import opened Common
  import opened Gf2
  import opened Gf256

  /** The largest number of fragments in a stripe. */
  const M_MAX: nat := 27

  function Get(s: seq<Byte>, i: nat): Byte { if i < |s| then s[i] else ZERO }

  function At(a: seq<Byte>, k: nat, i: nat, j: nat): Byte { Get(a, k * i + j) }

  /** Row i of a times the column x. */
  function RowTimes(a: seq<Byte>, k: nat, i: nat, x: nat -> Byte): Byte {
    Sum((j: nat) => Times(At(a, k, i, j), x(j)), k)
  }

  /** Entry (i, j) of the product of two k x k matrices. */
  function Entry(a: seq<Byte>, b: seq<Byte>, k: nat, i: nat, j: nat): Byte {
    RowTimes(a, k, i, (n: nat) => At(b, k, n, j))
  }

  function Delta(i: nat, j: nat): Byte { if i == j then ONE else ZERO }

  ghost predicate IdentityAt(a: seq<Byte>, b: seq<Byte>, k: nat, i: nat, j: nat) {
    Entry(a, b, k, i, j) == Delta(i, j)
  }

  ghost predicate LeftInverse(a: seq<Byte>, b: seq<Byte>, k: nat) {
    forall i: nat, j: nat | i < k && j < k :: IdentityAt(a, b, k, i, j)
  }

  ghost predicate Inverse(a: seq<Byte>, b: seq<Byte>, k: nat) {
    LeftInverse(a, b, k) && LeftInverse(b, a, k)
  }

  ghost predicate Invertible(b: seq<Byte>, k: nat) {
    exists a :: |a| == k * k && Inverse(a, b, k)
  }

  /** b holds the rows of e that rows selects, in that order. */
  ghost predicate RowsOf(b: seq<Byte>, e: seq<Byte>, k: nat, rows: seq<nat>) {
    forall i: nat, j: nat | i < k && j < k :: At(b, k, i, j) == At(e, k, RowAt(rows, i), j)
  }

  /** Fragment r of the stripe whose data fragments are data, at one byte position. */
  function Fragment(e: seq<Byte>, k: nat, r: nat, data: nat -> Byte): Byte { RowTimes(e, k, r, data) }

  /** How to rebuild fragment r from the survivors: a row of the inverse for a data fragment,
      the encoding row times the inverse for a parity fragment. */
  ghost predicate RebuildRow(d: seq<Byte>, e: seq<Byte>, inverse: seq<Byte>, k: nat, i: nat, r: nat) {
    forall j: nat | j < k :: At(d, k, i, j) == RebuildCoefficient(e, inverse, k, r, j)
  }

  function RebuildCoefficient(e: seq<Byte>, inverse: seq<Byte>, k: nat, r: nat, j: nat): Byte {
    if r < k then At(inverse, k, r, j) else Sum((n: nat) => Times(At(inverse, k, n, j), At(e, k, r, n)), k)
  }

  lemma {:induction false} RowTimesEqual(a: seq<Byte>, b: seq<Byte>, k: nat, i: nat, r: nat, x: nat -> Byte, y: nat -> Byte)
    requires forall j: nat | j < k :: At(a, k, i, j) == At(b, k, r, j) && x(j) == y(j)
    ensures RowTimes(a, k, i, x) == RowTimes(b, k, r, y)
  {
    SumEqual((j: nat) => Times(At(a, k, i, j), x(j)), (j: nat) => Times(At(b, k, r, j), y(j)), k);
  }

  /** Multiplication of matrices is associative: a * (b * x) is (a * b) * x. */
  lemma {:induction false} Associative(a: seq<Byte>, b: seq<Byte>, k: nat, i: nat, x: nat -> Byte)
    ensures RowTimes(a, k, i, (n: nat) => RowTimes(b, k, n, x))
         == Sum((j: nat) => Times(Entry(a, b, k, i, j), x(j)), k)
  {
    var term := (n: nat, j: nat) => Times(At(a, k, i, n), Times(At(b, k, n, j), x(j)));
    var inner := (n: nat) => RowTimes(b, k, n, x);
    forall n: nat | n < k ensures Times(At(a, k, i, n), inner(n)) == Sum((j: nat) => term(n, j), k) {
      SumTimes(At(a, k, i, n), (j: nat) => Times(At(b, k, n, j), x(j)), (j: nat) => term(n, j), k);
    }
    SumEqual((n: nat) => Times(At(a, k, i, n), inner(n)), (n: nat) => Sum((j: nat) => term(n, j), k), k);
    SumSwap(term, k, k);
    forall j: nat | j < k ensures Sum((n: nat) => term(n, j), k) == Times(Entry(a, b, k, i, j), x(j)) {
      var plain := (n: nat) => Times(At(a, k, i, n), At(b, k, n, j));
      forall n: nat ensures term(n, j) == Times(x(j), plain(n)) {
        TimesLaws(At(a, k, i, n), At(b, k, n, j), x(j));
        TimesLaws(plain(n), x(j), ZERO);
      }
      SumTimes(x(j), plain, (n: nat) => term(n, j), k);
      TimesLaws(x(j), Sum(plain, k), ZERO);
      SumEqual(plain, (n: nat) => Times(At(a, k, i, n), ((m: nat) => At(b, k, m, j))(n)), k);
    }
    SumEqual((j: nat) => Sum((n: nat) => term(n, j), k), (j: nat) => Times(Entry(a, b, k, i, j), x(j)), k);
  }

  lemma {:induction false} IdentityTimes(a: seq<Byte>, b: seq<Byte>, k: nat, i: nat, x: nat -> Byte)
    requires i < k && LeftInverse(a, b, k)
    ensures RowTimes(a, k, i, (n: nat) => RowTimes(b, k, n, x)) == x(i)
  {
    Associative(a, b, k, i, x);
    var f := (j: nat) => Times(Entry(a, b, k, i, j), x(j));
    forall j: nat | j < k ensures f(j) == if j == i then x(i) else ZERO {
      assert IdentityAt(a, b, k, i, j);
      TimesLaws(x(j), ONE, ZERO);
      TimesLaws(ZERO, x(j), ZERO);
    }
    SumSingle(f, k, i);
  }

  /** The top block of an encoding matrix is the identity, so data fragments are the data. */
  ghost predicate TopIdentity(e: seq<Byte>, k: nat) {
    forall i: nat, j: nat | i < k && j < k :: At(e, k, i, j) == Delta(i, j)
  }

  lemma {:induction false} DataFragment(e: seq<Byte>, k: nat, r: nat, data: nat -> Byte)
    requires r < k && TopIdentity(e, k)
    ensures Fragment(e, k, r, data) == data(r)
  {
    var f := (j: nat) => Times(At(e, k, r, j), data(j));
    forall j: nat | j < k ensures f(j) == if j == r then data(r) else ZERO {
      TimesLaws(data(j), ONE, ZERO);
      TimesLaws(ZERO, data(j), ZERO);
    }
    SumSingle(f, k, r);
  }

  /** Applying the rebuild row of fragment r to the surviving fragments gives fragment r. */
  lemma {:induction false} RowRebuilds(d: seq<Byte>, e: seq<Byte>, b: seq<Byte>, inverse: seq<Byte>, k: nat,
                                       rows: seq<nat>, i: nat, r: nat, data: nat -> Byte)
    requires TopIdentity(e, k) && RowsOf(b, e, k, rows) && LeftInverse(inverse, b, k)
    requires RebuildRow(d, e, inverse, k, i, r)
    ensures RowTimes(d, k, i, (n: nat) => Fragment(e, k, RowAt(rows, n), data)) == Fragment(e, k, r, data)
  {
    var survivors := (n: nat) => Fragment(e, k, RowAt(rows, n), data);
    var solved := (n: nat) => RowTimes(inverse, k, n, survivors);
    forall n: nat | n < k ensures solved(n) == data(n) {
      var packed := (j: nat) => RowTimes(b, k, j, data);
      forall j: nat | j < k ensures survivors(j) == packed(j) {
        RowTimesEqual(e, b, k, RowAt(rows, j), j, data, data);
      }
      RowTimesEqual(inverse, inverse, k, n, n, survivors, packed);
      IdentityTimes(inverse, b, k, n, data);
    }
    if r < k {
      RowTimesEqual(d, inverse, k, i, r, survivors, survivors);
      DataFragment(e, k, r, data);
    } else {
      Associative(e, inverse, k, r, survivors);
      RowTimesEqual(e, e, k, r, r, solved, data);
      forall j: nat | j < k ensures At(d, k, i, j) == Entry(e, inverse, k, r, j) {
        forall n: nat ensures Times(At(inverse, k, n, j), At(e, k, r, n)) == Times(At(e, k, r, n), At(inverse, k, n, j)) {
          TimesLaws(At(inverse, k, n, j), At(e, k, r, n), ZERO);
        }
        SumEqual((n: nat) => Times(At(inverse, k, n, j), At(e, k, r, n)),
                 (n: nat) => Times(At(e, k, r, n), ((m: nat) => At(inverse, k, m, j))(n)), k);
      }
      SumEqual((j: nat) => Times(At(d, k, i, j), survivors(j)),
               (j: nat) => Times(Entry(e, inverse, k, r, j), survivors(j)), k);
    }
  }

  // What is relied on of the library that generates and inverts matrices.

  datatype Library = Library(generate: (nat, nat) -> seq<Byte>, invert: (seq<Byte>, nat) -> Option<seq<Byte>>)

  /** The encoding matrix for m fragments, k of them data. */
  function Encoding(lib: Library, m: nat, k: nat): seq<Byte> { lib.generate(m, k) }

  ghost predicate Increasing(rows: seq<nat>, m: nat) {
    && (forall i | 0 <= i < |rows| :: rows[i] < m)
    && (forall i, j | 0 <= i < j < |rows| :: rows[i] < rows[j])
  }

  function RowAt(rows: seq<nat>, i: nat): nat { if i < |rows| then rows[i] else 0 }

  /** Every selection of k different rows is invertible. */
  ghost predicate SelectionsInvertible(e: seq<Byte>, k: nat, m: nat) {
    forall b: seq<Byte>, rows: seq<nat> |
      |b| == k * k && |rows| == k && Increasing(rows, m) && RowsOf(b, e, k, rows) :: Invertible(b, k)
  }

  ghost predicate Generated(e: seq<Byte>, k: nat, m: nat) {
    |e| == m * k && TopIdentity(e, k) && SelectionsInvertible(e, k, m)
  }

  ghost predicate Inverts(result: Option<seq<Byte>>, b: seq<Byte>, k: nat) {
    match result
    case Some(a) => |a| == k * k && Inverse(a, b, k)
    case None => !Invertible(b, k)
  }

  ghost predicate Generates(lib: Library, m: nat, k: nat) { Generated(Encoding(lib, m, k), k, m) }

  ghost predicate Sound(lib: Library) {
    && (forall m: nat, k: nat | 0 < k <= m <= M_MAX :: Generates(lib, m, k))
    && (forall b: seq<Byte>, k: nat | |b| == k * k :: Inverts(lib.invert(b, k), b, k))
  }

  /** The inverse that recovery needs exists, whatever fragments survive. */
  lemma {:induction false} SelectionInverts(lib: Library, k: nat, m: nat, b: seq<Byte>, rows: seq<nat>)
    requires Sound(lib) && 0 < k <= m <= M_MAX && |b| == k * k && |rows| == k && Increasing(rows, m)
    requires RowsOf(b, Encoding(lib, m, k), k, rows)
    ensures lib.invert(b, k).Some? && LeftInverse(lib.invert(b, k).value, b, k)
  {
    assert Generates(lib, m, k);
    assert Invertible(b, k);
    assert Inverts(lib.invert(b, k), b, k);
  }
}

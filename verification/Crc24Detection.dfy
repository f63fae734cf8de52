/** Signing and checking messages, and the errors that checking detects. */
module Crc24Detection {
  import opened Gf2
  import opened Crc24
  import opened Crc24Table
  import opened Crc24Literal
  import opened Crc24Hash

  // A signed message is a multiple of the generator.

  lemma {:induction false} BitsOfAppend(a: Poly, b: Poly)
    ensures BitsOf(Append(a, b)) == BitsOf(b) + BitsOf(a)
  {
    if a.Cons? { BitsOfAppend(a.rest, b); }
  }

  lemma {:induction false} BitsOfLength(a: Poly)
    ensures |BitsOf(a)| == Len(a)
  {
    if a.Cons? { BitsOfLength(a.rest); }
  }

  /** Dividing at most 24 bits leaves them as they are. */
  lemma {:induction false} ShortRemainder(p: Register, c: Poly)
    requires Len(c) <= 24
    ensures Remainder(p, BitsOf(c)) == Append(c, Zero(24 - Len(c)))
  {
    if c.Cons? {
      var n := 24 - Len(c.rest);
      ShortRemainder(p, c.rest);
      RemainderAppend(p, Zero(24), BitsOf(c.rest), [c.low]);
      var r := Append(c.rest, Zero(n));
      assert RemainderFrom(p, r, [c.low]) == Next(p, r, c.low);
      ShortStep(p, c.low, c.rest, n);
    }
  }

  lemma {:induction false} ShortStep(p: Register, low: bool, rest: Poly, n: nat)
    requires 0 < n && Len(rest) + n == 24
    ensures Next(p, Append(rest, Zero(n)), low) == Append(Cons(low, rest), Zero(n - 1))
  {
    ShiftAppend(false, rest, n);
    var shifted := Append(rest, Zero(n - 1));
    AddLaws(Shift(false, Append(rest, Zero(n))), Shift(false, Append(rest, Zero(n))));
    AddLaws(Cons(false, shifted), Zero(24));
    AddLaws(shifted, shifted);
    AddLaws(shifted, Zero(23));
  }

  lemma {:induction false} ZerosAdd(b: seq<bool>)
    ensures BitwiseAdd(Zeros(|b|), b) == b
  {}

  /** A message followed by 24 bits leaves the remainder of the message times x^24, plus them. */
  lemma {:induction false} RemainderWithTail(p: Register, bits: seq<bool>, c: Register)
    ensures Remainder(p, bits + BitsOf(c)) == Add(Power(p, Remainder(p, bits), 24), c)
  {
    var r := Remainder(p, bits);
    BitsOfLength(c);
    RemainderAppend(p, Zero(24), bits, BitsOf(c));
    ZerosAdd(BitsOf(c));
    AddLaws(r, Zero(24));
    RemainderAdd(p, r, Zero(24), Zeros(24), BitsOf(c));
    RemainderZeros(p, r, 24);
    ShortRemainder(p, c);
    AppendNil(c);
  }

  lemma {:induction false} SumIsZero(a: Poly, b: Poly)
    requires Len(a) == Len(b)
    ensures Add(a, b) == Zero(Len(a)) <==> a == b
  {
    if a.Cons? { SumIsZero(a.rest, b.rest); }
  }

  /** The three bytes of a register, the high one first. */
  function Tail(c: Register): seq<Byte> { [Take(Drop(c, 16), 8), Take(Drop(c, 8), 8), Take(c, 8)] }

  lemma {:induction false} TakeAll(a: Poly)
    ensures Take(a, Len(a)) == a
  {
    if a.Cons? { TakeAll(a.rest); }
  }

  lemma {:induction false} DropDrop(a: Poly, m: nat, n: nat)
    requires m + n <= Len(a)
    ensures Drop(Drop(a, m), n) == Drop(a, m + n)
  {
    if m > 0 { DropDrop(a.rest, m - 1, n); }
  }

  lemma {:induction false} TailBits(c: Register)
    ensures MessageBits(Tail(c)) == BitsOf(c)
  {
    var upper := Drop(c, 8);
    DropDrop(c, 8, 8);
    TakeAll(Drop(c, 16));
    TakeDrop(c, 8);
    TakeDrop(upper, 8);
    BitsOfAppend(Take(c, 8), upper);
    BitsOfAppend(Take(upper, 8), Drop(upper, 8));
    var t := Tail(c);
    assert t == [t[0]] + ([t[1]] + [t[2]]);
    MessageBitsAppend([t[0]], [t[1]] + [t[2]]);
    MessageBitsAppend([t[1]], [t[2]]);
    forall i | 0 <= i < 3 ensures MessageBits([t[i]]) == BitsOf(t[i]) {
      assert MessageBits([t[i]]) == BitsOf(t[i]) + MessageBits([]);
    }
  }

  /** Checking compares the hash of the body with the last three bytes. */
  ghost predicate Passes(p: Register, message: seq<Byte>)
    requires |message| >= 3
  {
    Tail(HashOf(p, message[..|message| - 3])) == message[|message| - 3..]
  }

  /** It succeeds exactly for the multiples of the generator. */
  lemma {:induction false} PassesIsZero(p: Register, body: seq<Byte>, c: Register)
    ensures Passes(p, body + Tail(c)) <==> Remainder(p, MessageBits(body + Tail(c))) == Zero(24)
  {
    var message, h := body + Tail(c), HashOf(p, body);
    assert message[..|message| - 3] == body && message[|message| - 3..] == Tail(c);
    MessageBitsAppend(body, Tail(c));
    TailBits(c);
    TailBits(h);
    RemainderWithTail(p, MessageBits(body), c);
    HashIsPower(p, body);
    SumIsZero(h, c);
    if Tail(h) == Tail(c) {
      ShortRemainder(p, h);
      ShortRemainder(p, c);
      AppendNil(h);
      AppendNil(c);
    }
  }

  /** Any three bytes are the tail of some register. */
  lemma {:induction false} TailOf(a: Byte, b: Byte, c: Byte)
    ensures Tail(Append(c, Append(b, a))) == [a, b, c]
  {
    TakeAppend(c, Append(b, a), 0);
    TakeAppend(b, a, 0);
    AppendNil(c);
    AppendNil(b);
    DropAppend(c, Append(b, a));
    DropAppend(b, a);
    DropDrop(Append(c, Append(b, a)), 8, 8);
    TakeAll(a);
  }

  lemma {:induction false} DropAppend(a: Poly, b: Poly)
    ensures Drop(Append(a, b), Len(a)) == b
  {
    if a.Cons? { DropAppend(a.rest, b); }
  }

  lemma {:induction false} PassesExactly(p: Register, message: seq<Byte>)
    requires |message| >= 3
    ensures Passes(p, message) <==> Remainder(p, MessageBits(message)) == Zero(24)
  {
    var n := |message| - 3;
    var c := Append(message[n + 2], Append(message[n + 1], message[n]));
    TailOf(message[n], message[n + 1], message[n + 2]);
    assert message == message[..n] + Tail(c);
    PassesIsZero(p, message[..n], c);
  }

  /** A message with its hash appended passes, and hashes to zero. */
  lemma {:induction false} SignedPasses(p: Register, body: seq<Byte>)
    ensures Passes(p, body + Tail(HashOf(p, body))) && HashOf(p, body + Tail(HashOf(p, body))) == Zero(24)
  {
    var message := body + Tail(HashOf(p, body));
    assert message[..|message| - 3] == body && message[|message| - 3..] == Tail(HashOf(p, body));
    PassesExactly(p, message);
    HashIsPower(p, message);
    PowerZero(p, 24);
  }

  lemma {:induction false} PassesByBytes(p: Register, message: seq<Byte>)
    requires |message| >= 3
    ensures var n := |message| - 3;
            var t := Tail(HashOf(p, message[..n]));
            Passes(p, message) <==> message[n] == t[0] && message[n + 1] == t[1] && message[n + 2] == t[2]
  {
    var n := |message| - 3;
    assert message[n..] == [message[n], message[n + 1], message[n + 2]];
  }

  method Sign(data: array<Byte>, len: nat)
    requires len + 3 <= data.Length
    modifies data
    ensures data[..len] == old(data[..len]) && data[len + 3..] == old(data[len + 3..])
    ensures data[len..len + 3] == Tail(HashOf(Low24(Generator()), data[..len]))
    ensures Passes(Low24(Generator()), data[..len + 3])
  {
    var crc := Hash(data, len);
    ghost var p := Low24(Generator());
    ghost var h := HashOf(p, data[..len]);
    BytesOfWord(h);
    data[len], data[len + 1], data[len + 2] := ByteOf(crc, 2), ByteOf(crc, 1), ByteOf(crc, 0);
    assert data[..len] == old(data[..len]);
    assert data[..len + 3] == data[..len] + Tail(h);
    SignedPasses(p, data[..len]);
  }

  method Check(data: array<Byte>, len: nat) returns (ok: bool)
    requires 3 <= len <= data.Length
    ensures ok <==> Passes(Low24(Generator()), data[..len])
  {
    var crc := Hash(data, len - 3);
    ghost var p := Low24(Generator());
    BytesOfWord(HashOf(p, data[..len - 3]));
    PassesByBytes(p, data[..len]);
    assert data[..len][..len - 3] == data[..len - 3];
    ok := data[len - 3] == ByteOf(crc, 2) && data[len - 2] == ByteOf(crc, 1) && data[len - 1] == ByteOf(crc, 0);
  }

  lemma {:induction false} BytesOfWord(h: Register)
    ensures Tail(h) == [ByteOf(Append(h, Zero(8)), 2), ByteOf(Append(h, Zero(8)), 1), ByteOf(Append(h, Zero(8)), 0)]
  {
    var w := Append(h, Zero(8));
    TakeAppend(h, Zero(8), 0);
    AppendNil(h);
    assert Take(w, 24) == h;
    TakeOfDrop(w, 16, 8);
    TakeOfDrop(w, 8, 8);
    TakeOfDrop(h, 16, 8);
    TakeOfDrop(h, 8, 8);
    TakeTake(w, 24, 16);
    TakeTake(w, 24, 8);
    TakeAll(h);
  }
}

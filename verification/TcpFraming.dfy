/** Cutting the byte stream of a connection into messages: a header, whose content tells how many
    bytes of bulk follow it. */
module TcpFraming {
  import opened Common

  type Byte = bv8

  const ENOTCONN: int := -107
  const MAX_BULK_SIZE: nat := 0x1000_0000

  /** How the peers of a connection frame messages: the size of a header, and the number of bytes
      that follow one, negative for a header that is not understood. */
  datatype Protocol = Protocol(headerSize: nat, bulkSize: seq<Byte> -> int)

  /** A header's answer is not mistaken for an empty socket. */
  ghost predicate Sane(p: Protocol) { p.headerSize > 0 && forall h :: p.bulkSize(h) != EAGAIN }

  // Messages in a stream.

  /** A header that is refused: not understood, or of a message that is too large. */
  predicate Refused(p: Protocol, header: seq<Byte>) {
    p.bulkSize(header) < 0 || (p.bulkSize(header) > 0 && p.headerSize + p.bulkSize(header) > MAX_BULK_SIZE)
  }

  /** One message: a header and as many more bytes as it calls for. */
  predicate IsFrame(p: Protocol, f: seq<Byte>) {
    |f| >= p.headerSize && !Refused(p, f[..p.headerSize]) && p.bulkSize(f[..p.headerSize]) == |f| - p.headerSize
  }

  /** The messages at the start of a stream, up to the first that is refused or not complete. */
  function Frames(p: Protocol, s: seq<Byte>): seq<seq<Byte>>
    requires p.headerSize > 0
    decreases |s|
  {
    if |s| < p.headerSize || Refused(p, s[..p.headerSize]) then []
    else
      var bulk := p.bulkSize(s[..p.headerSize]);
      if p.headerSize + bulk > |s| then []
      else [s[..p.headerSize + bulk]] + Frames(p, s[p.headerSize + bulk..])
  }

  function Joined(fs: seq<seq<Byte>>): seq<Byte> { if fs == [] then [] else fs[0] + Joined(fs[1..]) }

  lemma {:induction false} JoinedMore(fs: seq<seq<Byte>>, f: seq<Byte>)
    ensures Joined(fs + [f]) == Joined(fs) + f
  {
    if fs == [] {
      assert fs + [f] == [f] && [f][1..] == [];
    } else {
      assert (fs + [f])[1..] == fs[1..] + [f];
      JoinedMore(fs[1..], f);
    }
  }

  /** A stream that starts with these messages has exactly these as its first. */
  lemma {:induction false} FramesOf(p: Protocol, fs: seq<seq<Byte>>, rest: seq<Byte>)
    requires p.headerSize > 0 && forall i | 0 <= i < |fs| :: IsFrame(p, fs[i])
    ensures Frames(p, Joined(fs) + rest) == fs + Frames(p, rest)
    decreases |fs|
  {
    if fs == [] {
      assert [] + rest == rest && [] + Frames(p, rest) == Frames(p, rest);
    } else {
      FirstFrame(p, fs[0], Joined(fs[1..]) + rest);
      FramesOf(p, fs[1..], rest);
      Regrouped(fs, rest, Frames(p, rest));
    }
  }

  lemma {:induction false} Regrouped(fs: seq<seq<Byte>>, rest: seq<Byte>, more: seq<seq<Byte>>)
    requires fs != []
    ensures Joined(fs) + rest == fs[0] + (Joined(fs[1..]) + rest)
    ensures [fs[0]] + (fs[1..] + more) == fs + more
  {
    Front(fs[0], Joined(fs[1..]), rest);
    Front([fs[0]], fs[1..], more);
    assert [fs[0]] + fs[1..] == fs;
  }

  lemma {:induction false} Front<T>(a: seq<T>, b: seq<T>, c: seq<T>)
    ensures (a + b) + c == a + (b + c)
  {}

  lemma {:induction false} FirstFrame(p: Protocol, f: seq<Byte>, rest: seq<Byte>)
    requires p.headerSize > 0 && IsFrame(p, f)
    ensures Frames(p, f + rest) == [f] + Frames(p, rest)
  {
    var s, h := f + rest, p.headerSize;
    assert s[..h] == f[..h] && s[..|f|] == f && s[|f|..] == rest;
  }

  // Receiving.

  /** What reading a header reports: nothing there, the header, or that it cannot be read. */
  datatype HeaderRead = NoHeader | WholeHeader | BadHeader

  /** What reading bulk reports: at most n bytes, nothing there, the end of the stream, an error. */
  datatype BulkRead = Some(n: nat) | NoBulk | EndOfStream | BadBulk

  /** One wakeup: what its reads report, whether memory is found, and what the callback returns. */
  datatype Event = Event(header: HeaderRead, bulk: BulkRead, memory: bool, callback: int)

  class Connection {
    const protocol: Protocol
    const stream: seq<Byte>        // everything the peer sends
    var consumed: nat              // how much of it has been read
    var bulkBuf: Option<seq<Byte>> // the message being read, header included
    var bulkOffset: nat
    var bulkRemain: nat
    var open: bool
    ghost var delivered: seq<seq<Byte>>

    ghost predicate Valid()
      reads this
    {
      && Sane(protocol) && consumed <= |stream|
      && (forall i | 0 <= i < |delivered| :: IsFrame(protocol, delivered[i]))
      && (open ==> Partial())
      && (open ==> Joined(delivered) + Begun() == stream[..consumed])
      && (!open ==> Joined(delivered) <= stream[..consumed])
    }

    /** The message being read is a header, part of its bulk, and room for the rest. */
    predicate Partial()
      reads this
    {
      if bulkRemain == 0 then bulkBuf.None? && bulkOffset == 0
      else
        && bulkBuf.Some? && 0 < protocol.headerSize <= bulkOffset && bulkOffset + bulkRemain == |bulkBuf.value|
        && IsFrame(protocol, bulkBuf.value)
    }

    function Begun(): seq<Byte>
      reads this
    {
      if bulkBuf.Some? && bulkOffset <= |bulkBuf.value| then bulkBuf.value[..bulkOffset] else []
    }

    constructor (protocol: Protocol, stream: seq<Byte>)
      requires Sane(protocol)
      ensures Valid() && delivered == [] && open && this.protocol == protocol && this.stream == stream
    {
      this.protocol, this.stream := protocol, stream;
      consumed, bulkBuf, bulkOffset, bulkRemain, open, delivered := 0, None, 0, 0, true, [];
    }

    /** The messages handed over, as far as the stream has been read. */
    ghost predicate InOrder()
      reads this
    {
      && Sane(protocol) && consumed <= |stream|
      && (forall i | 0 <= i < |delivered| :: IsFrame(protocol, delivered[i]))
      && Joined(delivered) <= stream[..consumed]
    }

    /** What is in the stream after the messages handed over. */
    ghost function Rest(): seq<Byte>
      requires |Joined(delivered)| <= |stream|
      reads this
    { stream[|Joined(delivered)|..] }

    /** The header that comes next. */
    function NextHeader(): seq<Byte>
      requires consumed + protocol.headerSize <= |stream|
      reads this
    { stream[consumed..consumed + protocol.headerSize] }

    /** How a header has been dealt with. */
    ghost predicate Taken(header: seq<Byte>, e: Event, rc: int, before: seq<seq<Byte>>)
      reads this
    {
      var bulk := protocol.bulkSize(header);
      if bulk == 0 then rc == e.callback && delivered == before + [header] && bulkRemain == 0
      else
        && delivered == before
        && rc == (if bulk < 0 then bulk else if Refused(protocol, header) then E2BIG else if !e.memory then ENOMEM else 0)
        && if rc == 0 then bulkRemain == bulk && Begun() == header else bulkRemain == 0
    }

    /** Reads a header; a message without bulk is handed over at once, another one begun. */
    method NewMessage(e: Event) returns (rc: int)
      requires Valid() && open && bulkRemain == 0
      modifies this
      ensures open && InOrder() && (rc >= 0 || rc == EAGAIN ==> Valid())
      ensures if old(consumed) + protocol.headerSize > |stream| || e.header.NoHeader? then rc == EAGAIN && unchanged(this)
              else if e.header.BadHeader? then rc == ENOTCONN && unchanged(this)
              else consumed == old(consumed) + protocol.headerSize && Taken(old(NextHeader()), e, rc, old(delivered))
    {
      var h := protocol.headerSize;
      if consumed + h > |stream| || e.header.NoHeader? { return EAGAIN; }
      if e.header.BadHeader? { return ENOTCONN; }
      var header := NextHeader();
      ghost var before := stream[..consumed];
      consumed := consumed + h;
      assert stream[..consumed] == before + header && header[..h] == header;
      var bulk := protocol.bulkSize(header);
      if bulk < 0 { return bulk; }
      if bulk == 0 {
        rc := Deliver(header, e.callback);
      } else {
        if h + bulk > MAX_BULK_SIZE { return E2BIG; }
        if !e.memory { return ENOMEM; }
        bulkBuf, bulkOffset, bulkRemain := Option.Some(header + Blank(bulk)), h, bulk;
        assert (header + Blank(bulk))[..h] == header;
        rc := 0;
      }
    }

    /** Hands a message over to the user. */
    method Deliver(message: seq<Byte>, callback: int) returns (rc: int)
      requires Sane(protocol) && consumed <= |stream| && IsFrame(protocol, message)
      requires forall i | 0 <= i < |delivered| :: IsFrame(protocol, delivered[i])
      requires Joined(delivered) + message == stream[..consumed]
      modifies this`delivered
      ensures delivered == old(delivered) + [message] && Joined(delivered) == stream[..consumed]
      ensures rc == callback
    {
      JoinedMore(delivered, message);
      delivered := delivered + [message];
      rc := callback;
    }

    /** Reads on in the bulk of the message begun. */
    method BulkProgress(e: Event) returns (rc: int)
      requires Valid() && open && bulkRemain > 0
      modifies this
      ensures open && delivered == old(delivered) && rc <= 0 && (rc < 0 <==> e.bulk.EndOfStream? || e.bulk.BadBulk?)
      ensures e.bulk.EndOfStream? ==> rc == ENOTCONN
      ensures var got := if e.bulk.Some? then Least(e.bulk.n, Least(old(bulkRemain), |stream| - old(consumed))) else 0;
              consumed == old(consumed) + got && bulkRemain == old(bulkRemain) - got
      ensures rc < 0 ==> Valid() && rc != EAGAIN
      ensures rc == 0 && bulkRemain > 0 ==> Valid()
      ensures rc == 0 ==> InOrder() && bulkBuf.Some? && bulkOffset + bulkRemain == |bulkBuf.value|
      ensures rc == 0 ==> IsFrame(protocol, bulkBuf.value) && Joined(delivered) + Begun() == stream[..consumed]
      ensures rc == 0 ==> 0 < protocol.headerSize <= bulkOffset
    {
      match e.bulk
      case NoBulk => rc := 0;
      case EndOfStream => rc := ENOTCONN;
      case BadBulk => rc := EFAULT;
      case Some(n) =>
        var left := |stream| - consumed;
        var got := Least(n, Least(bulkRemain, left));
        ghost var before, begun := stream[..consumed], Begun();
        var piece := stream[consumed..consumed + got];
        var buf := bulkBuf.value;
        assert stream[..consumed + got] == before + piece;
        bulkBuf := Option.Some(buf[..bulkOffset] + piece + buf[bulkOffset + got..]);
        assert bulkBuf.value[..bulkOffset + got] == begun + piece;
        assert bulkBuf.value[..protocol.headerSize] == buf[..protocol.headerSize];
        consumed, bulkOffset, bulkRemain := consumed + got, bulkOffset + got, bulkRemain - got;
        assert Joined(delivered) + (begun + piece) == Joined(delivered) + begun + piece;
        rc := 0;
    }

    /** The message begun is complete and is handed over. */
    method BulkComplete(callback: int) returns (rc: int)
      requires open && InOrder() && bulkBuf.Some? && bulkOffset == |bulkBuf.value| && bulkRemain == 0
      requires IsFrame(protocol, bulkBuf.value) && Joined(delivered) + bulkBuf.value == stream[..consumed]
      modifies this
      ensures open && Valid() && rc == callback && delivered == old(delivered + [bulkBuf.value])
      ensures consumed == old(consumed) && bulkRemain == 0
    {
      rc := Deliver(bulkBuf.value, callback);
      bulkBuf, bulkOffset := None, 0;
    }

    /** Nothing more to be read but part of a message. */
    ghost predicate Exhausted()
      reads this
    {
      open && if bulkRemain == 0 then consumed + protocol.headerSize > |stream| else consumed == |stream|
    }

    // What a wakeup reads, and when it closes the connection.

    predicate HeaderThere(e: Event)
      reads this
    { consumed + protocol.headerSize <= |stream| && !e.header.NoHeader? }

    /** How much of `remain` bytes of bulk is read at a place of the stream. */
    function PieceRead(e: Event, at: nat, remain: nat): nat
      requires at <= |stream|
      reads this
    { if e.bulk.Some? then Least(e.bulk.n, Least(remain, |stream| - at)) else 0 }

    /** Reading bulk fails or meets the end of the stream, or completes a message whose callback fails. */
    predicate BulkFails(e: Event, at: nat, remain: nat)
      requires at <= |stream|
      reads this
    { e.bulk.EndOfStream? || e.bulk.BadBulk? || (PieceRead(e, at, remain) == remain && e.callback < 0) }

    /** A header cannot be read or is refused, or finds no memory for its bulk, or the callback of its message fails. */
    predicate HeaderFails(e: Event)
      requires HeaderThere(e)
      reads this
    {
      var bulk := protocol.bulkSize(NextHeader());
      e.header.BadHeader? ||
      if bulk == 0 then e.callback < 0 && e.callback != EAGAIN else Refused(protocol, NextHeader()) || !e.memory
    }

    predicate Closes(e: Event)
      requires consumed <= |stream|
      reads this
    {
      if bulkRemain > 0 then BulkFails(e, consumed, bulkRemain)
      else if !HeaderThere(e) then false
      else HeaderFails(e) || (HasBulk(e) && BulkFails(e, consumed + protocol.headerSize, protocol.bulkSize(NextHeader())))
    }

    /** The header that is there calls for bulk. */
    predicate HasBulk(e: Event)
      requires HeaderThere(e)
      reads this
    { !HeaderFails(e) && protocol.bulkSize(NextHeader()) > 0 }

    /** How many bytes the wakeup takes from the stream. */
    function Reads(e: Event): nat
      requires consumed <= |stream|
      reads this
    {
      if bulkRemain > 0 then PieceRead(e, consumed, bulkRemain)
      else if !HeaderThere(e) || e.header.BadHeader? then 0
      else if !HasBulk(e) then protocol.headerSize
      else protocol.headerSize + PieceRead(e, consumed + protocol.headerSize, protocol.bulkSize(NextHeader()))
    }

    /** One wakeup of the connection: how much it reads and when it closes the connection. When nothing fails it is
        closed only by a header that is refused. A socket with nothing to read, also in the middle of a message, is
        left as it is. */
    method RecvInline(e: Event)
      requires Valid() && open
      modifies this
      ensures Valid() && consumed == old(consumed) + old(Reads(e)) && (open <==> !old(Closes(e)))
      ensures Fine(e) && old(Exhausted()) ==> Exhausted()
      ensures Fine(e) && !open ==> Frames(protocol, Rest()) == []
      ensures Fine(e) && Brings(e) && open ==> Exhausted() || consumed > old(consumed)
    {
      var rc := 0;
      if bulkRemain == 0 {
        rc := StartMessage(e);
        if rc == EAGAIN { return; }
      }
      if rc == 0 && bulkRemain > 0 {
        rc := MoreBulk(e);
      }
      if rc < 0 { open := false; }
    }

    /** The first half of a wakeup between two messages. */
    method StartMessage(e: Event) returns (rc: int)
      requires Valid() && open && bulkRemain == 0
      modifies this
      ensures open && InOrder() && (rc >= 0 || rc == EAGAIN ==> Valid())
      ensures consumed == old(consumed) + if old(HeaderThere(e)) && !e.header.BadHeader? then protocol.headerSize else 0
      ensures if old(HeaderThere(e)) then rc < 0 && rc != EAGAIN <==> old(HeaderFails(e)) else rc == EAGAIN
      ensures rc == 0 && bulkRemain > 0 <==> old(HeaderThere(e) && HasBulk(e))
      ensures bulkRemain > 0 ==> rc == 0 && bulkRemain == protocol.bulkSize(old(NextHeader()))
      ensures Fine(e) && rc < 0 && rc != EAGAIN ==> |Joined(delivered)| <= |stream| && !old(Exhausted()) && Frames(protocol, Rest()) == []
    {
      ghost var from := consumed;
      assert Joined(delivered) <= stream;
      rc := NewMessage(e);
      if rc != EAGAIN { RefusedNext(from, e, rc); }
    }

    /** Reads on in the bulk of the message begun, and hands the message over when it is complete. */
    method MoreBulk(e: Event) returns (rc: int)
      requires Valid() && open && bulkRemain > 0
      modifies this
      ensures Valid() && open && consumed == old(consumed) + old(PieceRead(e, consumed, bulkRemain))
      ensures rc < 0 <==> old(BulkFails(e, consumed, bulkRemain))
      ensures Fine(e) && old(consumed) == |stream| ==> Exhausted()
    {
      rc := BulkProgress(e);
      if rc == 0 && bulkRemain == 0 {
        assert bulkBuf.value[..bulkOffset] == bulkBuf.value;
        rc := BulkComplete(e.callback);
      }
    }

    lemma {:induction false} RefusedNext(from: nat, e: Event, rc: int)
      requires InOrder() && from <= consumed
      requires Fine(e) && rc < 0 ==>
                 && Joined(delivered) == stream[..from] && from + protocol.headerSize <= |stream|
                 && Refused(protocol, stream[from..from + protocol.headerSize])
      ensures |Joined(delivered)| <= |stream|
      ensures Fine(e) && rc < 0 ==> Frames(protocol, Rest()) == []
    {
      if Fine(e) && rc < 0 {
        assert Rest()[..protocol.headerSize] == stream[from..from + protocol.headerSize];
      }
    }

    /** Whatever the reads report, the messages handed over are the first of the stream, in order. They are all of
        them when the connection has read its stream between two messages, and when nothing fails and enough wakeups
        bring bytes, however many others in between find nothing to read. */
    method Run(events: seq<Event>)
      requires Valid()
      modifies this
      ensures Valid() && delivered <= Frames(protocol, stream)
      ensures open && bulkRemain == 0 && consumed == |stream| ==> delivered == Frames(protocol, stream)
      ensures old(open) && (forall i | 0 <= i < |events| :: Fine(events[i])) && Bringing(events) >= |stream| - old(consumed) ==>
                delivered == Frames(protocol, stream)
    {
      var i := 0;
      while i < |events| && open
        invariant i <= |events| && Valid()
        invariant old(open) && (forall n | 0 <= n < |events| :: Fine(events[n])) ==>
                    if open then Exhausted() || consumed >= old(consumed) + Bringing(events[..i]) else Frames(protocol, Rest()) == []
      {
        assert events[..i + 1][..i] == events[..i];
        RecvInline(events[i]);
        i := i + 1;
      }
      assert events[..|events|] == events;
      StartsWith();
    }

    lemma {:induction false} StartsWith()
      requires Valid()
      ensures delivered <= Frames(protocol, stream)
      ensures (open && consumed == |stream|) || Exhausted() ==> Frames(protocol, Rest()) == []
      ensures Frames(protocol, Rest()) == [] ==> delivered == Frames(protocol, stream)
    {
      assert Joined(delivered) <= stream by { assert stream == stream[..consumed] + stream[consumed..]; }
      assert stream == Joined(delivered) + Rest();
      FramesOf(protocol, delivered, Rest());
      if (open && consumed == |stream|) || Exhausted() {
        assert stream == Joined(delivered) + Begun() + stream[consumed..];
        assert Rest() == Begun() + stream[consumed..];
        if bulkRemain > 0 {
          assert Rest() == bulkBuf.value[..bulkOffset];
          assert Rest()[..protocol.headerSize] == bulkBuf.value[..protocol.headerSize];
        }
      }
    }
  }

  /** Nothing fails, but there may be nothing to read. */
  predicate Fine(e: Event) {
    !e.header.BadHeader? && (e.bulk.NoBulk? || (e.bulk.Some? && e.bulk.n > 0)) && e.memory && e.callback >= 0
  }

  /** Whatever is read, there is something. */
  predicate Brings(e: Event) { e.header.WholeHeader? && e.bulk.Some? }

  function Bringing(events: seq<Event>): nat {
    if events == [] then 0 else Bringing(events[..|events| - 1]) + One(Brings(events[|events| - 1]))
  }

  function Least(a: nat, b: nat): nat { if a < b then a else b }

  function Blank(n: nat): (s: seq<Byte>)
    ensures |s| == n
  { seq(n, _ => 0) }
}

/** Sending a whole I/O vector over a socket that may take it piece by piece. */
module TcpSend {
  import opened Common
  import opened IoVec

  const MAX_IOVS: nat := 1024

  /** What one call of the system reports: bytes taken, nothing for now, or an error. */
  datatype Outcome = Sent(n: nat) | Again | Failed(error: nat)

  /** A send has returned, or is still trying when the outcomes known of are used up. */
  datatype Progress = Returned(rc: int) | Trying

  function Min(a: nat, b: nat): nat { if a < b then a else b }

  /** What has become of a send of total bytes, done of which have gone out. */
  function Reply(outcomes: seq<Outcome>, total: nat, done: nat): (Progress, nat)
    requires done <= total
    decreases |outcomes|
  {
    if done == total then (Returned(done), done)
    else if outcomes == [] then (Trying, done)
    else
      match outcomes[0]
      case Again => Reply(outcomes[1..], total, done)
      case Failed(error) => (Returned(0 - (error as int)), done)
      case Sent(n) => Reply(outcomes[1..], total, done + Min(n, total - done))
  }

  /** The bytes that the system is ready to take. */
  function Taken(outcomes: seq<Outcome>): nat {
    if outcomes == [] then 0 else (if outcomes[0].Sent? then outcomes[0].n else 0) + Taken(outcomes[1..])
  }

  /** Without an error, a send returns once the system has taken enough, and then all has been sent. */
  lemma {:induction false} ReplyIs(outcomes: seq<Outcome>, total: nat, done: nat)
    requires done <= total && forall o | o in outcomes :: !o.Failed?
    ensures Reply(outcomes, total, done)
         == if done + Taken(outcomes) >= total then (Returned(total), total) else (Trying, done + Taken(outcomes))
    decreases |outcomes|
  {
    if done < total && outcomes != [] {
      assert outcomes[0] in outcomes;
      ReplyIs(outcomes[1..], total, if outcomes[0].Sent? then done + Min(outcomes[0].n, total - done) else done);
    }
  }

  /** The first error ends a send that is not done by then, with that error. */
  lemma {:induction false} ReplyFails(outcomes: seq<Outcome>, total: nat, done: nat, i: nat)
    requires done <= total && i < |outcomes| && outcomes[i].Failed? && forall k | 0 <= k < i :: !outcomes[k].Failed?
    ensures Reply(outcomes, total, done)
         == if done + Taken(outcomes[..i]) >= total then (Returned(total), total)
            else (Returned(0 - (outcomes[i].error as int)), done + Taken(outcomes[..i]))
    decreases i
  {
    if i > 0 {
      assert outcomes[..i][0] == outcomes[0] && outcomes[..i][1..] == outcomes[1..][..i - 1];
      if done < total {
        ReplyFails(outcomes[1..], total, if outcomes[0].Sent? then done + Min(outcomes[0].n, total - done) else done, i - 1);
      }
    }
  }

  /** Whatever the system takes at a time, the bytes sent are the first of the vector in order, and a
      send that succeeds has sent all of them. */
  method Send(iov: array<Iov>, num: nat, maxSize: nat, outcomes: seq<Outcome>) returns (p: Progress, ghost sent: seq<int>)
    requires num <= iov.Length && forall o | o in outcomes && o.Failed? :: o.error > 0
    ensures num == 0 ==> p == Returned(EINVAL)
    ensures num > MAX_IOVS ==> p == Returned(E2BIG)
    ensures 0 < num <= MAX_IOVS && (Total(iov[..num]) == 0 || Total(iov[..num]) > maxSize) ==> p == Returned(EMSGSIZE)
    ensures |sent| <= Total(iov[..num]) && sent == Flat(iov[..num])[..|sent|]
    ensures 0 < num <= MAX_IOVS && 0 < Total(iov[..num]) <= maxSize ==> (p, |sent|) == Reply(outcomes, Total(iov[..num]), 0)
    ensures p.Returned? && p.rc >= 0 ==> p.rc == Total(iov[..num]) && sent == Flat(iov[..num])
  {
    sent := [];
    if num == 0 { return Returned(EINVAL), sent; }
    if num > MAX_IOVS { return Returned(E2BIG), sent; }
    ghost var s := iov[..num];
    var total := TotalSize(iov, num);
    if total == 0 || total > maxSize { return Returned(EMSGSIZE), sent; }
    var totalSent: nat := 0;
    var i := 0;
    assert outcomes[0..] == outcomes;
    while totalSent < total && i < |outcomes|
      invariant i <= |outcomes| && iov[..num] == s && totalSent == |sent| <= total == Total(s)
      invariant sent == Flat(s)[..totalSent] && Reply(outcomes, total, 0) == Reply(outcomes[i..], total, totalSent)
      decreases |outcomes| - i
    {
      var myIovs := new Iov[num](_ => Iov(0, 0));
      var myIovlen := MapConsumed(iov, myIovs, num, totalSent, -1);
      MappedFlat(s, totalSent, -1);
      ghost var offered := Flat(myIovs[..myIovlen]);
      assert outcomes[i] in outcomes && outcomes[i..][0] == outcomes[i] && outcomes[i..][1..] == outcomes[i + 1..];
      match outcomes[i] {
        case Again =>
        case Failed(error) => return Returned(0 - (error as int)), sent;
        case Sent(n) =>
          var taken := Min(n, total - totalSent);
          sent := sent + offered[..taken];
          assert Flat(s)[..totalSent] + Flat(s)[totalSent..][..taken] == Flat(s)[..totalSent + taken];
          totalSent := totalSent + taken;
      }
      i := i + 1;
    }
    assert Flat(s)[..total] == Flat(s);
    p := if totalSent == total then Returned(totalSent) else Trying;
  }

  method TotalSize(iov: array<Iov>, num: nat) returns (total: nat)
    requires num <= iov.Length
    ensures total == Total(iov[..num])
  {
    total := 0;
    var i := 0;
    assert iov[..0] == [];
    while i < num
      invariant i <= num && total == Prefix(iov[..num], i)
    {
      PrefixNext(iov[..num], i);
      total := total + iov[i].len;
      i := i + 1;
    }
    assert iov[..num][..num] == iov[..num];
  }
}

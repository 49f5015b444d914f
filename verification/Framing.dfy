/** Messages on a byte stream: a two-byte big-endian length before every payload, written and
    read by loops that survive partial and interrupted system calls. */
module Framing {

  newtype byte = x: int | 0 <= x < 256

  const MAX_PAYLOAD := 0xFFFF

  // ---------------------------------------------------------------- frames

  function Length16(n: nat): seq<byte>
    requires n <= MAX_PAYLOAD
  {
    [(n / 256) as byte, (n % 256) as byte]
  }

  function Value16(b: seq<byte>): nat
    requires |b| == 2
  {
    b[0] as int * 256 + b[1] as int
  }

  predicate Sendable(p: seq<byte>) {
    0 < |p| <= MAX_PAYLOAD
  }

  predicate AllSendable(ps: seq<seq<byte>>) {
    forall k :: 0 <= k < |ps| ==> Sendable(ps[k])
  }

  function Frame(p: seq<byte>): seq<byte>
    requires Sendable(p)
  {
    Length16(|p|) + p
  }

  /** The length goes first, its high byte before its low one. */
  lemma FrameBytes(p: seq<byte>)
    requires Sendable(p)
    ensures 0 < |p| <= 65535 && |Frame(p)| == |p| + 2 && Frame(p)[2..] == p
    ensures Frame(p)[0] as int * 256 + Frame(p)[1] as int == |p|
  {
  }

  function Frames(ps: seq<seq<byte>>): seq<byte>
    requires AllSendable(ps)
  {
    if ps == [] then [] else Frame(ps[0]) + Frames(ps[1..])
  }

  /** A whole frame at the front of the bytes. */
  predicate FrameComplete(b: seq<byte>) {
    |b| >= 2 && 0 < Value16(b[..2]) <= |b| - 2
  }

  /** All whole frames at the front of the bytes, and the bytes left over. */
  function Unframe(b: seq<byte>): (res: (seq<seq<byte>>, seq<byte>))
    decreases |b|
  {
    if !FrameComplete(b) then ([], b) else
      var n := Value16(b[..2]);
      var (ps, rest) := Unframe(b[2 + n..]);
      ([b[2..2 + n]] + ps, rest)
  }

  lemma FrameSplits(p: seq<byte>, rest: seq<byte>)
    requires Sendable(p)
    ensures FrameComplete(Frame(p) + rest)
    ensures Value16((Frame(p) + rest)[..2]) == |p|
    ensures (Frame(p) + rest)[2..2 + |p|] == p && (Frame(p) + rest)[2 + |p|..] == rest
  {
    var b := Frame(p) + rest;
    assert b[..2] == Length16(|p|);
    assert Value16(Length16(|p|)) == |p|;
  }

  /** Behind any number of frames the parsing goes on with whatever follows them. */
  lemma {:induction false} RoundTrip(ps: seq<seq<byte>>, rest: seq<byte>)
    requires AllSendable(ps)
    ensures Unframe(Frames(ps) + rest) == (ps + Unframe(rest).0, Unframe(rest).1)
  {
    hide Frame, FrameComplete, Value16, Unframe;
    if ps == [] {
      assert Frames(ps) + rest == rest && ps + Unframe(rest).0 == Unframe(rest).0;
    } else {
      var later := Frames(ps[1..]) + rest;
      Associative(Frame(ps[0]), Frames(ps[1..]), rest);
      FrameSplits(ps[0], later);
      UnframeFirst(ps[0], Frame(ps[0]) + later);
      RoundTrip(ps[1..], rest);
      assert ps + Unframe(rest).0 == [ps[0]] + (ps[1..] + Unframe(rest).0);
    }
  }

  lemma Associative(a: seq<byte>, b: seq<byte>, c: seq<byte>)
    ensures a + b + c == a + (b + c)
  {
  }

  lemma {:induction false} FramesConcat(ps: seq<seq<byte>>, qs: seq<seq<byte>>)
    requires AllSendable(ps) && AllSendable(qs)
    ensures AllSendable(ps + qs) && Frames(ps + qs) == Frames(ps) + Frames(qs)
  {
    hide Frame, Sendable;
    if ps == [] {
      assert ps + qs == qs && Frames(ps) + Frames(qs) == Frames(qs);
    } else {
      FramesConcat(ps[1..], qs);
      assert (ps + qs)[1..] == ps[1..] + qs;
      Associative(Frame(ps[0]), Frames(ps[1..]), Frames(qs));
    }
  }

  lemma FramesNil()
    ensures Frames([]) == []
  {
  }

  lemma FramesSnoc(ps: seq<seq<byte>>, p: seq<byte>)
    requires AllSendable(ps) && Sendable(p)
    ensures AllSendable(ps + [p]) && Frames(ps + [p]) == Frames(ps) + Frame(p)
  {
    FramesConcat(ps, [p]);
    assert Frames([p]) == Frame(p) + Frames([]);
  }

  /** The payloads received are the first of those sent, and no byte is out of place. */
  ghost predicate FirstOnes(ps: seq<seq<byte>>, got: seq<seq<byte>>, b: seq<byte>, rest: seq<byte>)
    requires AllSendable(ps)
  {
    |got| <= |ps| && got == ps[..|got|] && b == Frames(ps[..|got|]) + rest
  }

  /** This is so while any part of the stream has arrived. */
  lemma {:induction false} RoundTripOfPrefix(ps: seq<seq<byte>>, b: seq<byte>)
    requires AllSendable(ps) && b <= Frames(ps)
    ensures FirstOnes(ps, Unframe(b).0, b, Unframe(b).1)
    decreases |ps|
  {
    hide FirstOnes, Frame;
    if ps == [] || !FrameComplete(b) {
      NoneYet(ps, b);
    } else {
      var p := ps[0];
      PrefixSplits(p, Frames(ps[1..]), b);
      RoundTripOfPrefix(ps[1..], b[2 + |p|..]);
      UnframeFirst(p, b);
      var (got, rest) := Unframe(b[2 + |p|..]);
      OneMore(ps, got, b[2 + |p|..], rest);
      assert b == Frame(p) + b[2 + |p|..];
    }
  }

  lemma NoneYet(ps: seq<seq<byte>>, b: seq<byte>)
    requires AllSendable(ps)
    ensures FirstOnes(ps, [], b, b)
  {
    assert ps[..0] == [];
  }

  lemma OneMore(ps: seq<seq<byte>>, got: seq<seq<byte>>, b: seq<byte>, rest: seq<byte>)
    requires AllSendable(ps) && ps != [] && FirstOnes(ps[1..], got, b, rest)
    ensures FirstOnes(ps, [ps[0]] + got, Frame(ps[0]) + b, rest)
  {
    FramesOfPrefix(ps, |got|);
    assert Frame(ps[0]) + (Frames(got) + rest) == Frame(ps[0]) + Frames(got) + rest;
  }

  lemma FramesOfPrefix(ps: seq<seq<byte>>, k: nat)
    requires AllSendable(ps) && k < |ps|
    ensures ps[..k + 1] == [ps[0]] + ps[1..][..k]
    ensures Frames(ps[..k + 1]) == Frame(ps[0]) + Frames(ps[1..][..k])
  {
    assert ps[..k + 1][1..] == ps[1..][..k];
  }

  lemma UnframeFirst(p: seq<byte>, b: seq<byte>)
    requires FrameComplete(b) && Value16(b[..2]) == |p| && b[2..2 + |p|] == p
    ensures var (got, rest) := Unframe(b[2 + |p|..]); Unframe(b) == ([p] + got, rest)
  {
  }

  lemma PrefixSplits(p: seq<byte>, later: seq<byte>, b: seq<byte>)
    requires Sendable(p) && FrameComplete(b) && b <= Frame(p) + later
    ensures Value16(b[..2]) == |p|
    ensures b[2..2 + |p|] == p && b == Frame(p) + b[2 + |p|..]
    ensures b[2 + |p|..] <= later
  {
    var whole := Frame(p) + later;
    FrameSplits(p, later);
    assert b[..2] == whole[..2];
    assert b[2..2 + |p|] == whole[2..2 + |p|];
    assert later == whole[2 + |p|..];
    assert whole[..2] == Length16(|p|);
  }

  // ---------------------------------------------------------------- system calls

  /** What one read or write does: it moves up to `n` bytes, is interrupted, or fails. A read that
      would move bytes finds none at the end of a closed stream, and then returns zero. */
  datatype Call = Moves(n: int) | Interrupted | Fails

  predicate IsSchedule(calls: seq<Call>) {
    forall k :: 0 <= k < |calls| ==> calls[k].Moves? ==> calls[k].n > 0
  }

  /** How many of the calls get something done. */
  function MoveCount(calls: seq<Call>): nat {
    if calls == [] then 0 else MoveCount(calls[..|calls| - 1]) + if calls[|calls| - 1].Moves? then 1 else 0
  }

  lemma {:induction false} MoveCountSplits(calls: seq<Call>, k: nat)
    requires k <= |calls|
    ensures MoveCount(calls) == MoveCount(calls[..k]) + MoveCount(calls[k..])
  {
    if k == |calls| {
      assert calls[..k] == calls;
    } else {
      var front := calls[..|calls| - 1];
      MoveCountSplits(front, k);
      assert front[..k] == calls[..k] && calls[k..][..|calls[k..]| - 1] == front[k..];
    }
  }

  ghost predicate NoFailure(calls: seq<Call>) {
    forall k :: 0 <= k < |calls| ==> calls[k] != Fails
  }

  lemma NoFailureSplits(calls: seq<Call>, k: nat)
    requires k <= |calls|
    ensures NoFailure(calls) <==> NoFailure(calls[..k]) && NoFailure(calls[k..])
  {
    assert forall j :: k <= j < |calls| ==> calls[j] == calls[k..][j - k];
  }

  lemma NoCallYet()
    ensures MoveCount([]) == Moved([]) == 0 && NoFailure([])
  {
  }

  lemma OneMoreCall(calls: seq<Call>, used: nat)
    requires used < |calls|
    ensures var (before, after) := (calls[..used], calls[..used + 1]);
            && MoveCount(after) == MoveCount(before) + (if calls[used].Moves? then 1 else 0)
            && Moved(after) == Moved(before) + (if calls[used].Moves? then calls[used].n else 0)
            && (Interrupted in after <==> Interrupted in before || calls[used] == Interrupted)
            && (NoFailure(after) <==> NoFailure(before) && calls[used] != Fails)
            && (calls[used] == Fails ==> !NoFailure(calls))
  {
    assert calls[..used + 1] == calls[..used] + [calls[used]];
    assert calls[..used + 1][..used] == calls[..used];
  }

  function Min(a: int, b: int): int {
    if a < b then a else b
  }

  /** How far the calls get together, if there are bytes enough. */
  function Moved(calls: seq<Call>): int {
    if calls == [] then 0 else
      Moved(calls[..|calls| - 1]) + if calls[|calls| - 1].Moves? then calls[|calls| - 1].n else 0
  }

  /** Call `k` finds a closed stream of `n` bytes used up, and `errno` is not EINTR, neither from
      before nor from an earlier call. */
  predicate SeesEnd(eintr: bool, calls: seq<Call>, n: nat, k: nat)
    requires k < |calls|
  {
    calls[k].Moves? && Moved(calls[..k]) >= n && !eintr && Interrupted !in calls[..k]
  }

  ghost predicate NoneSeesEnd(eintr: bool, calls: seq<Call>, n: nat, used: nat)
    requires used <= |calls|
  {
    forall k :: 0 <= k < used ==> !SeesEnd(eintr, calls, n, k)
  }

  /** Once `errno` is EINTR the end is never noticed; without an interruption it is noticed as soon as
      the bytes have been read and one more read is made. */
  lemma {:induction false} EndNoticed(eintr: bool, calls: seq<Call>, n: nat)
    requires IsSchedule(calls)
    ensures eintr || (calls != [] && calls[0] == Interrupted) ==> NoneSeesEnd(eintr, calls, n, |calls|)
    ensures !eintr && Interrupted !in calls && MoveCount(calls) > n ==> !NoneSeesEnd(eintr, calls, n, |calls|)
  {
    if calls != [] {
      var last := |calls| - 1;
      var front := calls[..last];
      MovedAtLeast(front);
      EndNoticed(eintr, front, n);
      assert forall k :: 0 <= k < last ==> front[..k] == calls[..k];
      if !eintr && Interrupted !in calls && MoveCount(front) > n {
        var k :| 0 <= k < last && SeesEnd(eintr, front, n, k);
        assert SeesEnd(eintr, calls, n, k);
      } else if !eintr && Interrupted !in calls && MoveCount(calls) > n {
        assert SeesEnd(eintr, calls, n, last);
      }
    }
  }

  lemma {:induction false} MovedAtLeast(calls: seq<Call>)
    requires IsSchedule(calls)
    ensures Moved(calls) >= MoveCount(calls)
  {
    if calls != [] {
      MovedAtLeast(calls[..|calls| - 1]);
    }
  }

  /** How an operation over system calls ends: with a result, with an error, or not before the
      schedule is used up. */
  datatype Outcome<T> = Complete(result: T) | Error | Waiting

  /** One direction of a connection: the bytes written and not yet read, and whether the writing
      end has been closed. */
  class Stream {
    var bytes: seq<byte>
    var closed: bool

    constructor ()
      ensures bytes == [] && !closed
    {
      bytes, closed := [], false;
    }
  }

  /** Writes `buf[..len]`; what has been written when the loop ends is always a prefix of it. */
  method WriteAll(sock: Stream, buf: array<byte>, len: nat, calls: seq<Call>) returns (r: Outcome<nat>, used: nat)
    requires len <= buf.Length && IsSchedule(calls)
    modifies sock`bytes
    ensures used <= |calls| && MoveCount(calls[..used]) <= len
    ensures r.Complete? ==> r.result == len && sock.bytes == old(sock.bytes) + buf[..len]
    ensures r.Error? ==> used > 0 && calls[used - 1] == Fails && !NoFailure(calls)
    ensures r.Waiting? ==> used == |calls| && NoFailure(calls)
    ensures r.Complete? ==> NoFailure(calls[..used])
    ensures !r.Complete? ==>
      exists k :: 0 <= k < len && sock.bytes == old(sock.bytes) + buf[..k]
    ensures NoFailure(calls) && MoveCount(calls) >= len ==> r.Complete?
  {
    NoCallYet();
    hide MoveCount, Moved, NoFailure;
    var total := 0;
    used := 0;
    assert buf[..0] == [];
    while total < len
      invariant 0 <= total <= len && used <= |calls|
      invariant sock.bytes == old(sock.bytes) + buf[..total]
      invariant MoveCount(calls[..used]) <= total && NoFailure(calls[..used])
      decreases |calls| - used
    {
      if used == |calls| {
        assert calls[..used] == calls;
        return Waiting, used;
      }
      var call := calls[used];
      OneMoreCall(calls, used);
      used := used + 1;
      match call
      case Interrupted =>
      case Fails =>
        return Error, used;
      case Moves(m) =>
        var n := Min(m, len - total);
        sock.bytes := sock.bytes + buf[total..total + n];
        assert buf[..total] + buf[total..total + n] == buf[..total + n];
        total := total + n;
    }
    return Complete(total), used;
  }

  /** One read that moves bytes. */
  method TakeBytes(sock: Stream, buf: array<byte>, at: nat, n: nat)
    requires n <= |sock.bytes| && at + n <= buf.Length
    modifies sock`bytes, buf
    ensures sock.bytes == old(sock.bytes)[n..]
    ensures buf[..at + n] == old(buf[..at]) + old(sock.bytes)[..n]
  {
    forall j | 0 <= j < n {
      buf[at + j] := sock.bytes[j];
    }
    sock.bytes := sock.bytes[n..];
  }

  /** Reads `len` bytes into the buffer. A read moves at most the bytes that are there; when there
      are none it waits, or returns zero if the stream is closed. Zero leaves `errno` as it was, and
      the loop ends only if that is not EINTR: it ends by itself exactly if no call was interrupted
      before the first one that saw the end, and goes on for ever otherwise. */
  method ReadAll(sock: Stream, buf: array<byte>, len: nat, eintr: bool, calls: seq<Call>)
    returns (r: Outcome<nat>, used: nat, errno: bool)
    requires len <= buf.Length && IsSchedule(calls)
    modifies sock`bytes, buf
    ensures used <= |calls|
    ensures r.Complete? ==>
      && r.result == len <= |old(sock.bytes)| && MoveCount(calls[..used]) <= len
      && buf[..len] == old(sock.bytes)[..len] && sock.bytes == old(sock.bytes)[len..]
    ensures !r.Complete? ==>
      exists k :: 0 <= k < len && k <= |old(sock.bytes)| && sock.bytes == old(sock.bytes)[k..]
    ensures NoFailure(calls) && MoveCount(calls) >= len && |old(sock.bytes)| >= len ==> r.Complete?
    ensures r.Error? ==>
      used > 0 && ((calls[used - 1] == Fails && !NoFailure(calls)) || (sock.closed && sock.bytes == []))
    ensures r.Waiting? ==> (used == |calls| && NoFailure(calls)) || (!sock.closed && sock.bytes == [])
    ensures r.Complete? ==> NoFailure(calls[..used])
    ensures sock.closed && NoFailure(calls) && |old(sock.bytes)| < len ==>
      if NoneSeesEnd(eintr, calls, |old(sock.bytes)|, |calls|) then r.Waiting? && used == |calls| else r.Error?
  {
    NoCallYet();
    hide MoveCount, Moved, NoFailure;
    var total := 0;
    used, errno := 0, eintr;
    ghost var was := sock.bytes;
    while total < len
      invariant 0 <= total <= len && total <= |was| && used <= |calls| && NoFailure(calls[..used])
      invariant buf[..total] == was[..total] && sock.bytes == was[total..]
      invariant MoveCount(calls[..used]) <= total || total == |was| < len
      invariant |was| < len ==> total == Min(Moved(calls[..used]), |was|)
      invariant errno <==> eintr || Interrupted in calls[..used]
      invariant sock.closed && |was| < len ==> NoneSeesEnd(eintr, calls, |was|, used)
      decreases |calls| - used
    {
      if used == |calls| {
        assert calls[..used] == calls;
        return Waiting, used, errno;
      }
      var call := calls[used];
      OneMoreCall(calls, used);
      match call
      case Interrupted =>
        used, errno := used + 1, true;
      case Fails =>
        return Error, used + 1, false;
      case Moves(m) =>
        if |sock.bytes| == 0 {
          if !sock.closed {
            return Waiting, used, errno;
          }
          if !errno {
            assert SeesEnd(eintr, calls, |was|, used);
            return Error, used + 1, errno;
          }
          used := used + 1;
        } else {
          var n := Min(m, Min(len - total, |sock.bytes|));
          used := used + 1;
          TakeBytes(sock, buf, total, n);
          total := total + n;
        }
    }
    return Complete(total), used, errno;
  }

  // ---------------------------------------------------------------- messages

  /** Sends one packed message. Sizes that the length field cannot hold, and zero, are refused
      before anything is written. */
  method NetworkSend(sock: Stream, payload: array<byte>, calls: seq<Call>) returns (r: Outcome<int>)
    requires IsSchedule(calls)
    modifies sock`bytes
    ensures r.Complete? ==>
      && r.result == 0 && Sendable(payload[..])
      && sock.bytes == old(sock.bytes) + Frame(payload[..])
    ensures Sendable(payload[..]) && NoFailure(calls) && MoveCount(calls) >= payload.Length + 2 ==> r.Complete?
    ensures !Sendable(payload[..]) ==> r.Error? && sock.bytes == old(sock.bytes)
    ensures Sendable(payload[..]) <==> 0 < payload.Length <= 65535
    ensures r.Waiting? ==> NoFailure(calls)
    ensures r.Error? ==> !Sendable(payload[..]) || !NoFailure(calls)
    ensures !r.Complete? && Sendable(payload[..]) ==>
      exists k :: 0 <= k < |Frame(payload[..])| && sock.bytes == old(sock.bytes) + Frame(payload[..])[..k]
  {
    var len := payload.Length;
    if len == 0 || len > MAX_PAYLOAD {
      return Error;
    }
    hide NoFailure, MoveCount;
    ghost var frame := Frame(payload[..]);
    var prefix := new byte[2];
    prefix[0], prefix[1] := (len / 256) as byte, (len % 256) as byte;
    assert prefix[..2] == Length16(len) && payload[..len] == payload[..];
    var written, used := WriteAll(sock, prefix, 2, calls);
    if written != Complete(2) {
      assert forall k :: 0 <= k < 2 ==> frame[..k] == prefix[..k];
      return if written.Waiting? then Waiting else Error;
    }
    assert sock.bytes == old(sock.bytes) + prefix[..2];
    MoveCountSplits(calls, used);
    NoFailureSplits(calls, used);
    written, used := WriteAll(sock, payload, len, calls[used..]);
    if written != Complete(len) {
      assert forall k :: 0 <= k < len ==> frame[..2 + k] == prefix[..2] + payload[..k];
      return if written.Waiting? then Waiting else Error;
    }
    return Complete(0);
  }

  /** Receives one packed message. */
  method NetworkReceive(sock: Stream, eintr: bool, calls: seq<Call>) returns (r: Outcome<array<byte>>)
    requires IsSchedule(calls)
    modifies sock`bytes
    ensures r.Complete? ==>
      && fresh(r.result) && Sendable(r.result[..])
      && Frame(r.result[..]) + sock.bytes == old(sock.bytes)
    ensures FrameComplete(old(sock.bytes)) && NoFailure(calls) ==>
      MoveCount(calls) >= 2 + Value16(old(sock.bytes)[..2]) ==> r.Complete?
    ensures !r.Complete? ==>
      exists k :: 0 <= k <= |old(sock.bytes)| && sock.bytes == old(sock.bytes)[k..]
                  && (FrameComplete(old(sock.bytes)) ==> k < 2 + Value16(old(sock.bytes)[..2]))
    ensures |old(sock.bytes)| >= 2 && old(sock.bytes)[0] as int == old(sock.bytes)[1] as int == 0 ==>
      NoFailure(calls) && MoveCount(calls) >= 2 ==> r.Error? && sock.bytes == old(sock.bytes)[2..]
    ensures r.Waiting? ==> NoFailure(calls) || (!sock.closed && sock.bytes == [])
    ensures r.Error? ==>
      || !NoFailure(calls) || (sock.closed && sock.bytes == [])
      || (|old(sock.bytes)| >= 2 && old(sock.bytes)[0] as int == old(sock.bytes)[1] as int == 0)
    ensures sock.closed && NoFailure(calls) && |old(sock.bytes)| < 2 ==>
      if NoneSeesEnd(eintr, calls, |old(sock.bytes)|, |calls|) then r.Waiting? else r.Error?
  {
    hide NoFailure, MoveCount, NoneSeesEnd;
    ghost var was := sock.bytes;
    var prefix := new byte[2];
    var read, used, errno := ReadAll(sock, prefix, 2, eintr, calls);
    if read != Complete(2) {
      return if read.Waiting? then Waiting else Error;
    }
    var len := prefix[0] as int * 256 + prefix[1] as int;
    assert was[..2] == prefix[..2];
    if len == 0 {
      return Error;
    }
    var buffer := new byte[len];
    MoveCountSplits(calls, used);
    NoFailureSplits(calls, used);
    read, used, errno := ReadAll(sock, buffer, len, errno, calls[used..]);
    if read != Complete(len) {
      assert forall k :: 0 <= k <= |was| - 2 ==> was[2..][k..] == was[2 + k..];
      return if read.Waiting? then Waiting else Error;
    }
    assert was[..2] == Length16(len);
    assert was[2..][..len] == was[2..2 + len] && was[2..][len..] == was[2 + len..];
    assert buffer[..] == buffer[..len];
    return Complete(buffer);
  }

  // ---------------------------------------------------------------- connections

  function Contents(payloads: seq<array<byte>>): (ps: seq<seq<byte>>)
    reads payloads
    ensures |ps| == |payloads|
  {
    seq(|payloads|, k requires 0 <= k < |payloads| reads payloads => payloads[k][..])
  }

  ghost predicate AreSchedules(schedules: seq<seq<Call>>) {
    forall k :: 0 <= k < |schedules| ==> IsSchedule(schedules[k])
  }

  /** No call fails, and each message gets enough calls that do something. */
  ghost predicate Enough(schedules: seq<seq<Call>>, ps: seq<seq<byte>>) {
    forall k :: 0 <= k < |schedules| && k < |ps| ==>
      NoFailure(schedules[k]) && MoveCount(schedules[k]) >= 2 + |ps[k]|
  }

  /** The bytes are these frames and then the rest. */
  ghost predicate Carries(b: seq<byte>, ps: seq<seq<byte>>, rest: seq<byte>) {
    AllSendable(ps) && b == Frames(ps) + rest
  }

  /** The messages that one end sends on a connection, up to the first failure, which leaves a proper
      part of a frame at most. */
  method SendMessages(sock: Stream, payloads: seq<array<byte>>, schedules: seq<seq<Call>>)
    returns (sent: nat, ghost cut: seq<byte>)
    requires |schedules| == |payloads| && AreSchedules(schedules)
    modifies sock`bytes
    ensures sent <= |payloads|
    ensures AllSendable(Contents(payloads)[..sent])
    ensures sock.bytes == old(sock.bytes) + (Frames(Contents(payloads)[..sent]) + cut)
    ensures if sent == |payloads| || !Sendable(Contents(payloads)[sent]) then cut == []
            else cut <= Frame(Contents(payloads)[sent]) && cut != Frame(Contents(payloads)[sent])
    ensures AllSendable(Contents(payloads)) && Enough(schedules, Contents(payloads)) ==> sent == |payloads|
    ensures AllSendable(Contents(payloads)) ==>
      Frames(Contents(payloads)[..sent]) + cut <= Frames(Contents(payloads))
  {
    hide Frame, Frames, NoFailure;
    FramesNil();
    ghost var ps := Contents(payloads);
    sent, cut := 0, [];
    while sent < |payloads|
      invariant sent <= |payloads| && AllSendable(ps[..sent])
      invariant sock.bytes == old(sock.bytes) + Frames(ps[..sent])
    {
      ghost var before := sock.bytes;
      var r := NetworkSend(sock, payloads[sent], schedules[sent]);
      if !r.Complete? {
        if Sendable(ps[sent]) {
          ghost var k :| 0 <= k < |Frame(ps[sent])| && sock.bytes == before + Frame(ps[sent])[..k];
          cut := Frame(ps[sent])[..k];
        }
        break;
      }
      FramesSnoc(ps[..sent], ps[sent]);
      assert ps[..sent + 1] == ps[..sent] + [ps[sent]];
      sent := sent + 1;
    }
    assert Frames(ps[..sent]) + [] == Frames(ps[..sent]);
    if AllSendable(ps) {
      SentIsPrefix(ps, sent, cut);
    }
  }

  lemma FirstFrame(ps: seq<seq<byte>>)
    requires AllSendable(ps) && ps != []
    ensures Frame(ps[0]) <= Frames(ps)
  {
  }

  lemma PrefixBehind(a: seq<byte>, b: seq<byte>, c: seq<byte>)
    requires b <= c
    ensures a + b <= a + c
  {
    assert c == b + c[|b|..];
    assert a + c == a + b + c[|b|..];
  }

  lemma SentIsPrefix(ps: seq<seq<byte>>, sent: nat, cut: seq<byte>)
    requires AllSendable(ps) && sent <= |ps|
    requires if sent == |ps| then cut == [] else cut <= Frame(ps[sent])
    ensures Frames(ps[..sent]) + cut <= Frames(ps)
  {
    hide Frame, Frames, Sendable;
    FramesConcat(ps[..sent], ps[sent..]);
    assert ps == ps[..sent] + ps[sent..];
    if sent < |ps| {
      FirstFrame(ps[sent..]);
    } else {
      FramesNil();
    }
    PrefixBehind(Frames(ps[..sent]), cut, Frames(ps[sent..]));
  }

  /** Taking the first frame leaves the others to be parsed. */
  lemma FirstReceived(b: seq<byte>, got: seq<seq<byte>>, rest: seq<byte>)
    requires Carries(b, got, rest)
    ensures got <= Unframe(b).0
    ensures Unframe(b).0[|got|..] == Unframe(rest).0
    ensures |got| < |Unframe(b).0| ==> Unframe(b).0[|got|] == Unframe(rest).0[0]
  {
    RoundTrip(got, rest);
  }

  lemma NextFrame(b: seq<byte>)
    requires Unframe(b).0 != []
    ensures FrameComplete(b) && |Unframe(b).0[0]| == Value16(b[..2])
  {
  }

  /** The receiver has not stopped before a message for which it had calls enough. */
  ghost predicate StoppedLate(got: seq<seq<byte>>, left: seq<byte>, schedules: seq<seq<Call>>)
    requires |got| <= |schedules|
  {
    |got| < |schedules| && NoFailure(schedules[|got|]) ==>
      FrameComplete(left) ==>
        MoveCount(schedules[|got|]) < 2 + Value16(left[..2])
  }

  lemma ReceivedEnough(b: seq<byte>, got: seq<seq<byte>>, left: seq<byte>, schedules: seq<seq<Call>>)
    requires Carries(b, got, left) && |got| <= |schedules| && StoppedLate(got, left, schedules)
    requires Enough(schedules, Unframe(b).0)
    ensures |got| == Min(|schedules|, |Unframe(b).0|)
  {
    FirstReceived(b, got, left);
    if |got| < |Unframe(b).0| {
      NextFrame(left);
    }
  }

  lemma ReceivedSent(b: seq<byte>, got: seq<seq<byte>>, left: seq<byte>, schedules: seq<seq<Call>>,
                     ps: seq<seq<byte>>, rest: seq<byte>)
    requires Carries(b, got, left) && |got| <= |schedules| && StoppedLate(got, left, schedules)
    requires Carries(b, ps, rest) && |ps| == |schedules|
    ensures got <= ps
    ensures Enough(schedules, ps) ==> got == ps && left == rest
  {
    hide StoppedLate, Unframe, Frames, NoFailure;
    FirstReceived(b, got, left);
    FirstReceived(b, ps, rest);
    assert forall k :: 0 <= k < |ps| ==> Unframe(b).0[k] == ps[k];
    assert got == Unframe(b).0[..|got|] == ps[..|got|];
    if Enough(schedules, ps) {
      ReceivedEnough(b, got, left, schedules);
      assert got == ps;
      assert left == b[|Frames(ps)|..] == rest;
    }
  }

  lemma ReceivedAll(b: seq<byte>, got: seq<seq<byte>>, left: seq<byte>, schedules: seq<seq<Call>>)
    requires Carries(b, got, left) && |got| <= |schedules| && StoppedLate(got, left, schedules)
    ensures forall ps, rest :: Carries(b, ps, rest) && |ps| == |schedules| ==>
      got <= ps && (Enough(schedules, ps) ==> got == ps && left == rest)
    ensures forall ps :: AllSendable(ps) && b <= Frames(ps) ==> got <= ps
    ensures got <= Unframe(b).0
    ensures |got| < |Unframe(b).0| ==> FrameComplete(left) && |Unframe(b).0[|got|]| == Value16(left[..2])
    ensures Enough(schedules, Unframe(b).0) ==> |got| == Min(|schedules|, |Unframe(b).0|)
  {
    hide StoppedLate, Unframe, Frames, Enough, FrameComplete, Value16;
    FirstReceived(b, got, left);
    if |got| < |Unframe(b).0| {
      NextFrame(left);
    }
    if Enough(schedules, Unframe(b).0) {
      ReceivedEnough(b, got, left, schedules);
    }
    forall ps, rest | Carries(b, ps, rest) && |ps| == |schedules|
      ensures got <= ps && (Enough(schedules, ps) ==> got == ps && left == rest)
    {
      ReceivedSent(b, got, left, schedules, ps, rest);
    }
    forall ps | AllSendable(ps) && b <= Frames(ps) ensures got <= ps {
      RoundTripOfPrefix(ps, b);
    }
  }

  /** The messages that one end receives on a connection, one call of the operation after another up to
      the first that fails; `eintrs` tells what `errno` is before each. */
  method ReceiveMessages(sock: Stream, eintrs: seq<bool>, schedules: seq<seq<Call>>)
    returns (got: seq<seq<byte>>, ghost lost: seq<byte>)
    requires |eintrs| == |schedules| && AreSchedules(schedules)
    modifies sock`bytes
    ensures |got| <= |schedules| && AllSendable(got)
    ensures old(sock.bytes) == Frames(got) + (lost + sock.bytes)
    ensures |got| == |schedules| ==> lost == []
    ensures |got| < |Unframe(old(sock.bytes)).0| ==> |lost| < 2 + |Unframe(old(sock.bytes)).0[|got|]|
    ensures got <= Unframe(old(sock.bytes)).0
    ensures Enough(schedules, Unframe(old(sock.bytes)).0) ==>
      |got| == Min(|schedules|, |Unframe(old(sock.bytes)).0|)
    ensures forall ps, rest :: Carries(old(sock.bytes), ps, rest) && |ps| == |schedules| ==>
      got <= ps && (Enough(schedules, ps) ==> got == ps && sock.bytes == rest)
    ensures forall ps :: AllSendable(ps) && old(sock.bytes) <= Frames(ps) ==> got <= ps
  {
    hide Frame, Frames, Unframe, NoFailure, FrameComplete, Enough;
    FramesNil();
    ghost var was := sock.bytes;
    got, lost := [], [];
    while |got| < |schedules|
      invariant |got| <= |schedules| && AllSendable(got)
      invariant was == Frames(got) + sock.bytes
      decreases |schedules| - |got|
    {
      ghost var before := sock.bytes;
      var r := NetworkReceive(sock, eintrs[|got|], schedules[|got|]);
      if !r.Complete? {
        ghost var k :| 0 <= k <= |before| && sock.bytes == before[k..];
        lost := before[..k];
        assert lost + sock.bytes == before;
        break;
      }
      var p := r.result[..];
      FramesSnoc(got, p);
      assert Frames(got) + (Frame(p) + sock.bytes) == Frames(got) + Frame(p) + sock.bytes;
      got := got + [p];
    }
    assert Carries(was, got, lost + sock.bytes);
    assert |got| == |schedules| ==> lost + sock.bytes == sock.bytes;
    ReceivedAll(was, got, lost + sock.bytes, schedules);
  }
}

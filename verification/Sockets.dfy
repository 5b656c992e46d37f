// The loops of proxy-lab2/proxylab2-handout/proxy.c that read or write a nonblocking
// socket until it moves nothing more: how far they get, why they stop, and that they
// can be resumed.
module Sockets {
  import opened Kernel

  // Why a loop stops: a call returned 0, because there is no more room or nothing more
  // to move; or it was refused.
  datatype Stop = Complete | Refused(errno: Errno)

  // write of a positive count never returns 0
  predicate NoIdle(script: seq<Outcome>) { forall o :: o in script ==> !o.Idle? }

  function RefusalOf(o: Outcome): Errno
    requires !o.Move?
  {
    if o.Idle? then EIO else Code(o)
  }

  // How many bytes a loop moves, with room for `room` and `available` to be had.
  function Amount(script: seq<Outcome>, room: nat, available: nat): (m: nat)
    ensures m <= room && m <= available
  {
    if script == [] || !script[0].Move? then 0
    else
      var m := Moved(script[0].k, room, available);
      if m == 0 then 0 else m + Amount(script[1..], room - m, available - m)
  }

  function Halt(script: seq<Outcome>, room: nat, available: nat): Stop {
    if script == [] then Refused(EAGAIN)
    else if !script[0].Move? then Refused(RefusalOf(script[0]))
    else
      var m := Moved(script[0].k, room, available);
      if m == 0 then Complete else Halt(script[1..], room - m, available - m)
  }

  // What is left of the script then.
  function Left(script: seq<Outcome>, room: nat, available: nat): seq<Outcome> {
    if script == [] then []
    else if !script[0].Move? then script[1..]
    else
      var m := Moved(script[0].k, room, available);
      if m == 0 then script[1..] else Left(script[1..], room - m, available - m)
  }

  // A loop that is complete has moved all there was, or all there was room for.
  lemma {:induction false} CompleteMovesAll(script: seq<Outcome>, room: nat, available: nat)
    requires Halt(script, room, available).Complete?
    ensures Amount(script, room, available) == Min(room, available)
    decreases |script|
  {
    var m := Moved(script[0].k, room, available);
    if m > 0 { CompleteMovesAll(script[1..], room - m, available - m); }
  }

  // What a socket takes before it first refuses.
  function Capacity(script: seq<Outcome>): nat {
    if script == [] || !script[0].Move? then 0
    else (if script[0].k == 0 then 1 else script[0].k) + Capacity(script[1..])
  }

  lemma {:induction false} AmountIsMin(script: seq<Outcome>, room: nat, available: nat)
    ensures Amount(script, room, available) == Min(Capacity(script), Min(room, available))
    decreases |script|
  {
    if script != [] && script[0].Move? {
      var m := Moved(script[0].k, room, available);
      if m > 0 { AmountIsMin(script[1..], room - m, available - m); }
    }
  }

  // A loop is complete exactly if such calls move all there is, or all there is room
  // for, and there is one more of them; if not, the first call that refuses stops it.
  lemma {:induction false} CompleteIff(script: seq<Outcome>, room: nat, available: nat)
    ensures var moving := Leading(script);
      Halt(script, room, available).Complete?
      <==> moving != [] && Capacity(moving[..|moving| - 1]) >= Min(room, available)
    ensures Halt(script, room, available).Complete? || Halt(script, room, available) ==
      Refused(if |Leading(script)| == |script| then EAGAIN else RefusalOf(script[|Leading(script)|]))
    decreases |script|
  {
    if script != [] && script[0].Move? {
      var m := Moved(script[0].k, room, available);
      var moving, more := Leading(script), Leading(script[1..]);
      assert moving[1..] == more;
      if m > 0 {
        CompleteIff(script[1..], room - m, available - m);
        if more != [] { assert moving[..|moving| - 1][1..] == more[..|more| - 1]; }
      }
    }
  }

  // ---- Resuming -----------------------------------------------------------------

  // A script without the calls that would block, and the number of those.
  function Unblocked(script: seq<Outcome>): seq<Outcome> { Without(script, {Refuse(EAGAIN)}) }

  function Waits(script: seq<Outcome>): nat {
    if script == [] then 0 else (if script[0] == Refuse(EAGAIN) then 1 else 0) + Waits(script[1..])
  }

  // Enough calls come to move everything, however often the loop is stopped by one that
  // would block.
  predicate Enough(script: seq<Outcome>, room: nat, available: nat) {
    Halt(Unblocked(script), room, available).Complete?
  }

  // The calls at the front move so much, and there is one more of them: a condition on
  // the script alone under which they are enough.
  predicate Supplies(script: seq<Outcome>, n: nat) {
    var moving := Leading(Unblocked(script));
    moving != [] && Capacity(moving[..|moving| - 1]) >= n
  }

  lemma SuppliesIff(script: seq<Outcome>, room: nat, available: nat)
    ensures Enough(script, room, available) <==> Supplies(script, Min(room, available))
  {
    CompleteIff(Unblocked(script), room, available);
  }

  lemma {:induction false} NeverWaits(script: seq<Outcome>)
    ensures Waits(script) == 0 <==> Refuse(EAGAIN) !in script
  {
    if script != [] { NeverWaits(script[1..]); }
  }

  // Then a loop completes; or it would have blocked, and enough calls are left for the
  // rest, with fewer interruptions to come.
  lemma {:induction false} Resume(script: seq<Outcome>, room: nat, available: nat)
    requires Enough(script, room, available)
    ensures var m := Amount(script, room, available); var left := Left(script, room, available);
      Halt(script, room, available) == Complete
      || (Halt(script, room, available) == Refused(EAGAIN) && Enough(left, room - m, available - m)
          && Waits(left) < Waits(script))
    decreases |script|
  {
    if script != [] {
      WithoutFirst(script, {Refuse(EAGAIN)});
      if script[0].Move? {
        var m := Moved(script[0].k, room, available);
        if m > 0 { Resume(script[1..], room - m, available - m); }
      }
    }
  }

  // ---- The loops ----------------------------------------------------------------

  lemma Continue(all: seq<Byte>, from: nat, at: nat, m: nat)
    requires from <= at && at + m <= |all|
    ensures all[from..at] + all[at..at + m] == all[from..at + m]
  {
  }

  // One call of a loop.
  lemma OneCall(script: seq<Outcome>, room: nat, available: nat)
    ensures NoIdle(script) ==> NoIdle(Rest(script)) && (script != [] ==> !script[0].Idle?)
    ensures script == [] || !script[0].Move? ==>
      Amount(script, room, available) == 0 && Left(script, room, available) == Rest(script)
    ensures script == [] ==> Halt(script, room, available) == Refused(EAGAIN)
    ensures script != [] && !script[0].Move? ==> Halt(script, room, available) == Refused(RefusalOf(script[0]))
    ensures script != [] && script[0].Move? && Moved(script[0].k, room, available) == 0 ==>
      && Amount(script, room, available) == 0 && Left(script, room, available) == Rest(script)
      && Halt(script, room, available) == Complete
    ensures script != [] && script[0].Move? && Moved(script[0].k, room, available) > 0 ==>
      var m := Moved(script[0].k, room, available);
      && Amount(script, room, available) == m + Amount(Rest(script), room - m, available - m)
      && Left(script, room, available) == Left(Rest(script), room - m, available - m)
      && Halt(script, room, available) == Halt(Rest(script), room - m, available - m)
  {
    if NoIdle(script) {
      forall o | o in Rest(script) ensures o in script {
      }
    }
  }

  // Between two calls: what the loop will have done is what it has done and what is
  // still to come, or it has stopped.
  ghost predicate Underway(script: seq<Outcome>, room: nat, available: nat, moved: nat, rest: seq<Outcome>, rc: int,
                           errno: Errno) {
    moved <= room && moved <= available &&
    if rc > 0 then
      && Amount(script, room, available) == moved + Amount(rest, room - moved, available - moved)
      && Halt(script, room, available) == Halt(rest, room - moved, available - moved)
      && Left(script, room, available) == Left(rest, room - moved, available - moved)
    else
      && Amount(script, room, available) == moved && Left(script, room, available) == rest
      && Halt(script, room, available) == if rc == 0 then Complete else Refused(errno)
  }

  // The write loop of send_request and send_response: from `from` up to `to`, until a
  // write returns 0 or fails.
  method WriteLoop(fd: Sink, buf: array<Byte>, from: nat, to: nat) returns (at: nat, rc: int, errno: Errno)
    requires from <= to <= buf.Length && fd.nonblocking && NoIdle(fd.script)
    modifies fd
    ensures at == from + Amount(old(fd.script), to - from, to - from)
    ensures fd.received == old(fd.received) + buf[from..at]
    ensures rc <= 0 && Halt(old(fd.script), to - from, to - from) == if rc == 0 then Complete else Refused(errno)
    ensures fd.script == Left(old(fd.script), to - from, to - from) && NoIdle(fd.script)
  {
    hide Amount, Halt, Left, NoIdle;
    at, rc, errno := from, 1, EOK;
    ghost var script, n := fd.script, to - from;
    while rc > 0
      invariant from <= at <= to
      invariant fd.received == old(fd.received) + buf[from..at] && NoIdle(fd.script)
      invariant Underway(script, n, n, at - from, fd.script, rc, errno)
      decreases rc > 0, |fd.script|
    {
      ghost var m;
      OneCall(fd.script, to - at, to - at);
      rc, errno, m := fd.Write(buf, at, to - at);
      Continue(buf[..], from, at, m);
      if rc > 0 { at := at + rc; }
    }
  }

  // The read loop of read_response: from `from` up to the end of the buffer.
  method ReadLoop(fd: Source, buf: array<Byte>, from: nat) returns (at: nat, rc: int, errno: Errno)
    requires from <= buf.Length && fd.nonblocking
    modifies fd, buf
    ensures at == from + Amount(old(fd.script), buf.Length - from, |old(fd.incoming)|)
    ensures buf[..at] == old(buf[..from]) + old(fd.incoming)[..at - from]
    ensures fd.incoming == old(fd.incoming)[at - from..]
    ensures rc <= 0
    ensures Halt(old(fd.script), buf.Length - from, |old(fd.incoming)|) == if rc == 0 then Complete else Refused(errno)
    ensures fd.script == Left(old(fd.script), buf.Length - from, |old(fd.incoming)|)
  {
    hide Amount, Halt, Left;
    at, rc, errno := from, 1, EOK;
    ghost var script, stream, had := fd.script, fd.incoming, buf[..from];
    while rc > 0
      invariant from <= at <= buf.Length && at - from <= |stream|
      invariant buf[..at] == had + stream[..at - from] && fd.incoming == stream[at - from..]
      invariant Underway(script, buf.Length - from, |stream|, at - from, fd.script, rc, errno)
      decreases rc > 0, |fd.script|
    {
      ghost var m;
      OneCall(fd.script, buf.Length - at, |fd.incoming|);
      rc, errno, m := fd.Read(buf, at, buf.Length - at);
      TakeMore(stream, at - from, m);
      if rc > 0 { at := at + rc; }
    }
  }
}

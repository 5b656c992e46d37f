// hw6-concurrency/echo.c: read a line, write it back, until end of file; and an
// arbitrary client of one rio_t.
module Echo {
  import opened Kernel
  import opened Retries
  import opened Rio

  lemma NextLine(s: seq<Byte>, cap: nat, line: seq<Byte>, rest: seq<Byte>)
    requires cap > 0 && s == line + rest && |line| == LineLen(s, cap)
    ensures line == [] <==> s == []
    ensures s != [] ==> Lines(s, cap) == [line] + Lines(rest, cap)
  {
    LineLenIsLeastEnd(s, cap);
    assert s[..|line|] == line && s[|line|..] == rest;
  }

  lemma LinesEnd(cap: nat)
    requires cap > 0
    ensures Lines([], cap) == []
  {
  }

  // No read or write still to come does worse than be interrupted.
  ghost predicate Calm(a: Source, b: Sink)
    reads a, b
  {
    Benign(a.script) && Benign(b.script) && !a.nonblocking && !b.nonblocking
  }

  // Between two turns of echo: `stream` is what the client sends, of which `done`
  // has been written back as `lines` and `rest` is still to come.  After an error,
  // turn == -1, only part of the last line may have been written back.
  ghost predicate Midway(stream: seq<Byte>, before: seq<Byte>, received: seq<Byte>, done: seq<Byte>, rest: seq<Byte>,
                         lines: seq<seq<Byte>>, turn: int) {
    && before <= received <= before + stream
    && (turn != -1 ==> stream == done + rest && received == before + done)
    && (turn != -1 ==> Lines(stream, MAXLINE - 1) == lines + Lines(rest, MAXLINE - 1))
    && (turn == 0 ==> rest == [])
  }

  lemma MidwayStart(stream: seq<Byte>, received: seq<Byte>)
    ensures Midway(stream, received, received, [], stream, [], 1)
  {
    assert [] + stream == stream && received + [] == received;
    assert [] + Lines(stream, MAXLINE - 1) == Lines(stream, MAXLINE - 1);
  }

  // Concatenations regrouped after a turn that read `line` and sent some of it.
  lemma EchoSent(before: seq<Byte>, done: seq<Byte>, rest: seq<Byte>, line: seq<Byte>, sent: nat, rest': seq<Byte>)
    requires rest == line + rest' && sent <= |line|
    ensures before <= before + done + line[..sent] <= before + (done + rest)
    ensures done + rest == (done + line) + rest'
    ensures sent == |line| ==> before + done + line[..sent] == before + (done + line)
  {
    assert before + (done + rest) == (before + done + line[..sent]) + (line[sent..] + rest');
    assert sent == |line| ==> line[..sent] == line;
  }

  lemma MidwayNext(stream: seq<Byte>, before: seq<Byte>, received: seq<Byte>, done: seq<Byte>, rest: seq<Byte>,
                   lines: seq<seq<Byte>>, line: seq<Byte>, sent: nat, rest': seq<Byte>, turn: int)
    requires Midway(stream, before, received, done, rest, lines, 1)
    requires rest == line + rest' && sent <= |line| && turn in {-1, 0, 1}
    requires turn == 1 ==> |line| == sent == LineLen(rest, MAXLINE - 1) > 0
    requires turn == 0 ==> rest == line == []
    ensures if turn == 1 then Midway(stream, before, received + line[..sent], done + line, rest', lines + [line], turn)
      else Midway(stream, before, received + line[..sent], done, rest', lines, turn)
  {
    EchoSent(before, done, rest, line, sent, rest');
    if turn == 1 {
      NextLine(rest, MAXLINE - 1, line, rest');
      hide Lines, LineLen;
      assert lines + ([line] + Lines(rest', MAXLINE - 1)) == (lines + [line]) + Lines(rest', MAXLINE - 1);
    }
  }

  lemma MidwayEnd(stream: seq<Byte>, before: seq<Byte>, received: seq<Byte>, done: seq<Byte>, rest: seq<Byte>,
                  lines: seq<seq<Byte>>, turn: int)
    requires Midway(stream, before, received, done, rest, lines, turn)
    ensures before <= received <= before + stream
    ensures turn == 0 ==> rest == [] && received == before + stream && lines == Lines(stream, MAXLINE - 1)
  {
    LinesEnd(MAXLINE - 1);
    assert done + [] == done && lines + [] == lines;
  }

  // One turn of the loop.  The wrappers Rio_readlineb and Rio_writen end the
  // process on an error, which is turn == -1 here; 0 is end of file.
  method EchoLine(rio: Buffered, connfd: Sink, buf: array<Byte>)
    returns (turn: int, ghost line: seq<Byte>, ghost sent: nat)
    requires rio.Valid() && buf != rio.buf && buf.Length == MAXLINE
    modifies rio, rio.buf, rio.fd, connfd, buf
    ensures rio.Valid() && turn in {-1, 0, 1}
    ensures old(rio.Stream()) == line + rio.Stream()
    ensures sent <= |line| && connfd.received == old(connfd.received) + line[..sent]
    ensures turn == 1 ==> |line| == sent == LineLen(old(rio.Stream()), MAXLINE - 1) > 0
    ensures turn == 0 ==> old(rio.Stream()) == line == []
    ensures var n := LineLen(old(rio.Stream()), MAXLINE - 1);
      turn == -1
      <==> Breaks(old(rio.Supply()), old(rio.Stream()), MAXLINE - 1) || Writing(old(connfd.script), connfd.nonblocking, n).failed
    ensures old(Calm(rio.fd, connfd)) ==> turn >= 0 && Calm(rio.fd, connfd)
  {
    hide Breaks, Writing, Lines;
    var n;
    n, line := rio.ReadLineB(buf, MAXLINE);
    sent := 0;
    if n <= 0 {
      LineLenIsLeastEnd(old(rio.Stream()), MAXLINE - 1);
      WritingAll(connfd.script, connfd.nonblocking, 0);
      return n, line, sent;
    }
    assert buf[..n] == line;
    var rc;
    rc, sent := WriteN(connfd, buf, n);
    assert buf[..sent] == line[..sent];
    return if rc != n then -1 else 1, line, sent;
  }

  // echo.  Whatever happens, the bytes written back are a prefix of the bytes
  // the client sent; and if no call fails the loop ends at end of file having
  // written back all of them, line by line.
  method EchoLoop(rio: Buffered, connfd: Sink) returns (ok: bool, ghost lines: seq<seq<Byte>>)
    requires rio.Valid()
    modifies rio, rio.buf, rio.fd, connfd
    ensures rio.Valid()
    ensures old(connfd.received) <= connfd.received <= old(connfd.received) + old(rio.Stream())
    ensures ok ==> connfd.received == old(connfd.received) + old(rio.Stream()) && rio.Stream() == []
    ensures ok ==> lines == Lines(old(rio.Stream()), MAXLINE - 1)
    ensures old(Calm(rio.fd, connfd)) ==> ok
  {
    hide Lines, LineLen, Calm, Midway;
    var buf := new Byte[MAXLINE](_ => 0);
    lines := [];
    ghost var before, stream := connfd.received, rio.Stream();
    ghost var done: seq<Byte>, rest := [], stream;
    var turn := 1;
    MidwayStart(stream, before);
    while turn == 1
      invariant rio.Valid() && turn in {-1, 0, 1} && rest == rio.Stream()
      invariant Midway(stream, before, connfd.received, done, rest, lines, turn)
      invariant old(Calm(rio.fd, connfd)) ==> turn >= 0 && Calm(rio.fd, connfd)
      decreases turn == 1, |rest|
    {
      ghost var line, sent, received := [], 0, connfd.received;
      turn, line, sent := EchoLine(rio, connfd, buf);
      MidwayNext(stream, before, received, done, rest, lines, line, sent, rio.Stream(), turn);
      if turn == 1 {
        done, lines := done + line, lines + [line];
      }
      rest := rio.Stream();
    }
    MidwayEnd(stream, before, connfd.received, done, rest, lines, turn);
    return turn == 0, lines;
  }

  datatype Call = ReadCall(n: nat) | ReadNbCall(n: nat) | ReadLineCall(maxlen: nat)

  // The size of the buffer the caller passes.
  function Size(call: Call): nat {
    match call
    case ReadCall(n) => n
    case ReadNbCall(n) => n
    case ReadLineCall(maxlen) => maxlen
  }

  // How many bytes a call that meets no error is to deliver.
  ghost predicate Complete(call: Call, stream: seq<Byte>, count: nat) {
    match call
    case ReadCall(n) => count <= n && (count == 0 ==> n == 0 || stream == [])
    case ReadNbCall(n) => count == Min(n, |stream|)
    case ReadLineCall(maxlen) => count == LineLen(stream, if maxlen == 0 then 0 else maxlen - 1)
  }

  // What a call with its own buffer, `memory` afterwards, does to the stream: its
  // first `count` bytes are those now at the start of the buffer, and unless the
  // call reports an error it reports just as many.
  ghost predicate Served(call: Call, stream: seq<Byte>, rest: seq<Byte>, memory: seq<Byte>, rc: int, count: nat) {
    && count <= |memory| == Size(call)
    && stream == memory[..count] + rest
    && (rc == -1 || (rc == count && Complete(call, stream, count)))
  }

  // No read still to come does worse than be interrupted.
  ghost predicate Undisturbed(a: Source)
    reads a
  {
    Benign(a.script) && !a.nonblocking
  }

  lemma StartOfPatched(user: seq<Byte>, got: seq<Byte>)
    requires |got| <= |user|
    ensures Patched(user, 0, got)[..|got|] == got
    ensures |got| < |user| ==> Patched(user, 0, got + [0])[..|got|] == got
  {
  }

  method CallRead(rio: Buffered, n: nat) returns (memory: seq<Byte>, rc: int, ghost count: nat)
    requires rio.Valid()
    modifies rio, rio.buf, rio.fd
    ensures rio.Valid() && Served(ReadCall(n), old(rio.Stream()), rio.Stream(), memory, rc, count)
    ensures old(Undisturbed(rio.fd)) ==> rc >= 0 && Undisturbed(rio.fd)
  {
    hide Benign, Patched, Reading, Filling, Leaves;
    var usr := new Byte[n](_ => 0);
    ghost var stream := rio.Stream();
    ghost var user := usr[..];
    rc, count := rio.Read(usr, 0, n);
    memory := usr[..];
    StartOfPatched(user, stream[..count]);
  }

  method CallReadNb(rio: Buffered, n: nat) returns (memory: seq<Byte>, rc: int, ghost count: nat)
    requires rio.Valid()
    modifies rio, rio.buf, rio.fd
    ensures rio.Valid() && Served(ReadNbCall(n), old(rio.Stream()), rio.Stream(), memory, rc, count)
    ensures old(Undisturbed(rio.fd)) ==> rc >= 0 && Undisturbed(rio.fd)
  {
    var usr := new Byte[n](_ => 0);
    ghost var got, user := [], usr[..];
    rc, got := rio.ReadNb(usr, n);
    count, memory := |got|, usr[..];
    StartOfPatched(user, got);
  }

  method CallReadLine(rio: Buffered, maxlen: nat) returns (memory: seq<Byte>, rc: int, ghost count: nat)
    requires rio.Valid()
    modifies rio, rio.buf, rio.fd
    ensures rio.Valid() && Served(ReadLineCall(maxlen), old(rio.Stream()), rio.Stream(), memory, rc, count)
    ensures old(Undisturbed(rio.fd)) ==> rc >= 0 && Undisturbed(rio.fd)
  {
    hide LineLen, Benign, Patched;
    var usr := new Byte[maxlen](_ => 0);
    ghost var got: seq<Byte>, user := [], usr[..];
    rc := 0;
    LineLenIsLeastEnd(rio.Stream(), 0);
    if maxlen > 0 {
      rc, got := rio.ReadLineB(usr, maxlen);
    }
    count, memory := |got|, usr[..];
    StartOfPatched(user, got);
  }

  method OneCall(rio: Buffered, call: Call) returns (memory: seq<Byte>, rc: int, ghost count: nat)
    requires rio.Valid()
    modifies rio, rio.buf, rio.fd
    ensures rio.Valid() && Served(call, old(rio.Stream()), rio.Stream(), memory, rc, count)
    ensures old(Undisturbed(rio.fd)) ==> rc >= 0 && Undisturbed(rio.fd)
  {
    hide Served, Undisturbed;
    match call {
      case ReadCall(n) =>
        memory, rc, count := CallRead(rio, n);
      case ReadNbCall(n) =>
        memory, rc, count := CallReadNb(rio, n);
      case ReadLineCall(maxlen) =>
        memory, rc, count := CallReadLine(rio, maxlen);
    }
  }

  // The bytes that the calls put into their buffers, one call after the other.
  ghost function Copied(memory: seq<seq<Byte>>, counts: seq<nat>): seq<Byte>
    requires |memory| == |counts| && forall i :: 0 <= i < |memory| ==> counts[i] <= |memory[i]|
  {
    if memory == [] then []
    else
      var k := |memory| - 1;
      Copied(memory[..k], counts[..k]) + memory[k][..counts[k]]
  }

  // The calls so far have taken `stream` down to `rest`, one after the other.
  ghost predicate AllServed(calls: seq<Call>, stream: seq<Byte>, rest: seq<Byte>, memory: seq<seq<Byte>>,
                            results: seq<int>, counts: seq<nat>) {
    && |memory| == |results| == |counts| == |calls|
    && (forall i :: 0 <= i < |calls| ==> counts[i] <= |memory[i]| == Size(calls[i]))
    && (forall i :: 0 <= i < |calls| ==> results[i] == -1 || results[i] == counts[i])
    && stream == Copied(memory, counts) + rest
  }

  lemma ServedNext(calls: seq<Call>, stream: seq<Byte>, rest: seq<Byte>, memory: seq<seq<Byte>>, results: seq<int>,
                   counts: seq<nat>, call: Call, rest': seq<Byte>, m: seq<Byte>, rc: int, count: nat)
    requires AllServed(calls, stream, rest, memory, results, counts) && Served(call, rest, rest', m, rc, count)
    ensures AllServed(calls + [call], stream, rest', memory + [m], results + [rc], counts + [count])
  {
    var copied := Copied(memory, counts);
    assert (memory + [m])[..|memory|] == memory && (counts + [count])[..|counts|] == counts;
    hide Complete;
    assert copied + (m[..count] + rest') == (copied + m[..count]) + rest';
  }

  // Any sequence of rio_read, rio_readnb and rio_readlineb calls on one rio_t,
  // carrying on after errors: what lies in the callers' buffers, in order, followed
  // by what is left, is always the original stream; and a call that reports no
  // error has delivered just as many bytes as it says.
  method AnyClient(rio: Buffered, calls: seq<Call>)
    returns (memory: seq<seq<Byte>>, results: seq<int>, ghost counts: seq<nat>)
    requires rio.Valid()
    modifies rio, rio.buf, rio.fd
    ensures rio.Valid() && AllServed(calls, old(rio.Stream()), rio.Stream(), memory, results, counts)
    ensures old(Undisturbed(rio.fd)) ==> forall i :: 0 <= i < |results| ==> results[i] >= 0
  {
    memory, results, counts := [], [], [];
    ghost var stream := rio.Stream();
    assert Copied([], []) + stream == stream;
    hide AllServed, Served, Undisturbed;
    assert calls[..0] == [] && calls[..|calls|] == calls;
    for i := 0 to |calls|
      invariant rio.Valid() && AllServed(calls[..i], stream, rio.Stream(), memory, results, counts)
      invariant old(Undisturbed(rio.fd)) ==> Undisturbed(rio.fd) && forall k :: 0 <= k < |results| ==> results[k] >= 0
    {
      ghost var rest := rio.Stream();
      var m, rc;
      ghost var count;
      m, rc, count := OneCall(rio, calls[i]);
      ServedNext(calls[..i], stream, rest, memory, results, counts, calls[i], rio.Stream(), m, rc, count);
      assert calls[..i + 1] == calls[..i] + [calls[i]];
      memory, results, counts := memory + [m], results + [rc], counts + [count];
    }
  }
}

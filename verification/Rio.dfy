// The RIO package of hw6-concurrency/csapp.c and the echo loop built on it.
// Every contract is about the logical stream -- the unread bytes of the
// internal buffer followed by what the kernel has yet to deliver -- so it does
// not depend on how the kernel cuts the stream up.
module Rio {
  import opened Kernel
  import opened Retries

  const MAXLINE: nat := 8192
  const NEWLINE: Byte := 10

  // ---- Lines --------------------------------------------------------------

  // How many bytes of s a reader of lines of at most cap bytes takes next.
  function LineLen(s: seq<Byte>, cap: nat): (r: nat)
    ensures r <= cap && r <= |s|
  {
    if cap == 0 || s == [] then 0
    else if s[0] == NEWLINE then 1
    else 1 + LineLen(s[1..], cap - 1)
  }

  // The end of a line: after a newline, at the cap, or at end of file.
  ghost predicate LineEnd(s: seq<Byte>, cap: nat, r: nat) {
    r <= |s| && r <= cap && (r == cap || r == |s| || (r > 0 && s[r - 1] == NEWLINE))
  }

  // LineLen is the least line end that is not 0 (or 0 when nothing can be read).
  lemma {:induction false} LineLenIsLeastEnd(s: seq<Byte>, cap: nat)
    ensures LineEnd(s, cap, LineLen(s, cap))
    ensures forall k :: 0 < k < LineLen(s, cap) ==> !LineEnd(s, cap, k)
    ensures LineLen(s, cap) == 0 <==> cap == 0 || s == []
  {
    if cap > 0 && s != [] && s[0] != NEWLINE {
      var t := s[1..];
      LineLenIsLeastEnd(t, cap - 1);
      forall k | 0 < k < LineLen(s, cap) ensures !LineEnd(s, cap, k) {
        if k > 1 {
          assert t[k - 2] == s[k - 1];
          assert !LineEnd(t, cap - 1, k - 1);
        }
      }
      var r := LineLen(t, cap - 1);
      assert r > 0 ==> t[r - 1] == s[r];
    }
  }

  // In the middle of reading a line of `stream`: `line` is read, `rest` is not, and
  // the line is complete if a newline has been read.
  ghost predicate MidLine(stream: seq<Byte>, line: seq<Byte>, rest: seq<Byte>, cap: nat, complete: bool) {
    && stream == line + rest && |line| <= cap
    && LineLen(stream, cap) == |line| + (if complete then 0 else LineLen(rest, cap - |line|))
    && (complete <==> NEWLINE in line)
  }

  lemma MidLineNext(stream: seq<Byte>, line: seq<Byte>, rest: seq<Byte>, cap: nat, c: Byte, rest': seq<Byte>)
    requires MidLine(stream, line, rest, cap, false) && rest == [c] + rest' && |line| < cap
    ensures MidLine(stream, line + [c], rest', cap, c == NEWLINE)
  {
    assert rest[1..] == rest' && rest[0] == c;
    assert line + ([c] + rest') == (line + [c]) + rest';
  }

  lemma MidLineEnd(stream: seq<Byte>, line: seq<Byte>, rest: seq<Byte>, cap: nat, complete: bool)
    ensures MidLine(stream, [], stream, cap, false)
    ensures MidLine(stream, line, rest, cap, complete) ==>
      stream == line + rest && |line| <= cap && (complete <==> NEWLINE in line)
    ensures MidLine(stream, line, rest, cap, complete) && (complete || |line| == cap || rest == []) ==>
      LineLen(stream, cap) == |line|
  {
    assert [] + stream == stream;
  }

  // The whole stream as the sequence of lines a reader sees.
  function Lines(s: seq<Byte>, cap: nat): seq<seq<Byte>>
    requires cap > 0
    decreases |s|
  {
    if s == [] then []
    else
      var r := LineLen(s, cap);
      [s[..r]] + Lines(s[r..], cap)
  }

  function Concat(ls: seq<seq<Byte>>): seq<Byte> {
    if ls == [] then [] else ls[0] + Concat(ls[1..])
  }

  lemma {:induction false} LinesConcat(s: seq<Byte>, cap: nat)
    requires cap > 0
    ensures Concat(Lines(s, cap)) == s
    decreases |s|
  {
    if s != [] {
      var r := LineLen(s, cap);
      LinesConcat(s[r..], cap);
      assert Lines(s, cap)[1..] == Lines(s[r..], cap);
    }
  }

  lemma PutNext(user: seq<Byte>, taken: seq<Byte>, c: Byte)
    requires |taken| < |user|
    ensures Patched(user, 0, taken)[|taken| := c] == Patched(user, 0, taken + [c])
  {
  }

  lemma SplitFront(a: seq<Byte>, b: seq<Byte>, m: nat)
    requires m <= |a|
    ensures (a + b)[..m] == a[..m] && (a + b)[m..] == a[m..] + b
  {
  }

  // ---- Lines cut short ---------------------------------------------------------

  // An error comes before a line of at most cap bytes is through.
  ghost predicate Breaks(p: Progress, stream: seq<Byte>, cap: nat) {
    p.failed && p.count < cap && p.count <= |stream| && NEWLINE !in stream[..p.count]
  }

  // In the middle of reading a line: `line` of p bytes is read, `now` are still to
  // come, and the last read returned rc.
  ghost predicate MidSupply(p: Progress, line: seq<Byte>, now: Progress, cap: nat, rc: int) {
    && (rc == 1 ==> Leaves(p, |line|, now))
    && (rc == 0 ==> !p.failed)
    && (rc == -1 ==> p == Progress(|line|, true) && NEWLINE !in line && |line| < cap)
  }

  lemma MidSupplyStart(p: Progress, cap: nat)
    ensures MidSupply(p, [], p, cap, 1)
  {
  }

  lemma MidSupplyNext(p: Progress, line: seq<Byte>, now: Progress, cap: nat, rc: int, c: Byte, next: Progress)
    requires MidSupply(p, line, now, cap, 1) && NEWLINE !in line && |line| < cap && rc in {-1, 0, 1}
    requires rc == -1 <==> now == Progress(0, true)
    requires rc == 0 <==> now == Progress(0, false)
    requires rc == 1 ==> Leaves(now, 1, next)
    ensures MidSupply(p, if rc == 1 then line + [c] else line, next, cap, rc)
  {
  }

  lemma LineBreaks(p: Progress, stream: seq<Byte>, line: seq<Byte>, rest: seq<Byte>, now: Progress, cap: nat, rc: int)
    requires stream == line + rest && p.count <= |stream| && rc in {-1, 0, 1} && MidSupply(p, line, now, cap, rc)
    requires rc == 1 ==> |line| == cap || NEWLINE in line
    ensures rc == -1 <==> Breaks(p, stream, cap)
    ensures rc == -1 ==> |line| == p.count
  {
    if rc == -1 {
      assert stream[..p.count] == line;
    } else if rc == 1 && NEWLINE in line {
      var k :| 0 <= k < |line| && line[k] == NEWLINE;
      assert stream[..p.count][k] == NEWLINE;
    }
  }

  // ---- Unbuffered -----------------------------------------------------------

  // The call in the loop of rio_readn, after `got`; p is what the loop amounts to.
  method ReadPart(fd: Source, usr: array<Byte>, n: nat, nleft: nat, ghost user: seq<Byte>, ghost got: seq<Byte>,
                  ghost p: Progress)
    returns (nread: int, errno: Errno, ghost more: seq<Byte>)
    requires 0 < nleft && |got| + nleft == n <= usr.Length == |user| && usr[..] == Patched(user, 0, got)
    requires Leaves(p, |got|, Reading(fd.script, fd.nonblocking, n, nleft, |fd.incoming|))
    modifies fd, usr
    ensures got + old(fd.incoming) == (got + more) + fd.incoming && |more| == (if nread < 0 then 0 else nread) <= nleft
    ensures usr[..] == Patched(user, 0, got + more)
    ensures if nread < 0 && errno != EINTR then p == Progress(|got|, true) else if nread == 0 then p == Progress(|got|, false)
      else Leaves(p, |got| + |more|, Reading(fd.script, fd.nonblocking, n, nleft - |more|, |fd.incoming|))
    ensures fd.script == Rest(old(fd.script)) && (nread < 0 && errno == EINTR ==> old(fd.script) != [])
  {
    ghost var stream := fd.incoming;
    ghost var m;
    ReadingStep(fd.script, fd.nonblocking, n, nleft, |stream|);
    nread, errno, m := fd.Read(usr, n - nleft, nleft);
    more := stream[..m];
    ReadOn(user, got, stream, m);
  }

  // rio_readn
  method ReadN(fd: Source, usr: array<Byte>, n: nat) returns (rc: int, ghost got: seq<Byte>)
    requires n <= usr.Length
    modifies fd, usr
    ensures |got| <= n && old(fd.incoming) == got + fd.incoming
    ensures usr[..] == Patched(old(usr[..]), 0, got)
    ensures var p := Reading(old(fd.script), fd.nonblocking, n, n, |old(fd.incoming)|);
      |got| == p.count && rc == if p.failed then -1 else |got|
    ensures rc == -1 || rc == |got| == Min(n, |old(fd.incoming)|)
    ensures Benign(old(fd.script)) && !fd.nonblocking ==> rc >= 0
  {
    var nleft := n;
    got := [];
    ghost var stream, user := fd.incoming, usr[..];
    ghost var p := Reading(fd.script, fd.nonblocking, n, n, |stream|);
    if n > 0 { ReadingAll(fd.script, fd.nonblocking, n, n, |stream|); }
    assert usr[..] == Patched(user, 0, got);
    hide Reading, Benign, Patched;
    while nleft > 0
      invariant 0 <= nleft && |got| + nleft == n
      invariant stream == got + fd.incoming
      invariant usr[..] == Patched(user, 0, got)
      invariant Leaves(p, |got|, Reading(fd.script, fd.nonblocking, n, nleft, |fd.incoming|))
      decreases |fd.script| + nleft
    {
      ghost var more;
      var nread, errno;
      nread, errno, more := ReadPart(fd, usr, n, nleft, user, got, p);
      got := got + more;
      if nread < 0 {
        if errno == EINTR {
          nread := 0;
        } else {
          return -1, got;
        }
      } else if nread == 0 {
        break;
      }
      nleft := nleft - nread;
    }
    ReadingStep(fd.script, fd.nonblocking, n, nleft, |fd.incoming|);
    return n - nleft, got;
  }

  // rio_writen
  method WriteN(fd: Sink, usr: array<Byte>, n: nat) returns (rc: int, ghost sent: nat)
    requires n <= usr.Length
    modifies fd
    ensures sent <= n && fd.received == old(fd.received) + usr[..sent]
    ensures var p := Writing(old(fd.script), fd.nonblocking, n); sent == p.count && rc == if p.failed then -1 else n
    ensures rc == -1 || rc == sent == n
    ensures Benign(old(fd.script)) && !fd.nonblocking ==> rc == n && Benign(fd.script)
  {
    var nleft := n;
    sent := 0;
    ghost var p := Writing(fd.script, fd.nonblocking, n);
    WritingAll(fd.script, fd.nonblocking, n);
    while nleft > 0
      invariant 0 <= nleft && sent + nleft == n
      invariant fd.received == old(fd.received) + usr[..sent]
      invariant Leaves(p, sent, Writing(fd.script, fd.nonblocking, nleft))
      invariant Benign(old(fd.script)) ==> Benign(fd.script)
      decreases |fd.script| + nleft
    {
      var nwritten, errno, m := fd.Write(usr, n - nleft, nleft);
      TakeMore(usr[..], sent, m);
      sent := sent + m;
      if nwritten <= 0 {
        if errno == EINTR {
          nwritten := 0;
        } else {
          return -1, sent;
        }
      }
      nleft := nleft - nwritten;
    }
    return n, sent;
  }

  // ---- Buffered ---------------------------------------------------------------

  // rio_t
  class Buffered {
    const fd: Source
    const buf: array<Byte>
    var cnt: int
    var ptr: nat

    ghost predicate Valid()
      reads this
    {
      buf.Length == RIO_BUFSIZE && cnt <= RIO_BUFSIZE && (cnt > 0 ==> ptr + cnt <= RIO_BUFSIZE)
    }

    ghost function Unread(): seq<Byte>
      reads this, buf
      requires Valid()
    {
      if cnt > 0 then buf[ptr..ptr + cnt] else []
    }

    // Everything the caller has not been given yet.
    ghost function Stream(): seq<Byte>
      reads this, buf, fd
      requires Valid()
    {
      Unread() + fd.incoming
    }

    // How many bytes the caller can still be given, and whether an error comes then.
    ghost function Supply(): Progress
      reads this, buf, fd
      requires Valid()
    {
      var p := Filling(fd.script, fd.nonblocking, |fd.incoming|);
      Progress(|Unread()| + p.count, p.failed)
    }

    lemma SupplyAll()
      requires Valid()
      ensures Supply().count <= |Stream()| && (!Supply().failed ==> Supply().count == |Stream()|)
      ensures Benign(fd.script) && !fd.nonblocking ==> !Supply().failed
    {
      ReadingAll(fd.script, fd.nonblocking, RIO_BUFSIZE, |fd.incoming| + 1, |fd.incoming|);
    }

    // rio_readinitb
    constructor (fd: Source)
      ensures Valid() && fresh(buf) && this.fd == fd && Stream() == fd.incoming
    {
      this.fd := fd;
      buf := new Byte[RIO_BUFSIZE](_ => 0);
      cnt := 0;
      ptr := 0;
    }

    // One read() into the empty internal buffer.
    method Fetch() returns (errno: Errno)
      requires Valid() && cnt <= 0
      modifies this, buf, fd
      ensures Valid() && Stream() == old(Stream())
      ensures cnt == 0 ==> Stream() == []
      ensures cnt < 0 ==> errno != EOK
      ensures fd.script == Rest(old(fd.script))
      ensures Benign(old(fd.script)) && !fd.nonblocking && cnt < 0 ==> errno == EINTR
      ensures cnt < 0 && errno == EINTR ==> old(fd.script) != []
      ensures cnt < 0 && errno != EINTR ==> old(Supply()) == Progress(0, true)
      ensures cnt >= 0 || errno == EINTR ==> old(Supply()) == if cnt == 0 then Progress(0, false) else Supply()
    {
      ghost var stream := fd.incoming;
      hide Reading, Filling;
      ghost var m;
      FillingStep(fd.script, fd.nonblocking, |stream|);
      cnt, errno, m := fd.Read(buf, 0, RIO_BUFSIZE);
      if cnt > 0 {
        ptr := 0;
        assert buf[0..cnt] == stream[..cnt];
      }
    }

    // The loop at the head of rio_read: fill the internal buffer if it is empty.
    method Refill() returns (rc: int)
      requires Valid()
      modifies this, buf, fd
      ensures Valid() && Stream() == old(Stream()) && rc in {-1, 0, 1}
      ensures rc == 1 ==> cnt > 0
      ensures rc == 0 ==> Stream() == []
      ensures rc == -1 ==> cnt <= 0
      ensures rc == 0 ==> cnt == 0
      ensures old(cnt) > 0 ==> rc == 1 && cnt == old(cnt) && fd.script == old(fd.script)
      ensures old(Supply()) == if rc == -1 then Progress(0, true) else if rc == 0 then Progress(0, false) else Supply()
      ensures Benign(old(fd.script)) && !fd.nonblocking ==> rc >= 0 && Benign(fd.script)
    {
      while cnt <= 0
        invariant Valid() && Stream() == old(Stream())
        invariant old(cnt) > 0 ==> cnt == old(cnt) && fd.script == old(fd.script)
        invariant Supply() == old(Supply())
        invariant Benign(old(fd.script)) ==> Benign(fd.script)
        decreases |fd.script|, cnt <= 0
      {
        var errno := Fetch();
        if cnt < 0 {
          if errno != EINTR {
            return -1;
          }
        } else if cnt == 0 {
          return 0;
        }
      }
      return 1;
    }

    // The tail of rio_read: copy min(n, cnt) bytes to the user and advance.
    method Deliver(usr: array<Byte>, off: nat, n: nat) returns (rc: int)
      requires Valid() && cnt > 0 && usr != buf && off + n <= usr.Length
      modifies this, usr
      ensures Valid() && rc == Min(n, old(cnt))
      ensures usr[..] == Patched(old(usr[..]), off, old(Unread())[..rc])
      ensures Unread() == old(Unread())[rc..]
    {
      rc := n;
      if cnt < n {
        rc := cnt;
      }
      forall i | 0 <= i < rc {
        usr[off + i] := buf[ptr + i];
      }
      assert usr[..] == Patched(old(usr[..]), off, old(Unread())[..rc]);
      ptr := ptr + rc;
      cnt := cnt - rc;
    }

    // rio_read: the next m = min(n, unread) bytes, refilling first if need be.
    method Read(usr: array<Byte>, off: nat, n: nat) returns (rc: int, ghost m: nat)
      requires Valid() && usr != buf && off + n <= usr.Length
      modifies this, buf, fd, usr
      ensures Valid() && m <= n && m <= |old(Stream())|
      ensures rc == m || (rc == -1 && m == 0)
      ensures usr[..] == Patched(old(usr[..]), off, old(Stream())[..m])
      ensures Stream() == old(Stream())[m..]
      ensures rc == 0 ==> n == 0 || old(Stream()) == []
      ensures old(cnt) > 0 ==> rc == Min(n, old(cnt)) && fd.script == old(fd.script)
      ensures 0 <= rc < n ==> Unread() == []
      ensures rc == -1 <==> old(Supply()) == Progress(0, true)
      ensures old(Supply()).count > 0 ==> Leaves(old(Supply()), m, Supply())
      ensures Benign(old(fd.script)) && !fd.nonblocking ==> rc >= 0 && Benign(fd.script)
    {
      rc := Refill();
      m := 0;
      if rc == 1 {
        SplitFront(Unread(), fd.incoming, Min(n, cnt));
        rc := Deliver(usr, off, n);
        m := rc;
      }
    }

    // rio_read(rp, &c, 1)
    method ReadByte() returns (rc: int, c: Byte)
      requires Valid()
      modifies this, buf, fd
      ensures Valid() && rc in {-1, 0, 1}
      ensures rc == 1 ==> old(Stream()) != [] && c == old(Stream())[0] && Stream() == old(Stream())[1..]
      ensures rc != 1 ==> Stream() == old(Stream())
      ensures rc == 0 ==> old(Stream()) == []
      ensures (rc == -1 <==> old(Supply()) == Progress(0, true)) && (rc == 0 <==> old(Supply()) == Progress(0, false))
      ensures rc == 1 ==> Leaves(old(Supply()), 1, Supply())
      ensures Benign(old(fd.script)) && !fd.nonblocking ==> rc >= 0 && Benign(fd.script)
    {
      SupplyAll();
      var cell := new Byte[1](_ => 0);
      ghost var m;
      rc, m := Read(cell, 0, 1);
      c := cell[0];
      if rc == 1 {
        assert c == cell[..][0];
      }
    }

    // rio_readnb: exactly min(n, remaining) bytes however they arrive.
    method ReadNb(usr: array<Byte>, n: nat) returns (rc: int, ghost got: seq<Byte>)
      requires Valid() && usr != buf && n <= usr.Length
      modifies this, buf, fd, usr
      ensures Valid()
      ensures |got| <= n && old(Stream()) == got + Stream()
      ensures usr[..] == Patched(old(usr[..]), 0, got)
      ensures rc == -1 || rc == |got| == Min(n, |old(Stream())|)
      ensures |got| == Min(n, old(Supply()).count) && (rc == -1 <==> old(Supply()).failed && old(Supply()).count < n)
      ensures Benign(old(fd.script)) && !fd.nonblocking ==> rc >= 0 && Benign(fd.script)
    {
      var nleft := n;
      got := [];
      ghost var stream, user, supply := Stream(), usr[..], Supply();
      ghost var rest := stream;
      while nleft > 0
        invariant Valid() && 0 <= nleft && |got| + nleft == n
        invariant rest == Stream() && stream == got + rest
        invariant Leaves(supply, |got|, Supply())
        invariant usr[..] == Patched(user, 0, got)
        invariant Benign(old(fd.script)) && !fd.nonblocking ==> Benign(fd.script)
        decreases nleft
      {
        SupplyAll();
        var nread, m := Read(usr, n - nleft, nleft);
        ReadOn(user, got, rest, m);
        got, rest := got + rest[..m], Stream();
        if nread < 0 {
          return -1, got;
        } else if nread == 0 {
          break;
        }
        nleft := nleft - nread;
      }
      return n - nleft, got;
    }

    // One byte read and stored at *bufp++, after the `line` read so far.
    method NextByte(usr: array<Byte>, bufp: nat, ghost user: seq<Byte>, ghost line: seq<Byte>) returns (rc: int, c: Byte)
      requires Valid() && usr != buf && bufp == |line| < usr.Length == |user| && usr[..] == Patched(user, 0, line)
      modifies this, buf, fd, usr
      ensures Valid() && rc in {-1, 0, 1}
      ensures rc == 1 ==> old(Stream()) == [c] + Stream() && usr[..] == Patched(user, 0, line + [c])
      ensures rc != 1 ==> Stream() == old(Stream()) && usr[..] == old(usr[..])
      ensures rc == 0 ==> old(Stream()) == []
      ensures (rc == -1 <==> old(Supply()) == Progress(0, true)) && (rc == 0 <==> old(Supply()) == Progress(0, false))
      ensures rc == 1 ==> Leaves(old(Supply()), 1, Supply())
      ensures Benign(old(fd.script)) && !fd.nonblocking ==> rc >= 0 && Benign(fd.script)
    {
      hide Benign, Filling, Patched, Leaves;
      rc, c := ReadByte();
      if rc == 1 {
        PutNext(user, line, c);
        usr[bufp] := c;
      }
    }

    // In the middle of rio_readlineb, when c is the last byte read and rc what the last
    // rio_read returned.
    ghost predicate Midway(usr: array<Byte>, user: seq<Byte>, stream: seq<Byte>, supply: Progress, line: seq<Byte>,
                           cap: nat, c: Byte, rc: int)
      reads this, buf, fd, usr
      requires Valid()
    {
      && rc in {-1, 0, 1} && |line| <= cap < usr.Length == |user| && usr[..] == Patched(user, 0, line)
      && MidLine(stream, line, Stream(), cap, c == NEWLINE) && MidSupply(supply, line, Supply(), cap, rc)
      && (rc == 0 ==> Stream() == [])
    }

    lemma MidwayStart(usr: array<Byte>, maxlen: nat)
      requires Valid() && 1 <= maxlen <= usr.Length
      ensures Midway(usr, usr[..], Stream(), Supply(), [], maxlen - 1, 0, 1)
    {
      MidLineEnd(Stream(), [], Stream(), maxlen - 1, false);
      MidSupplyStart(Supply(), maxlen - 1);
    }

    lemma MidwayEnd(usr: array<Byte>, user: seq<Byte>, stream: seq<Byte>, supply: Progress, line: seq<Byte>, cap: nat,
                    c: Byte, rc: int)
      requires Valid() && Midway(usr, user, stream, supply, line, cap, c, rc) && supply.count <= |stream|
      ensures stream == line + Stream() && |line| <= cap && usr[..] == Patched(user, 0, line)
      ensures rc != 1 || |line| == cap || c == NEWLINE ==>
        && (rc != -1 ==> |line| == LineLen(stream, cap))
        && (rc == -1 <==> Breaks(supply, stream, cap)) && (rc == -1 ==> |line| == supply.count)
    {
      MidLineEnd(stream, line, Stream(), cap, c == NEWLINE);
      hide Stream, Supply, LineLen, MidLine, Patched, Breaks;
      if rc != 1 || |line| == cap || c == NEWLINE {
        LineBreaks(supply, stream, line, Stream(), Supply(), cap, rc);
      }
    }

    // One turn of its loop.
    method LineStep(usr: array<Byte>, bufp: nat, c: Byte, ghost user: seq<Byte>, ghost stream: seq<Byte>,
                    ghost supply: Progress, ghost line: seq<Byte>, ghost cap: nat)
      returns (rc: int, next: Byte, ghost more: seq<Byte>)
      requires Valid() && usr != buf && bufp == |line| < cap && c != NEWLINE
      requires Midway(usr, user, stream, supply, line, cap, c, 1)
      modifies this, buf, fd, usr
      ensures Valid() && rc in {-1, 0, 1} && (if rc == 1 then more == line + [next] else more == line && next == c)
      ensures Midway(usr, user, stream, supply, more, cap, next, rc)
      ensures Benign(old(fd.script)) && !fd.nonblocking ==> rc >= 0 && Benign(fd.script)
    {
      hide LineLen, Benign, Filling, Stream, Supply, Patched;
      ghost var rest, now := Stream(), Supply();
      var read;
      rc, read := NextByte(usr, bufp, user, line);
      MidSupplyNext(supply, line, now, cap, rc, read, Supply());
      next, more := c, line;
      if rc == 1 {
        MidLineNext(stream, line, rest, cap, read, Stream());
        next, more := read, line + [read];
      }
    }

    // The loop of rio_readlineb: rc is what the last rio_read returned.
    method LineLoop(usr: array<Byte>, maxlen: nat) returns (rc: int, ghost line: seq<Byte>, bufp: nat)
      requires Valid() && usr != buf && 1 <= maxlen <= usr.Length
      modifies this, buf, fd, usr
      ensures Valid() && bufp == |line| < maxlen && rc in {-1, 0, 1}
      ensures old(Stream()) == line + Stream()
      ensures rc != -1 ==> |line| == LineLen(old(Stream()), maxlen - 1)
      ensures if maxlen == 1 then rc == 1 else rc == 1 ==> line != []
      ensures rc == -1 <==> Breaks(old(Supply()), old(Stream()), maxlen - 1)
      ensures rc == -1 ==> |line| == old(Supply()).count
      ensures usr[..] == Patched(old(usr[..]), 0, line)
      ensures Benign(old(fd.script)) && !fd.nonblocking ==> rc >= 0 && Benign(fd.script)
    {
      hide Midway, Benign, Stream, Supply, LineLen, Breaks, Patched;
      var n, c: Byte := 1, 0;
      bufp := 0;
      line := [];
      rc := 1;
      ghost var user, stream, supply := usr[..], Stream(), Supply();
      SupplyAll();
      MidwayStart(usr, maxlen);
      while n < maxlen && rc == 1 && c != NEWLINE
        invariant Valid() && n == |line| + 1 <= maxlen && bufp == |line| && rc in {-1, 0, 1}
        invariant Midway(usr, user, stream, supply, line, maxlen - 1, c, rc)
        invariant (maxlen == 1 ==> rc == 1) && (line == [] ==> c != NEWLINE)
        invariant Benign(old(fd.script)) && !fd.nonblocking ==> Benign(fd.script) && rc >= 0
        decreases maxlen - n, rc == 1
      {
        rc, c, line := LineStep(usr, bufp, c, user, stream, supply, line, maxlen - 1);
        if rc == 1 {
          bufp := bufp + 1;
          n := n + 1;
        }
      }
      MidwayEnd(usr, user, stream, supply, line, maxlen - 1, c, rc);
    }

    // rio_readlineb: the shortest of through the next newline, maxlen - 1 bytes
    // and up to end of file, followed by a NUL unless end of file came at once.
    method ReadLineB(usr: array<Byte>, maxlen: nat) returns (rc: int, ghost line: seq<Byte>)
      requires Valid() && usr != buf && 1 <= maxlen <= usr.Length
      modifies this, buf, fd, usr
      ensures Valid() && |line| < maxlen
      ensures old(Stream()) == line + Stream()
      ensures rc == -1 || rc == |line| == LineLen(old(Stream()), maxlen - 1)
      ensures rc == -1 <==> Breaks(old(Supply()), old(Stream()), maxlen - 1)
      ensures rc == -1 ==> |line| == old(Supply()).count
      ensures rc > 0 || maxlen == 1 ==> usr[..] == Patched(old(usr[..]), 0, line + [0])
      ensures rc < 0 || (rc == 0 && maxlen > 1) ==> usr[..] == Patched(old(usr[..]), 0, line)
      ensures Benign(old(fd.script)) && !fd.nonblocking ==> rc >= 0 && Benign(fd.script)
    {
      var last, bufp;
      last, line, bufp := LineLoop(usr, maxlen);
      if last == -1 {
        return -1, line;
      }
      if last == 0 && bufp == 0 {
        return 0, line;
      }
      PutNext(old(usr[..]), line, 0);
      usr[bufp] := 0;
      return bufp, line;
    }
  }
}

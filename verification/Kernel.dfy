// Byte streams as the kernel shows them: read and write move as many bytes as
// an oracle says, or fail, and the code above has to cope with every script.
module Kernel {

  newtype Byte = b: int | 0 <= b < 256

  datatype Errno = EOK | EINTR | EAGAIN | EIO

  // What the next system call does.  Move(k) moves k bytes, or as near to that
  // as it can, and never none of a positive number; Idle(e) returns 0 and
  // leaves errno at e (write only); Refuse(e) returns -1 and sets errno.
  datatype Outcome = Move(k: nat) | Idle(stale: Errno) | Refuse(errno: Errno)

  function Min(a: nat, b: nat): nat { if a < b then a else b }

  // When the script is over a blocking call moves all it is asked to and a
  // nonblocking one reports EAGAIN.
  function Next(script: seq<Outcome>, nonblocking: bool, n: nat): Outcome {
    if script != [] then script[0] else if nonblocking then Refuse(EAGAIN) else Move(n)
  }

  function Rest(script: seq<Outcome>): seq<Outcome> {
    if script == [] then [] else script[1..]
  }

  function Moved(k: nat, n: nat, available: nat): (m: nat)
    ensures m <= n && m <= available
    ensures m == 0 <==> n == 0 || available == 0
  {
    Min(Min(if k == 0 then 1 else k, n), available)
  }

  function Code(o: Outcome): (e: Errno)
    requires !o.Move?
    ensures o.Idle? || e != EOK
    ensures o == Refuse(EINTR) ==> e == EINTR
  {
    match o
    case Idle(stale) => stale
    case Refuse(e) => if e == EOK then EIO else e
  }

  // A script without the calls that go one of these ways, and the calls at its front
  // that move bytes.
  function Without(script: seq<Outcome>, drop: set<Outcome>): seq<Outcome> {
    if script == [] then [] else (if script[0] in drop then [] else [script[0]]) + Without(script[1..], drop)
  }

  function Leading(script: seq<Outcome>): (moving: seq<Outcome>)
    ensures |moving| <= |script| && moving == script[..|moving|]
    ensures |moving| < |script| ==> !script[|moving|].Move?
  {
    if script == [] || !script[0].Move? then [] else [script[0]] + Leading(script[1..])
  }

  // What calls that move bytes can move, with room for `chunk` in each.
  function Total(moving: seq<Outcome>, chunk: nat): nat {
    if moving == [] || !moving[0].Move? then 0
    else Min(if moving[0].k == 0 then 1 else moving[0].k, chunk) + Total(moving[1..], chunk)
  }

  lemma WithoutFirst(script: seq<Outcome>, drop: set<Outcome>)
    requires script != []
    ensures var calls, more := Without(script, drop), Without(script[1..], drop);
      if script[0] in drop then calls == more else calls != [] && calls[0] == script[0] && calls[1..] == more
  {
  }

  // A script in which nothing worse happens than an interrupted call.
  predicate Benign(script: seq<Outcome>) {
    script == [] || ((script[0].Move? || script[0] == Refuse(EINTR)) && Benign(script[1..]))
  }

  // Taking m more bytes of a stream of which c have been taken.
  lemma TakeMore(s: seq<Byte>, c: nat, m: nat)
    requires c + m <= |s|
    ensures s[c..][m..] == s[c + m..]
    ensures s[..c] + s[c..][..m] == s[..c + m]
    ensures s[..c] + s[c..c + m] == s[..c + m]
  {
  }

  // The bytes `data` written over `s` from position `off` on.
  function Patched(s: seq<Byte>, off: nat, data: seq<Byte>): (r: seq<Byte>)
    requires off + |data| <= |s|
    ensures |r| == |s|
  {
    s[..off] + data + s[off + |data|..]
  }

  // A buffer that begins with `got`, and into which the next m bytes of s have
  // been read.
  lemma ReadOn(user: seq<Byte>, got: seq<Byte>, s: seq<Byte>, m: nat)
    requires |got| + m <= |user| && m <= |s|
    ensures Patched(Patched(user, 0, got), |got|, s[..m]) == Patched(user, 0, got + s[..m])
    ensures got + s == (got + s[..m]) + s[m..]
  {
  }

  // A descriptor open for reading: the bytes that have still to be delivered,
  // up to end of file.
  class Source {
    var incoming: seq<Byte>
    var script: seq<Outcome>
    const nonblocking: bool

    constructor (incoming: seq<Byte>, script: seq<Outcome>, nonblocking: bool)
      ensures this.incoming == incoming && this.script == script && this.nonblocking == nonblocking
    {
      this.incoming := incoming;
      this.script := script;
      this.nonblocking := nonblocking;
    }

    // read(2).  The m bytes that move leave the stream and enter the buffer.
    method Read(buf: array<Byte>, off: nat, n: nat) returns (rc: int, errno: Errno, ghost m: nat)
      requires off + n <= buf.Length
      modifies this, buf
      ensures script == Rest(old(script))
      ensures var o := Next(old(script), nonblocking, n);
        if o.Move? then m == rc == Moved(o.k, n, |old(incoming)|) && errno == EOK
        else m == 0 && rc == -1 && errno == (if o.Idle? then EIO else Code(o))
      ensures m <= n && m <= |old(incoming)| && incoming == old(incoming)[m..]
      ensures buf[..] == Patched(old(buf[..]), off, old(incoming)[..m])
    {
      var outcome := Next(script, nonblocking, n);
      script := Rest(script);
      m := 0;
      match outcome {
        case Move(k) =>
          rc, errno := Moved(k, n, |incoming|), EOK;
          m := rc;
          forall i | 0 <= i < rc {
            buf[off + i] := incoming[i];
          }
          assert buf[..] == Patched(old(buf[..]), off, incoming[..rc]);
          incoming := incoming[rc..];
        case Idle(_) =>
          rc, errno := -1, EIO;
        case Refuse(_) =>
          rc, errno := -1, Code(outcome);
      }
    }
  }

  // A descriptor open for writing: the bytes the other side has received.
  class Sink {
    var received: seq<Byte>
    var script: seq<Outcome>
    const nonblocking: bool

    constructor (script: seq<Outcome>, nonblocking: bool)
      ensures received == [] && this.script == script && this.nonblocking == nonblocking
    {
      this.received := [];
      this.script := script;
      this.nonblocking := nonblocking;
    }

    // write(2).  The m bytes that move are received by the other side.
    method Write(buf: array<Byte>, off: nat, n: nat) returns (rc: int, errno: Errno, ghost m: nat)
      requires off + n <= buf.Length
      modifies this
      ensures script == Rest(old(script))
      ensures var o := Next(old(script), nonblocking, n);
        if o.Move? then m == rc == Moved(o.k, n, n) && errno == EOK
        else m == 0 && rc == (if o.Idle? then 0 else -1) && errno == Code(o)
      ensures m <= n && received == old(received) + buf[off..off + m]
    {
      var outcome := Next(script, nonblocking, n);
      script := Rest(script);
      m := 0;
      match outcome {
        case Move(k) =>
          rc, errno := Moved(k, n, n), EOK;
          m := rc;
          received := received + buf[off..off + rc];
        case Idle(_) =>
          rc, errno := 0, Code(outcome);
        case Refuse(_) =>
          rc, errno := -1, Code(outcome);
      }
    }
  }
}

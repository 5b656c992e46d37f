// One connection of proxy-lab2/proxylab2-handout/proxy.c, from accept to reset:
// four states that are resumed whenever a socket would have blocked.
module Proxy {
  import opened CStrings
  import opened Kernel
  import opened ProxyRequest
  import opened Sockets

  datatype State = ReadReq | SendReq | ReadRes | SendRes

  // What became of the connection: it waits for an event, a hard error or a request
  // that cannot be rebuilt ended it, or it has been reset after the response.
  datatype End = Waiting | Closed | Reset

  // The two directions of the client's and the server's socket.
  datatype Wires = Wires(clientIn: Source, clientOut: Sink, serverIn: Source, serverOut: Sink)

  function Zeros(n: nat): (z: seq<Byte>)
    ensures |z| == n && forall i :: 0 <= i < n ==> z[i] == 0
  {
    seq(n, _ => 0)
  }

  // The C string at the start of a buffer.
  function Text(s: seq<Byte>): seq<Byte> {
    s[..Find(s, 0)]
  }

  // What the server should receive for a request.
  function Wanted(text: seq<Byte>): seq<Byte> {
    match Reformat(text)
    case Malformed => []
    case Reformatted(_, _, request) => request
  }

  // For a well-formed request that fits the buffers, that is the request for its path
  // on its host.
  lemma WantedOfWellFormed(verb: seq<Byte>, u: Url, rest: seq<Byte>)
    requires verb != [] && SPACE !in verb && WellFormed(u) && FitsFor(verb, u)
    ensures Wanted(Line(verb, Spelled(u), rest)) == Request(verb, u.path, u.host, PortOf(u))
  {
    hide Reformat, Request, FitsFor, WellFormed;
    WellFormedRequest(verb, u, rest);
  }

  // Does the empty line that ends a request occur in s?
  predicate HasEnd(s: seq<Byte>) {
    exists i :: 0 <= i && i + 4 <= |s| && EndAt(s, i)
  }

  predicate EndAt(s: seq<Byte>, i: nat)
    requires i + 4 <= |s|
  {
    s[i] == 13 && s[i + 1] == 10 && s[i + 2] == 13 && s[i + 3] == 10
  }

  lemma TextEnds(s: seq<Byte>, n: nat)
    requires n <= |s| && 0 !in s[..n] && (n == |s| || s[n] == 0)
    ensures Text(s) == s[..n]
  {
    forall k | 0 <= k < n ensures s[k] != 0 {
      assert s[k] == s[..n][k];
    }
    FindIs(s, 0, n);
  }

  lemma TextOfPadded(s: seq<Byte>, n: nat)
    ensures Text(s + Zeros(n)) == Text(s)
  {
    FindFirst(s, 0);
    assert (s + Zeros(n))[..Find(s, 0)] == s[..Find(s, 0)];
    TextEnds(s + Zeros(n), Find(s, 0));
  }

  lemma CompleteIfHalted(script: seq<Outcome>, room: nat, available: nat)
    ensures Halt(script, room, available).Complete? ==> Amount(script, room, available) == Min(room, available)
  {
    if Halt(script, room, available).Complete? { CompleteMovesAll(script, room, available); }
  }

  // ---- Reading a request ----------------------------------------------------------

  // How much of the client's bytes has been read when read_request stops, why, and
  // what is left of the socket's script.
  datatype Arrival = Arrival(count: nat, stop: Stop, rest: seq<Outcome>)

  // read_request, when c bytes have been read: it is complete as soon as they hold an
  // empty line.
  function Arrive(script: seq<Outcome>, asked: seq<Byte>, c: nat): (a: Arrival)
    requires c <= |asked| && c <= MAX_OBJECT_SIZE
    ensures c <= a.count <= |asked| && a.count <= MAX_OBJECT_SIZE
  {
    if script == [] then Arrival(c, Refused(EAGAIN), [])
    else if !script[0].Move? then Arrival(c, Refused(RefusalOf(script[0])), script[1..])
    else
      var d := c + Moved(script[0].k, MAX_OBJECT_SIZE - c, |asked| - c);
      if HasEnd(Text(asked[..d])) then Arrival(d, Complete, script[1..]) else Arrive(script[1..], asked, d)
  }

  lemma ArriveStep(script: seq<Outcome>, asked: seq<Byte>, c: nat)
    requires c <= |asked| && c <= MAX_OBJECT_SIZE
    ensures script == [] ==> Arrive(script, asked, c) == Arrival(c, Refused(EAGAIN), [])
    ensures script != [] && !script[0].Move? ==>
      Arrive(script, asked, c) == Arrival(c, Refused(RefusalOf(script[0])), Rest(script))
    ensures script != [] && script[0].Move? ==>
      var d := c + Moved(script[0].k, MAX_OBJECT_SIZE - c, |asked| - c);
      Arrive(script, asked, c) ==
        if HasEnd(Text(asked[..d])) then Arrival(d, Complete, Rest(script)) else Arrive(Rest(script), asked, d)
  {
  }

  lemma {:induction false} FindsLater(s: seq<Byte>, n: nat)
    requires n <= |s| && forall k :: 0 <= k < n ==> s[k] != 0
    ensures n <= Find(s, 0)
  {
    if n > 0 { FindsLater(s[1..], n - 1); }
  }

  lemma TextGrows(s: seq<Byte>, n: nat, d: nat)
    requires n <= d <= |s|
    ensures Text(s[..n]) <= Text(s[..d])
  {
    FindFirst(s[..n], 0);
    var t := Text(s[..n]);
    forall k | 0 <= k < |t| ensures s[..d][k] == t[k] != 0 {
    }
    FindsLater(s[..d], |t|);
    assert Text(s[..d])[..|t|] == t;
  }

  lemma EndStays(s: seq<Byte>, n: nat, d: nat)
    requires n <= d <= |s| && HasEnd(Text(s[..n]))
    ensures HasEnd(Text(s[..d]))
  {
    TextGrows(s, n, d);
    var t, t' := Text(s[..n]), Text(s[..d]);
    hide Text;
    var i :| 0 <= i && i + 4 <= |t| && EndAt(t, i);
    assert t'[i] == t[i] && t'[i + 1] == t[i + 1] && t'[i + 2] == t[i + 2] && t'[i + 3] == t[i + 3];
    assert EndAt(t', i);
  }

  // It is complete only with an empty line; and when the client's bytes up to n hold
  // one, it is complete as soon as the calls have moved so many.
  lemma {:induction false} ArriveComplete(script: seq<Outcome>, asked: seq<Byte>, c: nat, n: nat)
    requires c <= |asked| && c <= MAX_OBJECT_SIZE
    ensures Arrive(script, asked, c).stop.Complete? ==> HasEnd(Text(asked[..Arrive(script, asked, c).count]))
    ensures Arrive(script, asked, c).stop.Complete? || Arrive(script, asked, c).stop ==
      Refused(if |Leading(script)| == |script| then EAGAIN else RefusalOf(script[|Leading(script)|]))
    ensures c < n <= |asked| && n <= MAX_OBJECT_SIZE && HasEnd(Text(asked[..n])) ==>
      (Capacity(script) >= n - c ==> Arrive(script, asked, c).stop.Complete?)
    decreases |script|
  {
    hide HasEnd, Text;
    if script != [] && script[0].Move? {
      var d := c + Moved(script[0].k, MAX_OBJECT_SIZE - c, |asked| - c);
      ArriveComplete(script[1..], asked, d, n);
      if n <= d <= |asked| && HasEnd(Text(asked[..n])) { EndStays(asked, n, d); }
    }
  }

  // If enough calls come for the empty line to be read, read_request gets there, or it
  // would have blocked and gets there later.
  lemma {:induction false} ResumeArrive(script: seq<Outcome>, asked: seq<Byte>, c: nat)
    requires c <= |asked| && c <= MAX_OBJECT_SIZE && Arrive(Unblocked(script), asked, c).stop.Complete?
    ensures var a, count := Arrive(script, asked, c), Arrive(Unblocked(script), asked, c).count;
      || (a.stop == Complete && a.count == count)
      || (a.stop == Refused(EAGAIN) && Waits(a.rest) < Waits(script)
          && Arrive(Unblocked(a.rest), asked, a.count).stop == Complete && Arrive(Unblocked(a.rest), asked, a.count).count == count)
    decreases |script|
  {
    hide HasEnd, Text;
    if script != [] {
      WithoutFirst(script, {Refuse(EAGAIN)});
      if script[0].Move? {
        var d := c + Moved(script[0].k, MAX_OBJECT_SIZE - c, |asked| - c);
        if !HasEnd(Text(asked[..d])) { ResumeArrive(script[1..], asked, d); }
      }
    }
  }

  method Clear(buf: array<Byte>)
    modifies buf
    ensures buf[..] == Zeros(buf.Length)
  {
    forall i | 0 <= i < buf.Length {
      buf[i] := 0;
    }
  }

  lemma BlankText()
    ensures Text(Zeros(MAX_OBJECT_SIZE)) == []
  {
    TextEnds(Zeros(MAX_OBJECT_SIZE), 0);
  }

  // strcat, where there is room
  method StrCat(buf: array<Byte>, s: seq<Byte>)
    requires 0 !in s && |Text(buf[..])| + |s| <= buf.Length
    modifies buf
    ensures Text(buf[..]) == old(Text(buf[..])) + s
  {
    assert buf[0..] == buf[..];
    FindFirst(buf[..], 0);
    var n := StrLen(buf, 0, 0);
    forall i | 0 <= i < |s| {
      buf[n + i] := s[i];
    }
    if n + |s| < buf.Length {
      buf[n + |s|] := 0;
    }
    assert buf[..n + |s|] == old(buf[..n]) + s;
    TextEnds(buf[..], n + |s|);
  }

  // A zeroed buffer of `size` bytes after c bytes of s have been read into it, and
  // then m more.
  lemma PadMore(s: seq<Byte>, c: nat, m: nat, size: nat)
    requires c + m <= |s| && c + m <= size
    ensures Patched(s[..c] + Zeros(size - c), c, s[c..][..m]) == s[..c + m] + Zeros(size - (c + m))
  {
  }

  // ---- Getting to the end -----------------------------------------------------------

  // The calls still to come on the sockets are enough for the connection to get through
  // its states, however often it is stopped by a call that would block.
  ghost predicate Ready(c: Connection, w: Wires, asked: seq<Byte>)
    reads c, w.clientIn, w.serverIn, w.serverOut
    requires c.Valid() && c.bytesReadFromClient <= |asked|
  {
    var room, n := MAX_OBJECT_SIZE - c.bytesReadFromServer, |w.serverIn.incoming|;
    match c.state
    case ReadReq =>
      var a := Arrive(Unblocked(w.clientIn.script), asked, c.bytesReadFromClient);
      && a.stop.Complete? && Reformat(Text(asked[..a.count])).Reformatted?
      && var m := |Reformat(Text(asked[..a.count])).request|;
        Enough(w.serverOut.script, m, m) && Enough(w.serverIn.script, room, n)
    case SendReq =>
      var m := c.bytesToWriteServer - c.bytesWrittenToServer;
      Enough(w.serverOut.script, m, m) && Enough(w.serverIn.script, room, n)
    case ReadRes => Enough(w.serverIn.script, room, n)
    case SendRes => true
  }

  // The number of events after which it has, at most.
  function Rank(state: State, w: Wires): nat
    reads w.clientIn, w.serverIn, w.serverOut
  {
    match state
    case ReadReq => 4 + Waits(w.clientIn.script) + Waits(w.serverOut.script) + Waits(w.serverIn.script)
    case SendReq => 3 + Waits(w.serverOut.script) + Waits(w.serverIn.script)
    case ReadRes => 2 + Waits(w.serverIn.script)
    case SendRes => 1
  }

  // When that is, for a connection just accepted whose client sends one request that
  // can be rebuilt: when the calls on its socket bring the request, and those on the
  // server's socket take the rebuilt one and bring the response, or as much of it as
  // the buffer holds.  If none of them would block, four events are enough.
  lemma ReadyWhen(c: Connection, w: Wires, asked: seq<Byte>)
    requires c.Blank() && w.serverIn.nonblocking && |asked| <= MAX_OBJECT_SIZE
    requires HasEnd(Text(asked)) && forall n :: 0 <= n < |asked| ==> !HasEnd(Text(asked[..n]))
    requires Reformat(Text(asked)).Reformatted? && Capacity(Unblocked(w.clientIn.script)) >= |asked|
    ensures var m, n := |Reformat(Text(asked)).request|, Min(MAX_OBJECT_SIZE, |w.serverIn.incoming|);
      Ready(c, w, asked) <==> Supplies(w.serverOut.script, m) && Supplies(w.serverIn.script, n)
    ensures Rank(c.state, w) == 4 <==> Refuse(EAGAIN) !in w.clientIn.script + w.serverOut.script + w.serverIn.script
  {
    assert !HasEnd([]) && Text([]) == [];
    hide HasEnd, Text, Reformat, Supplies;
    assert asked[..|asked|] == asked;
    ArriveComplete(Unblocked(w.clientIn.script), asked, 0, |asked|);
    assert Arrive(Unblocked(w.clientIn.script), asked, 0).count == |asked|;
    SuppliesIff(w.serverOut.script, |Reformat(Text(asked)).request|, |Reformat(Text(asked)).request|);
    SuppliesIff(w.serverIn.script, MAX_OBJECT_SIZE, |w.serverIn.incoming|);
    NeverWaits(w.clientIn.script);
    NeverWaits(w.serverOut.script);
    NeverWaits(w.serverIn.script);
  }

  // What the handlers keep true of a connection whose client asks `asked` and
  // whose server answers `answered`.
  ghost predicate Forwarding(c: Connection, w: Wires, asked: seq<Byte>, answered: seq<Byte>)
    reads c, c.clientRequest, c.serverRequest, c.serverResponse, w.clientIn, w.clientOut, w.serverIn, w.serverOut
  {
    && c.Valid()
    && w.clientIn != w.serverIn && w.clientOut != w.serverOut
    && w.clientIn.nonblocking && w.clientOut.nonblocking && w.serverIn.nonblocking && w.serverOut.nonblocking
    && NoIdle(w.clientOut.script) && NoIdle(w.serverOut.script)
    && c.bytesReadFromClient <= |asked| && c.bytesReadFromServer <= |answered|
    && w.clientIn.incoming == asked[c.bytesReadFromClient..]
    && w.serverIn.incoming == answered[c.bytesReadFromServer..]
    && c.clientRequest[..] == asked[..c.bytesReadFromClient] + Zeros(MAX_OBJECT_SIZE - c.bytesReadFromClient)
    && c.serverResponse[..c.bytesReadFromServer] == answered[..c.bytesReadFromServer]
    && w.serverOut.received == c.serverRequest[..c.bytesWrittenToServer]
    && w.clientOut.received == [] && c.bytesWrittenToClient == 0
    && (c.state == ReadReq ==> c.serverRequest[..] == Zeros(MAX_OBJECT_SIZE))
    && (c.state != ReadReq ==> c.Asks(Text(asked[..c.bytesReadFromClient])))
    && (c.state == SendRes ==> w.serverIn.incoming == [] || c.bytesReadFromServer == MAX_OBJECT_SIZE)
  }

  // conn_state_t
  class Connection {
    const clientRequest: array<Byte>
    const serverRequest: array<Byte>
    const serverResponse: array<Byte>
    // the server to connect to, "" before it is known
    var host: seq<Byte>
    var port: seq<Byte>
    // what the request was rebuilt as
    ghost var rebuilt: Reformatted
    var state: State
    var bytesReadFromClient: nat
    var bytesToWriteServer: nat
    var bytesWrittenToServer: nat
    var bytesReadFromServer: nat
    var bytesToWriteClient: nat
    var bytesWrittenToClient: nat

    ghost predicate Valid()
      reads this
    {
      && clientRequest.Length == serverRequest.Length == serverResponse.Length == MAX_OBJECT_SIZE
      && clientRequest != serverRequest && clientRequest != serverResponse && serverRequest != serverResponse
      && bytesReadFromClient <= MAX_OBJECT_SIZE && bytesReadFromServer <= MAX_OBJECT_SIZE
      && bytesWrittenToServer <= bytesToWriteServer <= MAX_OBJECT_SIZE
      && bytesWrittenToClient <= bytesToWriteClient <= bytesReadFromServer
      && (state == ReadReq ==> bytesToWriteServer == 0)
      && (state == ReadRes || state == SendRes ==> bytesWrittenToServer == bytesToWriteServer)
      && (state == ReadReq || state == SendReq ==> bytesReadFromServer == 0)
      && (state == SendRes ==> bytesToWriteClient == bytesReadFromServer)
    }

    // What is to be sent, and to whom, is what the complete request `text` was rebuilt
    // as.
    ghost predicate Asks(text: seq<Byte>)
      reads this, serverRequest
      requires Valid()
    {
      HasEnd(text) && rebuilt == Reformatted(host, port, serverRequest[..bytesToWriteServer])
    }

    ghost predicate Blank()
      reads this, clientRequest, serverRequest, serverResponse
    {
      && Valid() && state == ReadReq
      && host == port == [] && bytesReadFromClient == bytesWrittenToServer == bytesToWriteClient == 0
      && clientRequest[..] == serverRequest[..] == serverResponse[..] == Zeros(MAX_OBJECT_SIZE)
    }

    // init_conn_state
    method Init()
      requires Valid()
      modifies this, clientRequest, serverRequest, serverResponse
      ensures Blank()
    {
      Clear(clientRequest);
      Clear(serverRequest);
      Clear(serverResponse);
      host, port, state := [], [], ReadReq;
      bytesReadFromClient, bytesToWriteServer, bytesWrittenToServer := 0, 0, 0;
      bytesReadFromServer, bytesToWriteClient, bytesWrittenToClient := 0, 0, 0;
    }

    // reformat_client_request: the pieces of the new request are appended to what
    // server_request holds.
    method ReformatClientRequest() returns (ok: bool)
      requires Valid() && state == ReadReq && serverRequest[..] == Zeros(MAX_OBJECT_SIZE)
      modifies this`host, this`port, this`rebuilt, this`bytesToWriteServer, serverRequest
      ensures rebuilt == Reformat(Text(clientRequest[..])) && (ok <==> rebuilt.Reformatted?)
      ensures bytesToWriteServer <= MAX_OBJECT_SIZE
      ensures ok ==> rebuilt == Reformatted(host, port, serverRequest[..bytesToWriteServer])
      ensures !ok ==> bytesToWriteServer == old(bytesToWriteServer) && serverRequest[..] == old(serverRequest[..])
    {
      hide Reformat, Find;
      var text := Text(clientRequest[..]);
      FindFirst(clientRequest[..], 0);
      RequestNoNul(text);
      var result := Reformat(text);
      rebuilt := result;
      ok := result.Reformatted?;
      if ok {
        host, port := result.host, result.port;
        BlankText();
        StrCat(serverRequest, result.request);
        assert serverRequest[0..] == serverRequest[..];
        bytesToWriteServer := StrLen(serverRequest, 0, 0);
      }
    }

    // Accepting a client: the handlers start from a blank state.
    lemma Accepted(w: Wires)
      requires Blank() && w.clientIn != w.serverIn && w.clientOut != w.serverOut
      requires w.clientIn.nonblocking && w.clientOut.nonblocking && w.serverIn.nonblocking && w.serverOut.nonblocking
      requires NoIdle(w.clientOut.script) && NoIdle(w.serverOut.script)
      requires w.clientOut.received == w.serverOut.received == []
      ensures Forwarding(this, w, w.clientIn.incoming, w.serverIn.incoming)
    {
      hide Reformat, HasEnd, Text;
    }

    method ReadMore(w: Wires, ghost asked: seq<Byte>, ghost answered: seq<Byte>) returns (rc: int, errno: Errno)
      requires Forwarding(this, w, asked, answered) && state == ReadReq
      modifies this`bytesReadFromClient, clientRequest, w.clientIn
      ensures Forwarding(this, w, asked, answered)
      ensures w.clientIn.script == Rest(old(w.clientIn.script)) && (rc >= 0 ==> old(w.clientIn.script) != [])
      ensures var script, c := old(w.clientIn.script), old(bytesReadFromClient);
        if script != [] && script[0].Move? then
          rc >= 0 && bytesReadFromClient == c + Moved(script[0].k, MAX_OBJECT_SIZE - c, |asked| - c)
        else rc < 0 && bytesReadFromClient == c && errno == if script == [] then EAGAIN else RefusalOf(script[0])
    {
      hide Reformat, HasEnd, Text, NoIdle;
      ghost var m;
      PadMore(asked, bytesReadFromClient, 0, MAX_OBJECT_SIZE);
      rc, errno, m := w.clientIn.Read(clientRequest, bytesReadFromClient, MAX_OBJECT_SIZE - bytesReadFromClient);
      TakeMore(asked, bytesReadFromClient, m);
      PadMore(asked, bytesReadFromClient, m, MAX_OBJECT_SIZE);
      if rc > 0 {
        bytesReadFromClient := bytesReadFromClient + rc;
      }
    }

    method Convert(w: Wires, ghost asked: seq<Byte>, ghost answered: seq<Byte>) returns (ok: bool)
      requires Forwarding(this, w, asked, answered) && state == ReadReq && HasEnd(Text(clientRequest[..]))
      modifies this, serverRequest
      ensures Forwarding(this, w, asked, answered)
      ensures rebuilt == Reformat(Text(asked[..bytesReadFromClient])) && (ok <==> rebuilt.Reformatted?)
      ensures bytesReadFromClient == old(bytesReadFromClient) && state == if ok then SendReq else ReadReq
    {
      hide HasEnd, Text, Reformat;
      TextOfPadded(asked[..bytesReadFromClient], MAX_OBJECT_SIZE - bytesReadFromClient);
      ok := ReformatClientRequest();
      if ok {
        state := SendReq;
      }
    }

    // read_request goes on to send_request exactly when the loop is complete and the
    // request can be rebuilt.
    method ReadRequest(w: Wires, ghost asked: seq<Byte>, ghost answered: seq<Byte>) returns (end: End)
      requires Forwarding(this, w, asked, answered) && state == ReadReq
      modifies this, clientRequest, serverRequest, w.clientIn
      ensures Forwarding(this, w, asked, answered)
      ensures var a := Arrive(old(w.clientIn.script), asked, old(bytesReadFromClient));
        && bytesReadFromClient == a.count && w.clientIn.script == a.rest
        && (a.stop.Complete? ==> rebuilt == Reformat(Text(asked[..a.count])))
        && state == (if a.stop.Complete? && rebuilt.Reformatted? then SendReq else ReadReq)
        && end == (if (a.stop.Complete? && rebuilt.Reformatted?) || a.stop == Refused(EAGAIN) then Waiting else Closed)
    {
      hide HasEnd, Text, Forwarding, Reformat, Arrive;
      ghost var script, c := w.clientIn.script, bytesReadFromClient;
      WithinAsked(w, asked, answered);
      while true
        invariant Forwarding(this, w, asked, answered) && state == ReadReq
        invariant bytesReadFromClient <= |asked| && bytesReadFromClient <= MAX_OBJECT_SIZE
        invariant Arrive(w.clientIn.script, asked, bytesReadFromClient) == Arrive(script, asked, c)
        decreases |w.clientIn.script|
      {
        ArriveStep(w.clientIn.script, asked, bytesReadFromClient);
        var rc, errno := ReadMore(w, asked, answered);
        WithinAsked(w, asked, answered);
        if rc < 0 {
          return if errno == EAGAIN then Waiting else Closed;
        }
        if HasEnd(Text(clientRequest[..])) {
          break;
        }
      }
      var ok := Convert(w, asked, answered);
      return if ok then Waiting else Closed;
    }

    // The bytes counted are bytes the client sent, and the buffer holds their text.
    lemma WithinAsked(w: Wires, asked: seq<Byte>, answered: seq<Byte>)
      requires Forwarding(this, w, asked, answered)
      ensures bytesReadFromClient <= |asked| && bytesReadFromClient <= MAX_OBJECT_SIZE
      ensures Text(clientRequest[..]) == Text(asked[..bytesReadFromClient])
    {
      hide Reformat, HasEnd, Text, NoIdle;
      TextOfPadded(asked[..bytesReadFromClient], MAX_OBJECT_SIZE - bytesReadFromClient);
    }

    // send_request goes on to read_response exactly when its writes are complete.
    method SendRequest(w: Wires, ghost asked: seq<Byte>, ghost answered: seq<Byte>) returns (end: End)
      requires Forwarding(this, w, asked, answered) && state == SendReq
      modifies this, w.serverOut
      ensures Forwarding(this, w, asked, answered)
      ensures rebuilt == old(rebuilt) && bytesReadFromClient == old(bytesReadFromClient)
      ensures var script, n := old(w.serverOut.script), old(bytesToWriteServer - bytesWrittenToServer);
        && bytesToWriteServer - bytesWrittenToServer == n - Amount(script, n, n) && w.serverOut.script == Left(script, n, n)
        && state == (if Halt(script, n, n).Complete? then ReadRes else SendReq)
        && end == (if Halt(script, n, n) == Complete || Halt(script, n, n) == Refused(EAGAIN) then Waiting else Closed)
    {
      hide Reformat, HasEnd, Text, NoIdle, Amount, Halt, Left;
      CompleteIfHalted(w.serverOut.script, bytesToWriteServer - bytesWrittenToServer, bytesToWriteServer - bytesWrittenToServer);
      var at, rc, errno := WriteLoop(w.serverOut, serverRequest, bytesWrittenToServer, bytesToWriteServer);
      Continue(serverRequest[..], 0, bytesWrittenToServer, at - bytesWrittenToServer);
      bytesWrittenToServer := at;
      if rc == 0 {
        state := ReadRes;
      }
      return if rc == 0 || errno == EAGAIN then Waiting else Closed;
    }

    // read_response goes on to send_response exactly when its reads are complete.
    method ReadResponse(w: Wires, ghost asked: seq<Byte>, ghost answered: seq<Byte>) returns (end: End)
      requires Forwarding(this, w, asked, answered) && state == ReadRes
      modifies this, serverResponse, w.serverIn
      ensures Forwarding(this, w, asked, answered)
      ensures rebuilt == old(rebuilt) && bytesReadFromClient == old(bytesReadFromClient)
      ensures var script, room, n := old(w.serverIn.script), MAX_OBJECT_SIZE - old(bytesReadFromServer), |old(w.serverIn.incoming)|;
        && bytesReadFromServer == old(bytesReadFromServer) + Amount(script, room, n)
        && |w.serverIn.incoming| == n - Amount(script, room, n) && w.serverIn.script == Left(script, room, n)
        && state == (if Halt(script, room, n).Complete? then SendRes else ReadRes)
        && end == (if Halt(script, room, n) == Complete || Halt(script, room, n) == Refused(EAGAIN) then Waiting else Closed)
    {
      hide Reformat, HasEnd, Text, NoIdle, Amount, Halt, Left;
      CompleteIfHalted(w.serverIn.script, MAX_OBJECT_SIZE - bytesReadFromServer, |w.serverIn.incoming|);
      var at, rc, errno := ReadLoop(w.serverIn, serverResponse, bytesReadFromServer);
      TakeMore(answered, bytesReadFromServer, at - bytesReadFromServer);
      bytesReadFromServer := at;
      bytesToWriteClient := bytesReadFromServer;
      if rc == 0 {
        state := SendRes;
      }
      return if rc == 0 || errno == EAGAIN then Waiting else Closed;
    }

    // send_response runs once: whatever its writes do not get through is lost.
    method SendResponse(w: Wires, ghost asked: seq<Byte>, ghost answered: seq<Byte>)
      requires Forwarding(this, w, asked, answered) && state == SendRes
      modifies this`bytesWrittenToClient, w.clientOut
      ensures Valid() && w.clientOut.received == answered[..Min(Capacity(old(w.clientOut.script)), Min(|answered|, MAX_OBJECT_SIZE))]
    {
      hide Reformat, HasEnd, Text, NoIdle, Amount, Halt, Left;
      AmountIsMin(w.clientOut.script, bytesToWriteClient, bytesToWriteClient);
      var at, rc, errno := WriteLoop(w.clientOut, serverResponse, bytesWrittenToClient, bytesToWriteClient);
      bytesWrittenToClient := at;
    }

    // Each handler, in terms of Ready and Rank.
    method ReadRequestReady(w: Wires, ghost asked: seq<Byte>, ghost answered: seq<Byte>) returns (end: End)
      requires Forwarding(this, w, asked, answered) && state == ReadReq
      modifies this, clientRequest, serverRequest, w.clientIn
      ensures Forwarding(this, w, asked, answered) && !end.Reset?
      ensures state != ReadReq ==> rebuilt == Reformat(Text(asked[..bytesReadFromClient]))
      ensures old(Ready(this, w, asked)) ==> end.Waiting? && Ready(this, w, asked) && Rank(state, w) < old(Rank(state, w))
    {
      hide Reformat, HasEnd, Text, Arrive;
      if Ready(this, w, asked) {
        ResumeArrive(w.clientIn.script, asked, bytesReadFromClient);
      }
      end := ReadRequest(w, asked, answered);
    }

    method SendRequestReady(w: Wires, ghost asked: seq<Byte>, ghost answered: seq<Byte>) returns (end: End)
      requires Forwarding(this, w, asked, answered) && state == SendReq
      modifies this, w.serverOut
      ensures Forwarding(this, w, asked, answered) && !end.Reset? && (state == SendReq || state == ReadRes)
      ensures rebuilt == old(rebuilt) && bytesReadFromClient == old(bytesReadFromClient)
      ensures old(Ready(this, w, asked)) ==> end.Waiting? && Ready(this, w, asked) && Rank(state, w) < old(Rank(state, w))
    {
      hide Reformat, HasEnd, Text, Arrive, Amount, Halt, Left, Enough;
      if Ready(this, w, asked) {
        Resume(w.serverOut.script, bytesToWriteServer - bytesWrittenToServer, bytesToWriteServer - bytesWrittenToServer);
      }
      end := SendRequest(w, asked, answered);
    }

    method ReadResponseReady(w: Wires, ghost asked: seq<Byte>, ghost answered: seq<Byte>) returns (end: End)
      requires Forwarding(this, w, asked, answered) && state == ReadRes
      modifies this, serverResponse, w.serverIn
      ensures Forwarding(this, w, asked, answered) && !end.Reset? && (state == ReadRes || state == SendRes)
      ensures rebuilt == old(rebuilt) && bytesReadFromClient == old(bytesReadFromClient)
      ensures old(Ready(this, w, asked)) ==> end.Waiting? && Ready(this, w, asked) && Rank(state, w) < old(Rank(state, w))
    {
      hide Reformat, HasEnd, Text, Arrive, Amount, Halt, Left, Enough;
      if Ready(this, w, asked) {
        Resume(w.serverIn.script, MAX_OBJECT_SIZE - bytesReadFromServer, |w.serverIn.incoming|);
      }
      end := ReadResponse(w, asked, answered);
    }

    // One event on either socket of the connection.
    method HandleEvent(w: Wires, ghost asked: seq<Byte>, ghost answered: seq<Byte>) returns (end: End)
      requires Forwarding(this, w, asked, answered)
      modifies this, clientRequest, serverRequest, serverResponse, w.clientIn, w.clientOut, w.serverIn, w.serverOut
      ensures end.Reset? <==> old(state) == SendRes
      ensures !end.Reset? ==> Forwarding(this, w, asked, answered) && w.clientOut.script == old(w.clientOut.script)
      ensures !end.Reset? && old(state) != ReadReq ==>
        state != ReadReq && rebuilt == old(rebuilt) && bytesReadFromClient == old(bytesReadFromClient)
      ensures old(state) == ReadReq && state != ReadReq ==> rebuilt == Reformat(Text(asked[..bytesReadFromClient]))
      ensures end.Reset? ==> Blank() && HasEnd(Text(asked[..old(bytesReadFromClient)]))
      ensures end.Reset? ==> old(rebuilt).Reformatted? && w.serverOut.received == old(rebuilt).request
      ensures end.Reset? ==>
        w.clientOut.received == answered[..Min(Capacity(old(w.clientOut.script)), Min(|answered|, MAX_OBJECT_SIZE))]
      ensures !end.Reset? && old(Ready(this, w, asked)) ==>
        end.Waiting? && Ready(this, w, asked) && Rank(state, w) < old(Rank(state, w))
    {
      hide Reformat, HasEnd, Text, NoIdle, Ready, Rank, Capacity;
      match state {
        case ReadReq =>
          end := ReadRequestReady(w, asked, answered);
        case SendReq =>
          end := SendRequestReady(w, asked, answered);
        case ReadRes =>
          end := ReadResponseReady(w, asked, answered);
        case SendRes =>
          SendResponse(w, asked, answered);
          Init();
          end := Reset;
      }
    }

    // The connection over any number of events.  `request` is what has been read
    // of the client's bytes.  The server never receives anything but the rebuilt
    // request, and the client nothing but the response; nothing goes to the client
    // before the server has had the whole request; and by the reset the client has
    // as much of the response as fits the buffer and its socket took without
    // blocking.  If the other sockets take and give enough, however often they would
    // have blocked, the reset comes: after four events, and one more for each time.
    method Serve(w: Wires, events: nat) returns (end: End, ghost request: seq<Byte>)
      requires Blank() && w.clientIn != w.serverIn && w.clientOut != w.serverOut
      requires w.clientIn.nonblocking && w.clientOut.nonblocking && w.serverIn.nonblocking && w.serverOut.nonblocking
      requires NoIdle(w.clientOut.script) && NoIdle(w.serverOut.script)
      requires w.clientOut.received == w.serverOut.received == []
      modifies this, clientRequest, serverRequest, serverResponse, w.clientIn, w.clientOut, w.serverIn, w.serverOut
      ensures request <= old(w.clientIn.incoming)
      ensures w.serverOut.received <= Wanted(Text(request))
      ensures Reformat(Text(request)).Malformed? ==> w.serverOut.received == []
      ensures state == ReadRes || state == SendRes || end.Reset? ==>
        HasEnd(Text(request)) && w.serverOut.received == Wanted(Text(request))
      ensures state != ReadReq ==> Reformat(Text(request)) == Reformatted(host, port, Wanted(Text(request)))
      ensures if end.Reset? then Blank() && w.clientOut.received == old(w.serverIn.incoming)[
          ..Min(Capacity(old(w.clientOut.script)), Min(|old(w.serverIn.incoming)|, MAX_OBJECT_SIZE))]
        else w.clientOut.received == []
      ensures old(Ready(this, w, w.clientIn.incoming)) && events >= old(Rank(state, w)) ==> end.Reset?
    {
      hide Reformat, Text, HasEnd, Ready, Capacity;
      ghost var asked, answered, script := w.clientIn.incoming, w.serverIn.incoming, w.clientOut.script;
      ghost var ready, rank := Ready(this, w, asked), Rank(state, w);
      Accepted(w);
      end := Waiting;
      request := [];
      var i := 0;
      while i < events && end.Waiting?
        invariant !end.Reset? ==> Forwarding(this, w, asked, answered) && w.clientOut.script == script
        invariant end.Reset? ==> Blank() && HasEnd(Text(request)) && w.serverOut.received == Wanted(Text(request))
        invariant end.Reset? ==>
          w.clientOut.received == answered[..Min(Capacity(script), Min(|answered|, MAX_OBJECT_SIZE))]
        invariant request <= asked
        invariant !end.Reset? ==> request == asked[..bytesReadFromClient]
        invariant state != ReadReq ==> rebuilt == Reformat(Text(request))
        invariant ready && !end.Reset? ==> end.Waiting? && Ready(this, w, asked) && i + Rank(state, w) <= rank
        decreases events - i
      {
        request := asked[..bytesReadFromClient];
        end := HandleEvent(w, asked, answered);
        if !end.Reset? {
          request := asked[..bytesReadFromClient];
        }
        i := i + 1;
      }
    }
  }
}

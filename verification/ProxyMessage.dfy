// What a server reads in the request that proxy-lab2/proxylab2-handout/proxy.c sends:
// a reader of HTTP messages (section 5 of RFC 1945) that knows nothing of how the
// request was put together.
module ProxyMessage {
  import opened CStrings
  import opened Kernel
  import opened ProxyRequest
  import opened Proxy

  const CR: Byte := 13
  const LF: Byte := 10

  // ---- The reader -----------------------------------------------------------------

  // Where a is first followed by b, or |s|.
  function FindPair(s: seq<Byte>, a: Byte, b: Byte): (d: nat)
    ensures d <= |s|
  {
    if |s| < 2 then |s| else if s[0] == a && s[1] == b then 0 else 1 + FindPair(s[1..], a, b)
  }

  // The lines up to the first empty one, and what follows it.
  function ReadLines(s: seq<Byte>): Option<(seq<seq<Byte>>, seq<Byte>)>
    decreases |s|
  {
    var d := FindPair(s, CR, LF);
    if d + 2 > |s| then None
    else if d == 0 then Some(([], s[2..]))
    else
      match ReadLines(s[d + 2..])
      case None => None
      case Some((lines, rest)) => Some(([s[..d]] + lines, rest))
  }

  datatype Header = Header(name: seq<Byte>, value: seq<Byte>)

  datatype Message = Message(verb: seq<Byte>, target: seq<Byte>, version: seq<Byte>, headers: seq<Header>)

  function ReadHeaders(lines: seq<seq<Byte>>): Option<seq<Header>> {
    if lines == [] then Some([])
    else
      var d := FindPair(lines[0], COLON, SPACE);
      var rest := ReadHeaders(lines[1..]);
      if d + 2 > |lines[0]| || rest.None? then None
      else Some([Header(lines[0][..d], lines[0][d + 2..])] + rest.value)
  }

  // The request line is cut at its first two spaces, a header at its first ": ".
  function ReadMessage(s: seq<Byte>): Option<Message> {
    match ReadLines(s)
    case None => None
    case Some((lines, rest)) =>
      if lines == [] || rest != [] then None
      else
        var d := Find(lines[0], SPACE);
        if d == |lines[0]| then None
        else
          var tail := lines[0][d + 1..];
          var e := Find(tail, SPACE);
          var headers := ReadHeaders(lines[1..]);
          if e == |tail| || headers.None? then None
          else Some(Message(lines[0][..d], tail[..e], tail[e + 1..], headers.value))
  }

  // ---- Lines ----------------------------------------------------------------------

  function Joined(lines: seq<seq<Byte>>): seq<Byte> {
    if lines == [] then [] else lines[0] + [CR, LF] + Joined(lines[1..])
  }

  predicate Proper(lines: seq<seq<Byte>>) {
    forall i :: 0 <= i < |lines| ==> lines[i] != [] && CR !in lines[i]
  }

  lemma {:induction false} FindPairAt(s: seq<Byte>, a: Byte, b: Byte, rest: seq<Byte>)
    requires a !in s && a != b && |rest| >= 2 && rest[0] == a && rest[1] == b
    ensures FindPair(s + rest, a, b) == |s|
  {
    if s == [] {
      assert s + rest == rest;
    } else {
      assert (s + rest)[1..] == s[1..] + rest && s[0] in s;
      FindPairAt(s[1..], a, b, rest);
    }
  }

  lemma {:induction false} JoinedRead(lines: seq<seq<Byte>>)
    requires Proper(lines)
    ensures ReadLines(Joined(lines) + [CR, LF]) == Some((lines, []))
  {
    if lines == [] {
      assert Joined(lines) + [CR, LF] == [CR, LF];
      assert FindPair([CR, LF], CR, LF) == 0 && [CR, LF][2..] == [];
    } else {
      var l, more := lines[0], Joined(lines[1..]) + [CR, LF];
      var s := Joined(lines) + [CR, LF];
      assert s == l + ([CR, LF] + more);
      FindPairAt(l, CR, LF, [CR, LF] + more);
      assert s[..|l|] == l && s[|l| + 2..] == more;
      JoinedRead(lines[1..]);
      assert [l] + lines[1..] == lines;
    }
  }

  // The empty line is at the very end and nowhere before.
  lemma {:induction false} EndOfJoined(lines: seq<seq<Byte>>, i: nat)
    requires Proper(lines) && lines != [] && i + 4 <= |Joined(lines) + [CR, LF]|
    ensures EndAt(Joined(lines) + [CR, LF], i) <==> i == |Joined(lines) + [CR, LF]| - 4
    decreases |lines|
  {
    var l, more := lines[0], Joined(lines[1..]) + [CR, LF];
    var s := Joined(lines) + [CR, LF];
    assert s == l + [CR, LF] + more;
    if i < |l| {
      assert s[i] == l[i] && l[i] in l;
    } else if lines[1..] == [] {
      assert more == [CR, LF];
    } else if i < |l| + 2 {
      assert lines[1] != [] && CR !in lines[1] && lines[1][0] in lines[1];
      assert more[0] == lines[1][0];
    } else {
      var k := i - |l| - 2;
      assert s[i] == more[k] && s[i + 1] == more[k + 1] && s[i + 2] == more[k + 2] && s[i + 3] == more[k + 3];
      EndOfJoined(lines[1..], k);
    }
  }

  // ---- The rebuilt request -----------------------------------------------------------

  function Chars(s: seq<Byte>): string {
    seq(|s|, i requires 0 <= i < |s| => s[i] as int as char)
  }

  lemma CharsOfAscii(s: string)
    requires forall i :: 0 <= i < |s| ==> 0 < s[i] as int < 128
    ensures Chars(Ascii(s)) == s
  {
  }

  lemma AsciiConcat(a: string, b: string)
    ensures Ascii(a + b) == Ascii(a) + Ascii(b)
  {
  }

  // The line of a header.
  function Printed(h: Header): seq<Byte> { h.name + Ascii(": ") + h.value }

  function Sent(host: seq<Byte>, port: seq<Byte>): seq<Header> {
    [Header(Ascii("Host"), host + Ascii(":") + port),
     Header(Ascii("User-Agent"), Ascii("Mozilla/5.0 (X11; Linux x86_64; rv:10.0.3)" + " Gecko/20120305 Firefox/10.0.3")),
     Header(Ascii("Connection"), Ascii("close")),
     Header(Ascii("Proxy-Connection"), Ascii("close"))]
  }

  function Lines(headers: seq<Header>): seq<seq<Byte>> {
    seq(|headers|, i requires 0 <= i < |headers| => Printed(headers[i]))
  }

  function RequestLine(verb: seq<Byte>, uri: seq<Byte>): seq<Byte> {
    verb + ([SPACE] + ([SLASH] + uri + ([SPACE] + Ascii("HTTP/1.0"))))
  }

  lemma {:induction false} HeadersRead(headers: seq<Header>)
    requires forall i :: 0 <= i < |headers| ==> COLON !in headers[i].name
    ensures ReadHeaders(Lines(headers)) == Some(headers)
  {
    if headers != [] {
      var h := headers[0];
      assert Lines(headers)[0] == Printed(h) && Lines(headers)[1..] == Lines(headers[1..]);
      assert Printed(h) == h.name + (Ascii(": ") + h.value);
      FindPairAt(h.name, COLON, SPACE, Ascii(": ") + h.value);
      assert Printed(h)[..|h.name|] == h.name && Printed(h)[|h.name| + 2..] == h.value;
      HeadersRead(headers[1..]);
      assert [h] + headers[1..] == headers;
    }
  }

  // A message in its parts is read back.
  lemma MessageRead(verb: seq<Byte>, uri: seq<Byte>, headers: seq<Header>)
    requires SPACE !in verb && SPACE !in uri
    requires forall i :: 0 <= i < |headers| ==> COLON !in headers[i].name
    requires Proper([RequestLine(verb, uri)] + Lines(headers))
    ensures ReadMessage(Joined([RequestLine(verb, uri)] + Lines(headers)) + [CR, LF])
      == Some(Message(verb, [SLASH] + uri, Ascii("HTTP/1.0"), headers))
  {
    hide ReadLines, Joined, ReadHeaders, Lines, Proper, Find, Ascii;
    var first, lines := RequestLine(verb, uri), [RequestLine(verb, uri)] + Lines(headers);
    JoinedRead(lines);
    assert lines[0] == first && lines[1..] == Lines(headers);
    HeadersRead(headers);
    var target, version := [SLASH] + uri, Ascii("HTTP/1.0");
    FindAfter(verb, SPACE, [SPACE] + (target + ([SPACE] + version)));
    assert first[..|verb|] == verb && first[|verb| + 1..] == target + ([SPACE] + version);
    FindAfter(target, SPACE, [SPACE] + version);
    var tail := target + ([SPACE] + version);
    assert tail[..|target|] == target && tail[|target| + 1..] == version;
  }

  lemma HeaderText(name: string, value: string)
    ensures Ascii(name + ": " + value + "\r\n") == Printed(Header(Ascii(name), Ascii(value))) + [CR, LF]
  {
    AsciiConcat(name + ": " + value, "\r\n");
    AsciiConcat(name + ": ", value);
    AsciiConcat(name, ": ");
    assert Ascii("\r\n") == [CR, LF];
    hide Ascii;
  }

  lemma FixedHeaders(host: seq<Byte>, port: seq<Byte>)
    ensures Ascii(USER_AGENT) == Printed(Sent(host, port)[1]) + [CR, LF]
    ensures Ascii(CONNECTION) == Printed(Sent(host, port)[2]) + [CR, LF]
    ensures Ascii(PROXY_CONNECTION) == Printed(Sent(host, port)[3]) + [CR, LF]
  {
    assert "User-Agent" + ": " == "User-Agent: ";
    assert "Connection" + ": " + "close" + "\r\n" == CONNECTION;
    assert "Proxy-Connection" + ": " + "close" + "\r\n" == PROXY_CONNECTION;
    hide Ascii, Printed;
    HeaderText("User-Agent", AGENT);
    HeaderText("Connection", "close");
    HeaderText("Proxy-Connection", "close");
  }

  lemma FirstLines(verb: seq<Byte>, uri: seq<Byte>, host: seq<Byte>, port: seq<Byte>)
    ensures verb + Ascii(" /") + uri + Ascii(" HTTP/1.0") == RequestLine(verb, uri)
    ensures Ascii("Host: ") + host + Ascii(":") + port == Printed(Sent(host, port)[0])
  {
    assert Ascii(" /") == [SPACE] + [SLASH];
    assert Ascii(" HTTP/1.0") == [SPACE] + Ascii("HTTP/1.0");
    assert Ascii("Host: ") == Ascii("Host") + Ascii(": ");
    hide Ascii;
    assert Ascii("Host") + Ascii(": ") + (host + Ascii(":") + port)
      == Ascii("Host") + Ascii(": ") + host + Ascii(":") + port;
  }

  lemma JoinedCons(line: seq<Byte>, lines: seq<seq<Byte>>)
    ensures Joined([line] + lines) == line + [CR, LF] + Joined(lines)
  {
    assert ([line] + lines)[1..] == lines;
  }

  lemma JoinedFour(a: seq<Byte>, h: seq<Header>)
    requires |h| == 4
    ensures Joined([a] + Lines(h)) == a + [CR, LF] + (Printed(h[0]) + [CR, LF] + (Printed(h[1]) + [CR, LF]
      + (Printed(h[2]) + [CR, LF] + (Printed(h[3]) + [CR, LF]))))
  {
    hide Printed;
    var b, c, d, e := Printed(h[0]), Printed(h[1]), Printed(h[2]), Printed(h[3]);
    assert Lines(h) == [b] + ([c] + ([d] + ([e] + []))) && Joined([]) == [];
    hide Joined, Lines;
    JoinedCons(a, Lines(h));
    JoinedCons(b, [c] + ([d] + ([e] + [])));
    JoinedCons(c, [d] + ([e] + []));
    JoinedCons(d, [e] + []);
    JoinedCons(e, []);
  }

  // The code puts the request together from just these lines.
  lemma RequestJoined(verb: seq<Byte>, uri: seq<Byte>, host: seq<Byte>, port: seq<Byte>)
    ensures Request(verb, uri, host, port) == Joined([RequestLine(verb, uri)] + Lines(Sent(host, port))) + [CR, LF]
  {
    assert Ascii("\r\n") == [CR, LF];
    hide Ascii, Joined, Lines, Printed, RequestLine, Sent;
    var h := Sent(host, port);
    FirstLines(verb, uri, host, port);
    FixedHeaders(host, port);
    JoinedFour(RequestLine(verb, uri), h);
  }

  predicate Printable(verb: seq<Byte>, uri: seq<Byte>, host: seq<Byte>, port: seq<Byte>) {
    && SPACE !in verb && CR !in verb && SPACE !in uri && CR !in uri && CR !in host && CR !in port
  }

  lemma AsciiWithout(s: string, c: Byte)
    requires c < 63 && c as int as char !in s
    ensures c !in Ascii(s)
  {
  }

  lemma FixedText()
    ensures CR !in Ascii("HTTP/1.0") && CR !in Ascii(": ") && CR !in Ascii(":")
    ensures CR !in Ascii("User-Agent") && CR !in Ascii("Connection") && CR !in Ascii("Proxy-Connection")
    ensures COLON !in Ascii("User-Agent") && COLON !in Ascii("Connection") && COLON !in Ascii("Proxy-Connection")
    ensures CR !in Ascii("Host") && COLON !in Ascii("Host") && CR !in Ascii("close")
    ensures CR !in Ascii(AGENT)
  {
    AsciiWithout("Mozilla/5.0 (X11; Linux x86_64; rv:10.0.3)", CR);
    AsciiWithout(" Gecko/20120305 Firefox/10.0.3", CR);
    AsciiConcat("Mozilla/5.0 (X11; Linux x86_64; rv:10.0.3)", " Gecko/20120305 Firefox/10.0.3");
  }

  lemma SentProper(verb: seq<Byte>, uri: seq<Byte>, host: seq<Byte>, port: seq<Byte>)
    requires Printable(verb, uri, host, port)
    ensures Proper([RequestLine(verb, uri)] + Lines(Sent(host, port)))
    ensures forall i :: 0 <= i < 4 ==> COLON !in Sent(host, port)[i].name
  {
    FixedText();
    var h, lines := Sent(host, port), [RequestLine(verb, uri)] + Lines(Sent(host, port));
    assert |Ascii(": ")| == 2;
    hide Ascii;
    forall i | 0 <= i < |lines| ensures lines[i] != [] && CR !in lines[i] {
      assert i > 0 ==> lines[i] == Printed(h[i - 1]);
    }
  }

  // The server reads the method, the path and the host and port that were asked for,
  // in HTTP/1.0, with the three fixed headers and no other.
  lemma RequestRead(verb: seq<Byte>, uri: seq<Byte>, host: seq<Byte>, port: seq<Byte>)
    requires Printable(verb, uri, host, port)
    ensures ReadMessage(Request(verb, uri, host, port))
      == Some(Message(verb, [SLASH] + uri, Ascii("HTTP/1.0"), Sent(host, port)))
  {
    hide ReadMessage, Request, Joined, Proper, RequestLine, Lines, Ascii;
    SentProper(verb, uri, host, port);
    MessageRead(verb, uri, Sent(host, port));
    RequestJoined(verb, uri, host, port);
  }

  // Its empty line is at its very end and nowhere before, so it is complete only there.
  lemma RequestEnds(verb: seq<Byte>, uri: seq<Byte>, host: seq<Byte>, port: seq<Byte>, n: nat)
    requires Printable(verb, uri, host, port) && n <= |Request(verb, uri, host, port)|
    ensures HasEnd(Request(verb, uri, host, port)[..n]) <==> n == |Request(verb, uri, host, port)|
  {
    var s, lines := Request(verb, uri, host, port), [RequestLine(verb, uri)] + Lines(Sent(host, port));
    hide Request, Lines, Sent, RequestLine;
    SentProper(verb, uri, host, port);
    RequestJoined(verb, uri, host, port);
    assert |Joined(lines)| >= 2;
    hide Printable, Proper, Joined;
    forall i: nat | i + 4 <= n ensures EndAt(s[..n], i) <==> i == |s| - 4 {
      EndOfJoined(lines, i);
    }
    assert n == |s| ==> EndAt(s[..n], |s| - 4);
  }

  // What is sent for a well-formed request of a client.
  lemma RebuiltRead(verb: seq<Byte>, u: Url, rest: seq<Byte>)
    requires verb != [] && WellFormed(u) && FitsFor(verb, u)
    requires Printable(verb, u.path, u.host, u.port)
    ensures (Reformat(Line(verb, Spelled(u), rest)).Reformatted?
      && ReadMessage(Reformat(Line(verb, Spelled(u), rest)).request)
      == Some(Message(verb, [SLASH] + u.path, Ascii("HTTP/1.0"), Sent(u.host, PortOf(u)))))
  {
    assert Printable(verb, u.path, u.host, PortOf(u));
    hide ReadMessage, Request, Reformat, Line, Spelled, WellFormed, FitsFor, Ascii, Sent, PortOf;
    WellFormedRequest(verb, u, rest);
    RequestRead(verb, u.path, u.host, PortOf(u));
  }

  // So whatever part of a well-formed request the proxy had read when it found the
  // empty line, the server reads the method, the path and the host that were asked for.
  lemma ServedRead(verb: seq<Byte>, u: Url, rest: seq<Byte>, request: seq<Byte>)
    requires verb != [] && WellFormed(u) && FitsFor(verb, u)
    requires Printable(verb, u.path, u.host, u.port)
    requires 0 !in Line(verb, Spelled(u), rest)
    requires forall n :: 0 <= n < |Line(verb, Spelled(u), rest)| ==> !HasEnd(Line(verb, Spelled(u), rest)[..n])
    requires request <= Line(verb, Spelled(u), rest) && HasEnd(Text(request))
    ensures ReadMessage(Wanted(Text(request)))
      == Some(Message(verb, [SLASH] + u.path, Ascii("HTTP/1.0"), Sent(u.host, PortOf(u))))
  {
    hide HasEnd, Line, Spelled, WellFormed, FitsFor, Reformat, ReadMessage, PortOf, Sent, Printable, Ascii;
    var line := Line(verb, Spelled(u), rest);
    assert Text(request) == line[..|Text(request)|];
    assert Text(request) == line;
    RebuiltRead(verb, u, rest);
  }
}

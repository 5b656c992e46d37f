// reformat_client_request of proxy-lab2/proxylab2-handout/proxy.c: the request
// that the proxy sends in place of the one it received.
module ProxyRequest {
  import opened CStrings
  import opened Kernel

  const MAX_OBJECT_SIZE := 102400
  const MAX_HOST_SIZE := 1024
  const MAX_PORT_SIZE := 16
  const MAX_METHOD_SIZE := 32
  const MAX_URI_SIZE := 4096

  const SPACE: Byte := 32
  const SLASH: Byte := 47
  const COLON: Byte := 58

  const AGENT := "Mozilla/5.0 (X11; Linux x86_64; rv:10.0.3)" + " Gecko/20120305 Firefox/10.0.3"
  const USER_AGENT := "User-Agent: " + AGENT + "\r\n"
  const CONNECTION := "Connection: close\r\n"
  const PROXY_CONNECTION := "Proxy-Connection: close\r\n"

  // The ASCII codes of a string constant.
  function Ascii(s: string): (r: seq<Byte>)
    ensures |r| == |s| && 0 !in r
  {
    seq(|s|, i requires 0 <= i < |s| => if 0 < s[i] as int < 128 then s[i] as int as Byte else 63)
  }

  // Malformed: the code would go on with a null pointer or a URI it never set, read
  // what was left in a buffer, or write past the end of one.
  datatype Reformatted = Malformed | Reformatted(host: seq<Byte>, port: seq<Byte>, request: seq<Byte>)

  // What follows the NUL that strtok writes at position d of s, if it does.
  function Beyond(s: seq<Byte>, d: nat): Option<seq<Byte>> {
    if d < |s| then Some(s[d + 1..]) else None
  }

  // The code: the method is the first token; from its length and that of the scheme
  // on -- counted from the start of the request, spaces in front or not -- the next
  // token is the URL.
  function Reformat(request: seq<Byte>): Reformatted {
    var verb := Token(request, SPACE);
    var end := TokenEnd(request, SPACE);
    var from := |verb| + 8;
    if verb == [] || from > |request| then Malformed
    else if from <= end then Target(verb, request[from..end], Beyond(request, end))
    else Target(verb, request[from..], None)
  }

  // `text` is what strtok is given to find the URL in, and `more` what lies behind it.
  function Target(verb: seq<Byte>, text: seq<Byte>, more: Option<seq<Byte>>): Reformatted {
    var end := TokenEnd(text, SPACE);
    FromUrl(verb, Token(text, SPACE), if end < |text| then Beyond(text, end) else more)
  }

  // The parts of the URL without its scheme.  If no slash ends the authority, the URI
  // is what follows the NUL after the URL, if that is part of the request.
  function FromUrl(verb: seq<Byte>, url: seq<Byte>, after: Option<seq<Byte>>): Reformatted {
    var d := TokenEnd(url, SLASH);
    if url == [] || SLASH !in url || (d == |url| && after == None) then Malformed
    else Assembled(verb, url, if d < |url| then url[d + 1..] else after.value)
  }

  function HostPort(url: seq<Byte>): seq<Byte> { url[..TokenEnd(url, SLASH)] }

  function Host(url: seq<Byte>): seq<Byte> {
    if COLON in HostPort(url) then HostPort(url)[..TokenEnd(HostPort(url), COLON)] else HostPort(url)
  }

  function Port(url: seq<Byte>): seq<Byte> {
    var colon := Find(HostPort(url), COLON);
    if colon < |HostPort(url)| then HostPort(url)[colon + 1..] else Ascii("80")
  }

  // Everything with its NUL fits the buffer it is copied to.
  predicate Fits(verb: seq<Byte>, url: seq<Byte>, uri: seq<Byte>) {
    && |verb| < MAX_METHOD_SIZE && |uri| < MAX_URI_SIZE && |url| < MAX_HOST_SIZE + MAX_PORT_SIZE
    && |HostPort(url)| < MAX_HOST_SIZE && |Port(url)| < MAX_PORT_SIZE
    && |Request(verb, uri, Host(url), Port(url))| < MAX_OBJECT_SIZE
  }

  function Assembled(verb: seq<Byte>, url: seq<Byte>, uri: seq<Byte>): Reformatted {
    if Fits(verb, url, uri) then Reformatted(Host(url), Port(url), Request(verb, uri, Host(url), Port(url)))
    else Malformed
  }

  function Request(verb: seq<Byte>, uri: seq<Byte>, host: seq<Byte>, port: seq<Byte>): seq<Byte> {
    verb + Ascii(" /") + uri + Ascii(" HTTP/1.0") + Ascii("\r\n")
    + Ascii("Host: ") + host + Ascii(":") + port + Ascii("\r\n")
    + Ascii(USER_AGENT) + Ascii(CONNECTION) + Ascii(PROXY_CONNECTION) + Ascii("\r\n")
  }

  // ---- What the code promises for a well-formed request --------------------------

  // An absolute URI as section 5.1.2 of RFC 1945 has it; an empty port stands for none.
  datatype Url = Url(host: seq<Byte>, port: seq<Byte>, path: seq<Byte>)

  predicate WellFormed(u: Url) {
    && u.host != [] && SLASH !in u.host && COLON !in u.host && SPACE !in u.host
    && SLASH !in u.port && SPACE !in u.port && SPACE !in u.path
  }

  function PortOf(u: Url): seq<Byte> { if u.port == [] then Ascii("80") else u.port }

  function Authority(u: Url): seq<Byte> {
    if u.port == [] then u.host else u.host + [COLON] + u.port
  }

  function Spelled(u: Url): seq<Byte> {
    Authority(u) + [SLASH] + u.path
  }

  // The request line and headers that a client sends.
  function Line(verb: seq<Byte>, url: seq<Byte>, rest: seq<Byte>): seq<Byte> {
    verb + ([SPACE] + Ascii("http://") + url + ([SPACE] + rest))
  }

  // A nonempty first token.
  lemma FirstToken(a: seq<Byte>, c: Byte, b: seq<Byte>)
    requires a != [] && c !in a && (b == [] || b[0] == c)
    ensures Lead(a + b, c) == 0 && TokenEnd(a + b, c) == |a| && Token(a + b, c) == a
  {
    assert (a + b)[0] == a[0] && a[0] in a && (a + b)[0..] == a + b;
    FindAfter(a, c, b);
  }

  lemma UrlParts(u: Url)
    requires WellFormed(u)
    ensures TokenEnd(Spelled(u), SLASH) == |Authority(u)| < |Spelled(u)|
    ensures HostPort(Spelled(u)) == Authority(u) && Spelled(u)[|Authority(u)| + 1..] == u.path
  {
    var a, url := Authority(u), Spelled(u);
    assert url == a + ([SLASH] + u.path);
    FirstToken(a, SLASH, [SLASH] + u.path);
    hide TokenEnd, Token;
    assert url[..|a|] == a && url[|a| + 1..] == u.path;
  }

  lemma AuthorityParts(u: Url, url: seq<Byte>)
    requires WellFormed(u) && HostPort(url) == Authority(u)
    ensures Host(url) == u.host && Port(url) == PortOf(u)
  {
    var a := Authority(u);
    if u.port == [] {
      FindAfter(a, COLON, []);
      assert a + [] == a;
    } else {
      assert a == u.host + ([COLON] + u.port) && a[|u.host|] == COLON;
      FindAfter(u.host, COLON, [COLON] + u.port);
      FirstToken(u.host, COLON, [COLON] + u.port);
      hide TokenEnd, Token;
      assert a[..|u.host|] == u.host && a[|u.host| + 1..] == u.port;
    }
  }

  // The request of a client is split at its first two spaces.
  lemma LineSplits(verb: seq<Byte>, url: seq<Byte>, rest: seq<Byte>)
    requires verb != [] && SPACE !in verb && url != [] && SPACE !in url
    ensures Reformat(Line(verb, url, rest)) == FromUrl(verb, url, Some(rest))
  {
    hide FromUrl, Find, Lead;
    var line, scheme, tail := Line(verb, url, rest), [SPACE] + Ascii("http://"), [SPACE] + rest;
    assert line == verb + (scheme + url + tail) && |scheme| == 8;
    FirstToken(verb, SPACE, scheme + url + tail);
    assert line[|verb| + 8..] == url + tail;
    FirstToken(url, SPACE, tail);
    assert (url + tail)[|url| + 1..] == rest;
  }

  function Blanks(k: nat): seq<Byte> { seq(k, _ => SPACE) }

  lemma TokenAfterBlanks(k: nat, a: seq<Byte>, b: seq<Byte>)
    requires a != [] && SPACE !in a && (b == [] || b[0] == SPACE)
    ensures TokenEnd(Blanks(k) + (a + b), SPACE) == k + |a| && Token(Blanks(k) + (a + b), SPACE) == a
  {
    var s := Blanks(k) + (a + b);
    assert s[k] == a[0] && a[0] in a;
    LeadIs(s, SPACE, k);
    FindAfter(a, SPACE, b);
    assert s[k..] == a + b && s[k..k + |a|] == a;
  }

  lemma SchemeText(i: nat)
    requires i <= 7
    ensures SPACE !in Ascii("http://")[i..]
  {
  }

  // Spaces in front of a request are passed over to find the method, but still counted
  // to find the URL.  Up to seven of them leave so much of the scheme in front of it...
  lemma FewSpacesInFront(k: nat, verb: seq<Byte>, url: seq<Byte>, rest: seq<Byte>)
    requires k < 8 && verb != [] && SPACE !in verb && url != [] && SPACE !in url
    ensures Reformat(Blanks(k) + Line(verb, url, rest)) == FromUrl(verb, Ascii("http://")[7 - k..] + url, Some(rest))
  {
    hide FromUrl, Find, Lead, TokenEnd, Token, Ascii;
    var http, tail := Ascii("http://"), [SPACE] + rest;
    var text := Blanks(k) + Line(verb, url, rest);
    assert Line(verb, url, rest) == verb + ([SPACE] + http + url + tail);
    TokenAfterBlanks(k, verb, [SPACE] + http + url + tail);
    SchemeText(7 - k);
    var part := http[7 - k..] + url;
    assert text[|verb| + 8..] == part + tail == Blanks(0) + (part + tail);
    TokenAfterBlanks(0, part, tail);
    assert (part + tail)[|part| + 1..] == rest;
  }

  lemma EndOfMethod(k: nat, verb: seq<Byte>, more: seq<Byte>)
    requires k >= 8 && SPACE !in verb
    ensures var text, m := Blanks(k) + (verb + ([SPACE] + more)), Min(|verb|, k - 8);
      && text[|verb| + 8..k + |verb|] == Blanks(k - 8 - m) + (verb[|verb| - m..] + [])
      && text[k + |verb| + 1..] == more && |text| == k + |verb| + 1 + |more|
  {
  }

  lemma TokenAtEnd(k: nat, part: seq<Byte>)
    requires SPACE !in part && (part == [] ==> k == 0)
    ensures Token(Blanks(k) + (part + []), SPACE) == part
    ensures TokenEnd(Blanks(k) + (part + []), SPACE) == k + |part| == |Blanks(k) + (part + [])|
  {
    if part != [] {
      TokenAfterBlanks(k, part, []);
    } else {
      assert Blanks(k) + (part + []) == [];
    }
  }

  lemma LateUrl(text: seq<Byte>, end: nat, verb: seq<Byte>, k: nat, part: seq<Byte>)
    requires verb != [] && Token(text, SPACE) == verb && TokenEnd(text, SPACE) == end
    requires |verb| + 8 <= end < |text| && text[|verb| + 8..end] == Blanks(k) + (part + [])
    requires SPACE !in part && (part == [] ==> k == 0)
    ensures Reformat(text) == FromUrl(verb, part, Some(text[end + 1..]))
  {
    hide FromUrl, TokenEnd, Token, Blanks;
    TokenAtEnd(k, part);
  }

  // ...and of more of them as many characters, from the ninth on, are taken from the
  // end of the method, if it has them, for the URL.
  lemma ManySpacesInFront(k: nat, verb: seq<Byte>, more: seq<Byte>)
    requires k >= 8 && verb != [] && SPACE !in verb
    ensures Reformat(Blanks(k) + (verb + ([SPACE] + more)))
      == FromUrl(verb, verb[|verb| - Min(|verb|, k - 8)..], Some(more))
  {
    hide FromUrl, TokenEnd, Token, Blanks, Reformat;
    TokenAfterBlanks(k, verb, [SPACE] + more);
    EndOfMethod(k, verb, more);
    var m := Min(|verb|, k - 8);
    LateUrl(Blanks(k) + (verb + ([SPACE] + more)), k + |verb|, verb, k - 8 - m, verb[|verb| - m..]);
  }

  lemma SpelledParts(u: Url)
    requires WellFormed(u)
    ensures SPACE !in Spelled(u) && Spelled(u) != [] && SLASH in Spelled(u)
  {
    assert Spelled(u)[|Authority(u)|] == SLASH;
  }

  // Whatever follows the URL, a request for it is rebuilt as one for its path, to its
  // host, on its port or else on 80, if and only if its parts fit their buffers.
  lemma WellFormedRequest(verb: seq<Byte>, u: Url, rest: seq<Byte>)
    requires verb != [] && SPACE !in verb && WellFormed(u)
    ensures Reformat(Line(verb, Spelled(u), rest)) ==
      if FitsFor(verb, u) then Reformatted(u.host, PortOf(u), Request(verb, u.path, u.host, PortOf(u))) else Malformed
  {
    SpelledParts(u);
    hide Reformat, Spelled, Request, Host, Port, HostPort, TokenEnd, WellFormed;
    LineSplits(verb, Spelled(u), rest);
    UrlParts(u);
    AuthorityParts(u, Spelled(u));
  }

  predicate FitsFor(verb: seq<Byte>, u: Url) {
    && |verb| < MAX_METHOD_SIZE && |u.path| < MAX_URI_SIZE && |Spelled(u)| < MAX_HOST_SIZE + MAX_PORT_SIZE
    && |Authority(u)| < MAX_HOST_SIZE && |PortOf(u)| < MAX_PORT_SIZE
    && |Request(verb, u.path, u.host, PortOf(u))| < MAX_OBJECT_SIZE
  }

  // For any URL, whatever it begins with, the code gets through if and only if there
  // is a slash in it and everything fits.
  lemma SlashNeededIff(verb: seq<Byte>, url: seq<Byte>, rest: seq<Byte>)
    requires verb != [] && SPACE !in verb && url != [] && SPACE !in url
    ensures var d := TokenEnd(url, SLASH);
      Reformat(Line(verb, url, rest)) != Malformed
      <==> SLASH in url && Fits(verb, url, if d < |url| then url[d + 1..] else rest)
    ensures url[0] != SLASH ==> (SLASH in url <==> TokenEnd(url, SLASH) < |url|)
  {
    LineSplits(verb, url, rest);
    if url[0] != SLASH {
      FindFirst(url, SLASH);
      assert url[0..] == url && (SLASH !in url ==> Find(url, SLASH) == |url|);
      assert Find(url, SLASH) == |url| ==> url[..|url|] == url;
    }
  }

  // ---- NULs ------------------------------------------------------------------

  lemma PartNoNul(s: seq<Byte>, i: nat, j: nat)
    requires 0 !in s && i <= j <= |s|
    ensures 0 !in s[i..j]
  {
  }

  lemma TokenNoNul(s: seq<Byte>, c: Byte)
    requires 0 !in s
    ensures 0 !in Token(s, c)
  {
    PartNoNul(s, Lead(s, c), TokenEnd(s, c));
  }

  lemma HostNoNul(url: seq<Byte>)
    requires 0 !in url
    ensures 0 !in Host(url) && 0 !in Port(url)
  {
    hide Find, Lead, TokenEnd;
    var hostPort := HostPort(url);
    PartNoNul(url, 0, TokenEnd(url, SLASH));
    PartNoNul(hostPort, 0, TokenEnd(hostPort, COLON));
    if Find(hostPort, COLON) < |hostPort| { PartNoNul(hostPort, Find(hostPort, COLON) + 1, |hostPort|); }
  }

  lemma PiecesNoNul(verb: seq<Byte>, uri: seq<Byte>, host: seq<Byte>, port: seq<Byte>)
    requires 0 !in verb && 0 !in uri && 0 !in host && 0 !in port
    ensures 0 !in Request(verb, uri, host, port)
  {
    hide Ascii;
  }

  lemma UrlNoNul(verb: seq<Byte>, url: seq<Byte>, after: Option<seq<Byte>>)
    requires 0 !in verb && 0 !in url && (after.Some? ==> 0 !in after.value)
    ensures var r := FromUrl(verb, url, after); r.Reformatted? ==> 0 !in r.request && |r.request| < MAX_OBJECT_SIZE
  {
    hide Host, Port, Request, TokenEnd;
    var d := TokenEnd(url, SLASH);
    HostNoNul(url);
    if d < |url| {
      PartNoNul(url, d + 1, |url|);
      PiecesNoNul(verb, url[d + 1..], Host(url), Port(url));
    } else if after.Some? {
      PiecesNoNul(verb, after.value, Host(url), Port(url));
    }
  }

  // A rebuilt request is a C string if the client's is.
  lemma RequestNoNul(text: seq<Byte>)
    requires 0 !in text
    ensures Reformat(text).Reformatted? ==> 0 !in Reformat(text).request && |Reformat(text).request| < MAX_OBJECT_SIZE
  {
    hide Target, TokenEnd, Token;
    var verb, end := Token(text, SPACE), TokenEnd(text, SPACE);
    var from := |verb| + 8;
    TokenNoNul(text, SPACE);
    if verb != [] && from <= |text| {
      if end < |text| { PartNoNul(text, end + 1, |text|); }
      if from <= end {
        PartNoNul(text, from, end);
        TargetNoNul(verb, text[from..end], Beyond(text, end));
      } else {
        PartNoNul(text, from, |text|);
        TargetNoNul(verb, text[from..], None);
      }
    }
  }

  lemma TargetNoNul(verb: seq<Byte>, text: seq<Byte>, more: Option<seq<Byte>>)
    requires 0 !in verb && 0 !in text && (more.Some? ==> 0 !in more.value)
    ensures var r := Target(verb, text, more); r.Reformatted? ==> 0 !in r.request && |r.request| < MAX_OBJECT_SIZE
  {
    hide FromUrl, TokenEnd, Token;
    var end := TokenEnd(text, SPACE);
    TokenNoNul(text, SPACE);
    if end < |text| { PartNoNul(text, end + 1, |text|); }
    UrlNoNul(verb, Token(text, SPACE), if end < |text| then Beyond(text, end) else more);
  }
}

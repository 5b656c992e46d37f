// Domain names of RFC 1035 (sections 3.1 and 4.1.4), name_ascii_to_wire of
// dns-lab/resolver.c, and which encoded names can be read without their lengths.
module Dns {
  import opened CStrings

  newtype Octet = b: int | 0 <= b < 256

  const NUM_HEADER_BYTES := 12
  const MAX_SIZE := 300
  const DOT: Octet := 0x2E

  // ---- Names on the wire, as RFC 1035 has them ---------------------------------

  // The offset a compression pointer at p holds.
  function Target(wire: seq<Octet>, p: nat): nat
    requires p + 1 < |wire| && wire[p] >= 0xC0
  {
    (wire[p] as int - 0xC0) * 256 + wire[p + 1] as int
  }

  // A name stands at p: labels, ended by the root label or by a pointer to a prior
  // name.  `start` is where this run of labels began.
  predicate NameAt(wire: seq<Octet>, start: nat, p: nat)
    decreases start, |wire| - p
  {
    p < |wire| &&
    (wire[p] == 0
    || (0 < wire[p] < 64 && NameAt(wire, start, p + 1 + wire[p] as int))
    || (wire[p] >= 0xC0 && p + 1 < |wire| && Target(wire, p) < start && NameAt(wire, Target(wire, p), Target(wire, p))))
  }

  // Its labels.
  function Labels(wire: seq<Octet>, start: nat, p: nat): seq<seq<Octet>>
    requires NameAt(wire, start, p)
    decreases start, |wire| - p
  {
    if wire[p] == 0 then []
    else if wire[p] < 64 then [LabelAt(wire, start, p)] + Labels(wire, start, p + 1 + wire[p] as int)
    else Labels(wire, Target(wire, p), Target(wire, p))
  }

  function LabelAt(wire: seq<Octet>, start: nat, p: nat): seq<Octet>
    requires NameAt(wire, start, p) && 0 < wire[p] < 64
  {
    assert NameAt(wire, start, p + 1 + wire[p] as int);
    wire[p + 1..p + 1 + wire[p] as int]
  }

  // Labels with a dot before each.
  function Suffix(labels: seq<seq<Octet>>): seq<Octet> {
    if labels == [] then [] else [DOT] + labels[0] + Suffix(labels[1..])
  }

  // Labels with a dot between them.
  function Dotted(labels: seq<seq<Octet>>): seq<Octet> {
    if labels == [] then [] else labels[0] + Suffix(labels[1..])
  }

  lemma NameAtLabel(wire: seq<Octet>, start: nat, p: nat)
    requires NameAt(wire, start, p) && 0 < wire[p] < 64
    ensures p + 1 + wire[p] as int < |wire| && LabelAt(wire, start, p) == wire[p + 1..p + 1 + wire[p] as int]
  {
    assert NameAt(wire, start, p + 1 + wire[p] as int);
  }

  // The text of some labels, with or without the leading dot.
  function Joined(labels: seq<seq<Octet>>, first: bool): seq<Octet> {
    if first then Dotted(labels) else Suffix(labels)
  }

  lemma JoinLabel(l: seq<Octet>, labels: seq<seq<Octet>>, first: bool)
    ensures Joined([l] + labels, first) == (if first then [] else [DOT]) + l + Joined(labels, false)
  {
    assert ([l] + labels)[1..] == labels;
  }

  // ---- name_ascii_to_wire --------------------------------------------------------

  // The labels of a name as strtok finds them: the runs between dots.
  function Skip(s: seq<Octet>): (r: seq<Octet>)
    ensures |r| <= |s|
  {
    s[Lead(s, DOT)..]
  }

  function First(s: seq<Octet>): (r: seq<Octet>)
    ensures |r| <= |s|
  {
    s[..Find(s, DOT)]
  }

  function After(s: seq<Octet>): (r: seq<Octet>)
    ensures if s == [] then r == [] else |r| < |s|
  {
    var d := Find(s, DOT);
    if d == |s| then [] else s[d + 1..]
  }

  function Tokens(s: seq<Octet>): seq<seq<Octet>>
    decreases |s|
  {
    if Skip(s) == [] then []
    else [First(Skip(s))] + Tokens(After(Skip(s)))
  }

  // A length byte before each label, cut to eight bits, and the root label.
  function Encode(labels: seq<seq<Octet>>): (r: seq<Octet>)
    ensures r != []
  {
    if labels == [] then [0] else [(|labels[0]| % 256) as Octet] + labels[0] + Encode(labels[1..])
  }

  // The C string `text` stands at `at`.
  ghost predicate Holds(buf: array<Octet>, at: nat, text: seq<Octet>)
    reads buf
  {
    at + |text| < buf.Length && buf[at..at + |text|] == text && buf[at + |text|] == 0 && 0 !in text
  }

  lemma SkipDot(text: seq<Octet>)
    ensures text != [] && text[0] == DOT ==> Skip(text) == Skip(text[1..])
    ensures text == [] || text[0] != DOT ==> Skip(text) == text
  {
  }

  lemma TakeByte(done: seq<Octet>, text: seq<Octet>)
    ensures text == [] || text[0] == DOT ==> First(text) == []
    ensures text != [] && text[0] != DOT ==>
      done + First(text) == (done + [text[0]]) + First(text[1..]) && After(text) == After(text[1..])
    ensures text != [] && text[0] == DOT ==> After(text) == text[1..]
    ensures text == [] ==> After(text) == []
  {
  }

  lemma HoldsNext(buf: array<Octet>, at: nat, text: seq<Octet>)
    requires Holds(buf, at, text)
    ensures at < buf.Length && (buf[at] == 0 <==> text == [])
    ensures text != [] ==> text[0] == buf[at] && Holds(buf, at + 1, text[1..])
  {
    if text != [] {
      assert buf[at] == buf[at..at + |text|][0] && text[0] in text;
      assert buf[at + 1..at + |text|] == buf[at..at + |text|][1..];
    }
  }

  // strtok with the delimiter ".".  `at` is where the C library has got to; the
  // dot after the token becomes a NUL.
  method StrTok(buf: array<Octet>, at: nat, ghost text: seq<Octet>) returns (found: bool, tok: nat, next: nat)
    requires Holds(buf, at, text)
    modifies buf
    ensures found <==> Skip(text) != []
    ensures found ==> Holds(buf, tok, First(Skip(text))) && Holds(buf, next, After(Skip(text)))
  {
    hide Holds, Skip, First, After;
    tok, next := at, at;
    ghost var rest := text;
    HoldsNext(buf, tok, rest);
    SkipDot(rest);
    while buf[tok] == DOT
      invariant tok < buf.Length && Holds(buf, tok, rest) && Skip(rest) == Skip(text)
      invariant (buf[tok] == 0 <==> rest == []) && (rest != [] ==> rest[0] == buf[tok])
      decreases |rest|
    {
      HoldsNext(buf, tok, rest);
      SkipDot(rest);
      tok, rest := tok + 1, rest[1..];
      HoldsNext(buf, tok, rest);
    }
    SkipDot(rest);
    found := buf[tok] != 0;
    if found {
      next := CutToken(buf, tok, rest);
    }
  }

  // The end of the token at tok: a dot or the NUL.
  method TokenEnd(buf: array<Octet>, tok: nat, ghost text: seq<Octet>) returns (end: nat, ghost rest: seq<Octet>)
    requires Holds(buf, tok, text)
    ensures end == tok + |First(text)| < buf.Length && buf[tok..end] == First(text) && 0 !in First(text)
    ensures Holds(buf, end, rest) && (buf[end] == 0 || buf[end] == DOT)
    ensures if buf[end] == 0 then After(text) == [] else Holds(buf, end + 1, After(text))
  {
    hide Holds, First, After;
    end := tok;
    ghost var done: seq<Octet> := [];
    rest := text;
    HoldsNext(buf, end, rest);
    while buf[end] != 0 && buf[end] != DOT
      invariant end < buf.Length && Holds(buf, end, rest) && end == tok + |done| && buf[tok..end] == done && 0 !in done
      invariant (buf[end] == 0 <==> rest == []) && (rest != [] ==> rest[0] == buf[end])
      invariant First(text) == done + First(rest) && After(text) == After(rest)
      decreases |rest|
    {
      TakeByte(done, rest);
      HoldsNext(buf, end, rest);
      done, end, rest := done + [rest[0]], end + 1, rest[1..];
      HoldsNext(buf, end, rest);
    }
    TakeByte(done, rest);
    HoldsNext(buf, end, rest);
  }

  // The dot after the token at tok becomes a NUL.
  method CutToken(buf: array<Octet>, tok: nat, ghost text: seq<Octet>) returns (next: nat)
    requires Holds(buf, tok, text)
    modifies buf
    ensures Holds(buf, tok, First(text)) && Holds(buf, next, After(text))
  {
    hide First, After;
    ghost var rest;
    next, rest := TokenEnd(buf, tok, text);
    if buf[next] != 0 {
      buf[next] := 0;
      next := next + 1;
    }
  }

  lemma HoldsAt(buf: array<Octet>, at: nat, text: seq<Octet>, i: nat)
    requires Holds(buf, at, text) && i <= |text|
    ensures at + i < buf.Length && (buf[at + i] == 0 <==> i == |text|) && (i < |text| ==> buf[at + i] == text[i])
  {
    if i < |text| {
      assert buf[at..at + |text|][i] == buf[at + i] && text[i] in text;
    }
  }

  lemma HoldsLength(buf: array<Octet>, at: nat, text: seq<Octet>)
    requires Holds(buf, at, text)
    ensures at <= buf.Length && Find(buf[at..], 0) == |text|
  {
    forall k | 0 <= k < |text| ensures buf[at..][k] != 0 {
      assert buf[at..at + |text|][k] == buf[at + k] && text[k] in text;
    }
    FindIs(buf[at..], 0, |text|);
  }

  // The bytes of one label, up to its NUL.
  method CopyLabel(buf: array<Octet>, tok: nat, wire: array<Octet>, from: nat, ghost l: seq<Octet>) returns (offset: nat)
    requires buf != wire && Holds(buf, tok, l) && from + |l| <= wire.Length
    modifies wire
    ensures offset == from + |l| && wire[from..offset] == l
    ensures forall k :: 0 <= k < wire.Length && !(from <= k < offset) ==> wire[k] == old(wire[k])
  {
    hide Holds;
    offset := from;
    var i: nat := 0;
    HoldsAt(buf, tok, l, i);
    while buf[tok + i] != 0
      invariant i <= |l| && offset == from + i && wire[from..offset] == l[..i]
      invariant tok + i < buf.Length && (buf[tok + i] == 0 <==> i == |l|) && Holds(buf, tok, l)
      invariant forall k :: 0 <= k < wire.Length && !(from <= k < offset) ==> wire[k] == old(wire[k])
      decreases |l| - i
    {
      HoldsAt(buf, tok, l, i);
      wire[offset] := buf[tok + i];
      offset := offset + 1;
      i := i + 1;
      HoldsAt(buf, tok, l, i);
    }
  }

  // The length byte and the label.
  method PutLabel(buf: array<Octet>, tok: nat, wire: array<Octet>, from: nat, ghost l: seq<Octet>, ghost written: seq<Octet>)
    returns (offset: nat)
    requires buf != wire && Holds(buf, tok, l) && NUM_HEADER_BYTES <= from && from + 1 + |l| <= wire.Length
    requires wire[NUM_HEADER_BYTES..from] == written
    modifies wire
    ensures offset == from + 1 + |l| && wire[NUM_HEADER_BYTES..offset] == written + [(|l| % 256) as Octet] + l
    ensures forall k :: 0 <= k < wire.Length && !(from <= k < offset) ==> wire[k] == old(wire[k])
  {
    hide Holds;
    HoldsLength(buf, tok, l);
    var length := StrLen(buf, tok, 0);
    wire[from] := (length % 256) as Octet;
    offset := CopyLabel(buf, tok, wire, from + 1, l);
    assert wire[NUM_HEADER_BYTES..offset] == wire[NUM_HEADER_BYTES..from] + [wire[from]] + wire[from + 1..offset];
    assert wire[NUM_HEADER_BYTES..from] == written;
  }

  // The rest of the encoding, when the C library has got to `text`.
  lemma TokensStep(text: seq<Octet>)
    ensures Skip(text) == [] ==> Encode(Tokens(text)) == [0]
    ensures Skip(text) != [] ==> var l := First(Skip(text));
      Encode(Tokens(text)) == [(|l| % 256) as Octet] + l + Encode(Tokens(After(Skip(text))))
  {
  }

  lemma AppendLabel(all: seq<Octet>, written: seq<Octet>, length: seq<Octet>, l: seq<Octet>, rest: seq<Octet>)
    requires all == written + (length + l + rest)
    ensures all == (written + length + l) + rest && |all| == |written| + |length| + |l| + |rest|
  {
  }

  method NameAsciiToWire(name: seq<Octet>, wire: array<Octet>) returns (n: nat)
    requires 0 !in name && |name| < MAX_SIZE
    requires NUM_HEADER_BYTES + |Encode(Tokens(name))| <= wire.Length
    modifies wire
    ensures n == |Encode(Tokens(name))|
    ensures wire[NUM_HEADER_BYTES..NUM_HEADER_BYTES + n] == Encode(Tokens(name))
    ensures forall k :: 0 <= k < wire.Length && !(NUM_HEADER_BYTES <= k < NUM_HEADER_BYTES + n) ==> wire[k] == old(wire[k])
  {
    var tempName := CopyName(name);
    hide Holds, Tokens, Encode, Skip, First, After;
    ghost var all, text := Encode(Tokens(name)), name;
    ghost var written: seq<Octet> := [];
    var found, tok, next := StrTok(tempName, 0, text);
    var offset: nat := NUM_HEADER_BYTES;
    while found
      invariant NUM_HEADER_BYTES <= offset <= wire.Length
      invariant found <==> Skip(text) != []
      invariant found ==> Holds(tempName, tok, First(Skip(text))) && Holds(tempName, next, After(Skip(text)))
      invariant all == written + Encode(Tokens(text)) && wire[NUM_HEADER_BYTES..offset] == written
      invariant forall k :: 0 <= k < wire.Length && !(NUM_HEADER_BYTES <= k < offset) ==> wire[k] == old(wire[k])
      decreases |text|
    {
      TokensStep(text);
      ghost var l, rest := First(Skip(text)), After(Skip(text));
      AppendLabel(all, written, [(|l| % 256) as Octet], l, Encode(Tokens(rest)));
      offset := PutLabel(tempName, tok, wire, offset, l, written);
      text, written := rest, written + [(|l| % 256) as Octet] + l;
      found, tok, next := StrTok(tempName, next, text);
    }
    TokensStep(text);
    wire[offset] := 0;
    offset := offset + 1;
    assert wire[NUM_HEADER_BYTES..offset] == written + [0];
    return offset - NUM_HEADER_BYTES;
  }

  // strcpy into the buffer that strtok cuts up
  method CopyName(name: seq<Octet>) returns (temp: array<Octet>)
    requires 0 !in name && |name| < MAX_SIZE
    ensures fresh(temp) && Holds(temp, 0, name)
  {
    temp := new Octet[MAX_SIZE];
    forall i | 0 <= i < |name| {
      temp[i] := name[i];
    }
    temp[|name|] := 0;
  }

  // ---- Round trips ---------------------------------------------------------------

  predicate DotFree(l: seq<Octet>) { DOT !in l && 0 !in l }

  // What is left of a dotted name after its first label.
  function AfterLabel(rest: seq<seq<Octet>>): seq<Octet> {
    if rest == [] then [] else Suffix(rest)[1..]
  }

  lemma SuffixTail(rest: seq<seq<Octet>>)
    ensures AfterLabel(rest) == Dotted(rest)
    ensures Suffix(rest) == [] || Suffix(rest)[0] == DOT
    ensures rest == [] <==> Suffix(rest) == []
  {
  }

  // A label that a dot or the end follows is split off.
  lemma SplitOne(l: seq<Octet>, rest: seq<Octet>)
    requires l != [] && DOT !in l && (rest == [] || rest[0] == DOT)
    ensures Tokens(l + rest) == [l] + Tokens(if rest == [] then [] else rest[1..])
  {
    assert l[0] in l && (l + rest)[0] == l[0];
    SkipDot(l + rest);
    FindAfter(l, DOT, rest);
  }

  // Splitting a dotted name gives back its labels.
  lemma {:induction false} TokensOfDotted(labels: seq<seq<Octet>>)
    requires forall i :: 0 <= i < |labels| ==> labels[i] != [] && DotFree(labels[i])
    ensures Tokens(Dotted(labels)) == labels
  {
    hide Skip, First, After, Suffix;
    if labels == [] {
      SkipDot([]);
    } else {
      var l, rest := labels[0], labels[1..];
      SuffixTail(rest);
      assert DotFree(l) && AfterLabel(rest) == if Suffix(rest) == [] then [] else Suffix(rest)[1..];
      assert Dotted(labels) == l + Suffix(rest) && labels == [l] + rest;
      hide Tokens, Dotted, AfterLabel;
      SplitOne(l, Suffix(rest));
      TokensOfDotted(rest);
    }
  }

  lemma TokensOfPlain(labels: seq<seq<Octet>>)
    requires forall i :: 0 <= i < |labels| ==> Plain(labels[i])
    ensures Tokens(Dotted(labels)) == labels
  {
    hide Tokens, Dotted;
    forall i | 0 <= i < |labels| ensures labels[i] != [] && DotFree(labels[i]) {
      assert Plain(labels[i]);
    }
    TokensOfDotted(labels);
  }

  // Encoded labels, decoded as section 3.1 of RFC 1035 says, are the labels.
  lemma {:induction false} DecodeEncoded(wire: seq<Octet>, start: nat, p: nat, labels: seq<seq<Octet>>)
    requires forall i :: 0 <= i < |labels| ==> 0 < |labels[i]| < 64
    requires p + |Encode(labels)| <= |wire| && wire[p..p + |Encode(labels)|] == Encode(labels)
    ensures NameAt(wire, start, p) && Labels(wire, start, p) == labels
    decreases |labels|
  {
    EncodeHead(labels);
    if labels == [] {
      assert wire[p] == wire[p..p + 1][0];
    } else {
      var l, rest := labels[0], Encode(labels[1..]);
      Within(wire, p, [|l| as Octet], l, rest);
      DecodeEncoded(wire, start, p + 1 + |l|, labels[1..]);
    }
  }

  lemma EncodeHead(labels: seq<seq<Octet>>)
    ensures labels == [] ==> Encode(labels) == [0]
    ensures labels != [] && |labels[0]| < 256 ==> Encode(labels) == [|labels[0]| as Octet] + labels[0] + Encode(labels[1..])
  {
  }

  lemma Slice(s: seq<Octet>, p: nat, part: seq<Octet>, i: nat, j: nat)
    requires p + |part| <= |s| && s[p..p + |part|] == part && i <= j <= |part|
    ensures s[p + i..p + j] == part[i..j]
  {
    var a, b := s[p + i..p + j], part[i..j];
    forall k | 0 <= k < |b| ensures a[k] == b[k] {
      assert s[p..p + |part|][i + k] == part[i + k];
    }
  }

  // The three parts of a stretch of s.
  lemma Within(s: seq<Octet>, p: nat, a: seq<Octet>, b: seq<Octet>, c: seq<Octet>)
    requires p + |a + b + c| <= |s| && s[p..p + |a + b + c|] == a + b + c
    ensures s[p..p + |a|] == a && s[p + |a|..p + |a| + |b|] == b && s[p + |a| + |b|..p + |a| + |b| + |c|] == c
    ensures a != [] ==> s[p] == a[0]
  {
    var whole := a + b + c;
    assert whole[0..|a|] == a && whole[|a|..|a| + |b|] == b && whole[|a| + |b|..|a| + |b| + |c|] == c;
    Slice(s, p, whole, 0, |a|);
    Slice(s, p, whole, |a|, |a| + |b|);
    Slice(s, p, whole, |a| + |b|, |a| + |b| + |c|);
    assert a != [] ==> s[p] == s[p..p + |a|][0];
  }

  // What grabCNames prints of plain bytes.
  function Flat(s: seq<Octet>, first: bool): seq<Octet> {
    if s == [] then []
    else if s[0] < 0x2D then (if first then [] else [DOT]) + Flat(s[1..], false)
    else [s[0]] + Flat(s[1..], first)
  }

  // The encoding without the root label.
  function Body(labels: seq<seq<Octet>>): seq<Octet> {
    if labels == [] then [] else [(|labels[0]| % 256) as Octet] + labels[0] + Body(labels[1..])
  }

  // A label that the walk could get through: not empty, short of what looks like a
  // pointer, and free of dots, zeros and bytes that look like one.
  predicate Plain(l: seq<Octet>) {
    0 < |l| < 0xC0 && forall k :: 0 <= k < |l| ==> 0 < l[k] < 0xC0 && l[k] != DOT
  }

  predicate High(l: seq<Octet>) { forall k :: 0 <= k < |l| ==> l[k] >= 0x2D }

  // The names that survive: no byte is below '-', the first label has at most 44
  // bytes, and so has every other or else exactly 46, the code of a dot.
  predicate Survives(labels: seq<seq<Octet>>, first: bool) {
    labels != [] ==>
      && (|labels[0]| <= 44 || (!first && |labels[0]| == 46))
      && High(labels[0])
      && Survives(labels[1..], false)
  }

  lemma FlatCons(c: Octet, s: seq<Octet>, first: bool)
    ensures Flat([c] + s, first) ==
      if c >= 0x2D then [c] + Flat(s, first) else (if first then [] else [DOT]) + Flat(s, false)
  {
    assert ([c] + s)[1..] == s;
  }

  // After the first length every byte prints one character.
  lemma {:induction false} FlatLength(s: seq<Octet>)
    ensures |Flat(s, false)| == |s|
  {
    if s != [] { FlatLength(s[1..]); }
  }

  lemma {:induction false} FlatAppend(a: seq<Octet>, b: seq<Octet>)
    ensures Flat(a + b, false) == Flat(a, false) + Flat(b, false)
  {
    if a == [] {
      assert a + b == b;
    } else {
      assert (a + b)[1..] == a[1..] + b;
      FlatAppend(a[1..], b);
    }
  }

  lemma SplitEqual(a: seq<Octet>, b: seq<Octet>, c: seq<Octet>, d: seq<Octet>)
    requires |a| == |c|
    ensures a + b == c + d <==> a == c && b == d
  {
    if a + b == c + d {
      assert a == (a + b)[..|a|] && c == (c + d)[..|c|];
      assert b == (a + b)[|a|..] && d == (c + d)[|c|..];
    }
  }

  lemma {:induction false} FlatLabel(l: seq<Octet>)
    requires forall k :: 0 <= k < |l| ==> l[k] != DOT
    ensures Flat(l, false) == l <==> High(l)
  {
    if l != [] {
      var mark: Octet := if l[0] < 0x2D then DOT else l[0];
      FlatLabel(l[1..]);
      assert Flat(l, false) == [mark] + Flat(l[1..], false) && l == [l[0]] + l[1..];
      SplitEqual([mark], Flat(l[1..], false), [l[0]], l[1..]);
      assert High(l) <==> l[0] >= 0x2D && High(l[1..]) by {
        if High(l[1..]) {
          forall k | 1 <= k < |l| ensures l[k] >= 0x2D { assert l[1..][k - 1] == l[k]; }
        }
      }
    }
  }

  // The text of one label and of all that follow it.
  lemma LabelThenRest(l: seq<Octet>, body: seq<Octet>, rest: seq<Octet>)
    requires forall k :: 0 <= k < |l| ==> l[k] != DOT
    ensures Flat(l + body, false) == l + rest <==> High(l) && Flat(body, false) == rest
  {
    FlatAppend(l, body);
    FlatLength(l);
    FlatLabel(l);
    SplitEqual(Flat(l, false), Flat(body, false), l, rest);
  }

  lemma {:induction false} TailSurvives(labels: seq<seq<Octet>>)
    requires forall i :: 0 <= i < |labels| ==> Plain(labels[i])
    ensures Flat(Body(labels), false) == Suffix(labels) <==> Survives(labels, false)
  {
    if labels != [] {
      var l, rest := labels[0], labels[1..];
      assert Plain(l);
      TailSurvives(rest);
      LabelThenRest(l, Body(rest), Suffix(rest));
      hide Flat;
      var mark: Octet := if |l| < 0x2D then DOT else |l| as Octet;
      assert Body(labels) == [|l| as Octet] + (l + Body(rest)) && Suffix(labels) == [DOT] + (l + Suffix(rest));
      FlatCons(|l| as Octet, l + Body(rest), false);
      SplitEqual([mark], Flat(l + Body(rest), false), [DOT], l + Suffix(rest));
    }
  }

  // A first length that is printed displaces the whole text.
  lemma {:induction false} NeverShifted(c: Octet, l: seq<Octet>, body: seq<Octet>, rest: seq<Octet>)
    requires c >= 0x2D && (l == [] ==> c != DOT) && (forall k :: 0 <= k < |l| ==> l[k] != DOT)
    requires rest == [] || rest[0] == DOT
    ensures [c] + Flat(l + body, true) != l + rest
  {
    if l == [] {
      assert l + rest == rest && ([c] + Flat(l + body, true))[0] == c;
    } else if c == l[0] {
      assert (l + body)[1..] == l[1..] + body;
      NeverShifted(c, l[1..], body, rest);
      assert l + rest == [c] + (l[1..] + rest);
      SplitEqual([c], Flat(l + body, true), [c], l[1..] + rest);
    } else {
      assert ([c] + Flat(l + body, true))[0] != (l + rest)[0];
    }
  }

  // The first length byte of a name: printed if it is above 44, passed over if not.
  lemma FlatName(l: seq<Octet>, labels: seq<seq<Octet>>)
    requires Plain(l)
    ensures Flat(Body([l] + labels), true) ==
      if |l| < 0x2D then Flat(l + Body(labels), false) else [|l| as Octet] + Flat(l + Body(labels), true)
  {
    hide Flat;
    assert ([l] + labels)[1..] == labels;
    assert Body([l] + labels) == [|l| as Octet] + (l + Body(labels));
    FlatCons(|l| as Octet, l + Body(labels), true);
  }

  lemma ShortFirst(l: seq<Octet>, rest: seq<seq<Octet>>)
    requires Plain(l) && |l| < 0x2D && forall i :: 0 <= i < |rest| ==> Plain(rest[i])
    ensures Flat(Body([l] + rest), true) == l + Suffix(rest) <==> High(l) && Survives(rest, false)
  {
    FlatName(l, rest);
    hide Flat, Body, Suffix, Survives, High;
    TailSurvives(rest);
    LabelThenRest(l, Body(rest), Suffix(rest));
  }

  lemma LongFirst(l: seq<Octet>, rest: seq<seq<Octet>>)
    requires Plain(l) && |l| >= 0x2D
    ensures Flat(Body([l] + rest), true) != l + Suffix(rest)
  {
    FlatName(l, rest);
    hide Flat, Body;
    NeverShifted(|l| as Octet, l, Body(rest), Suffix(rest));
  }

  lemma FirstSurvives(l: seq<Octet>, rest: seq<seq<Octet>>)
    requires Plain(l) && forall i :: 0 <= i < |rest| ==> Plain(rest[i])
    ensures Flat(Body([l] + rest), true) == l + Suffix(rest) <==> |l| <= 44 && High(l) && Survives(rest, false)
  {
    hide Flat, Body, Suffix, High, Survives;
    if |l| < 0x2D {
      ShortFirst(l, rest);
    } else {
      LongFirst(l, rest);
    }
  }

  lemma SurvivesCons(l: seq<Octet>, rest: seq<seq<Octet>>)
    ensures Survives([l] + rest, true) <==> |l| <= 44 && High(l) && Survives(rest, false)
    ensures Dotted([l] + rest) == l + Suffix(rest)
  {
    assert ([l] + rest)[1..] == rest;
  }

  lemma NoLabels()
    ensures Flat(Body([]), true) == Dotted([]) && Survives([], true)
  {
  }

  // Encoding a name and printing what was encoded gives the name back exactly when
  // it survives.
  lemma NameSurvivesIff(labels: seq<seq<Octet>>)
    requires forall i :: 0 <= i < |labels| ==> Plain(labels[i])
    ensures Flat(Body(labels), true) == Dotted(labels) <==> Survives(labels, true)
  {
    hide Flat, Body, Dotted, Suffix, High, Plain, Survives;
    if labels == [] {
      NoLabels();
    } else {
      var l, rest := labels[0], labels[1..];
      assert labels == [l] + rest;
      FirstSurvives(l, rest);
      SurvivesCons(l, rest);
    }
  }

  lemma {:induction false} EncodeBody(labels: seq<seq<Octet>>)
    requires forall i :: 0 <= i < |labels| ==> Plain(labels[i])
    ensures Encode(labels) == Body(labels) + [0]
    ensures forall k :: 0 <= k < |Body(labels)| ==> 0 < Body(labels)[k] < 0xC0
  {
    if labels != [] {
      var l, rest := labels[0], labels[1..];
      assert Plain(l);
      EncodeBody(rest);
      assert Body(labels) == [|l| as Octet] + l + Body(rest);
      assert [|l| as Octet] + l + (Body(rest) + [0]) == [|l| as Octet] + l + Body(rest) + [0];
    }
  }
}

// grabCNames of dns-lab/resolver.c: a walk over the bytes of a compressed name,
// when it ends, and when what it prints is the name.
module DnsWalk {
  import opened Dns

  // ---- The walk --------------------------------------------------------------

  // Where one turn of the loop leads from p.
  function Next(wire: seq<Octet>, p: nat): nat
    requires p < |wire| && (wire[p] >= 0xC0 ==> p + 1 < |wire|)
  {
    if wire[p] >= 0xC0 then wire[p + 1] as int else p + 1
  }

  // The walk from p stays inside the message and reaches a zero byte within k turns.
  predicate Stops(wire: seq<Octet>, p: nat, k: nat)
    decreases k
  {
    p < |wire| &&
    (wire[p] == 0 || (k > 0 && (wire[p] >= 0xC0 ==> p + 1 < |wire|) && Stops(wire, Next(wire, p), k - 1)))
  }

  // The number of turns it takes.
  function Turns(wire: seq<Octet>, p: nat, k: nat): (n: nat)
    requires Stops(wire, p, k)
    ensures n <= k
    decreases k
  {
    if wire[p] == 0 then 0 else 1 + Turns(wire, Next(wire, p), k - 1)
  }

  // What it prints: a byte below 0x2D is taken for a length, and is a dot unless it
  // is the first of them.
  function Printed(wire: seq<Octet>, p: nat, k: nat, first: bool): seq<Octet>
    requires Stops(wire, p, k)
    decreases k
  {
    if wire[p] == 0 then []
    else if wire[p] >= 0xC0 then Printed(wire, Next(wire, p), k - 1, first)
    else if wire[p] < 0x2D then (if first then [] else [DOT]) + Printed(wire, Next(wire, p), k - 1, false)
    else [wire[p]] + Printed(wire, Next(wire, p), k - 1, first)
  }

  // How many turns are allowed makes no difference, if they are enough.
  lemma {:induction false} Enough(wire: seq<Octet>, p: nat, k: nat, m: nat, first: bool)
    requires Stops(wire, p, k) && Turns(wire, p, k) <= m
    ensures Stops(wire, p, m) && Turns(wire, p, m) == Turns(wire, p, k)
    ensures Printed(wire, p, m, first) == Printed(wire, p, k, first)
    decreases k
  {
    if wire[p] != 0 {
      Enough(wire, Next(wire, p), k - 1, m - 1, if 0 < wire[p] < 0x2D then false else first);
    }
  }

  // The offsets it visits.
  function Visited(wire: seq<Octet>, p: nat, k: nat): (v: seq<nat>)
    requires Stops(wire, p, k)
    ensures |v| == Turns(wire, p, k) + 1
    decreases k
  {
    if wire[p] == 0 then [p] else [p] + Visited(wire, Next(wire, p), k - 1)
  }

  lemma {:induction false} VisitedTurns(wire: seq<Octet>, p: nat, k: nat, i: nat)
    requires Stops(wire, p, k) && i < |Visited(wire, p, k)|
    ensures Visited(wire, p, k)[i] < |wire| && Stops(wire, Visited(wire, p, k)[i], k)
    ensures Turns(wire, Visited(wire, p, k)[i], k) == Turns(wire, p, k) - i
    decreases k
  {
    if i > 0 {
      VisitedTurns(wire, Next(wire, p), k - 1, i - 1);
      Enough(wire, Visited(wire, p, k)[i], k - 1, k, false);
    }
  }

  // No more distinct offsets than the message has bytes.
  lemma {:induction false} DistinctBelow(v: seq<nat>, n: nat)
    requires forall i :: 0 <= i < |v| ==> v[i] < n
    requires forall i, j :: 0 <= i < j < |v| ==> v[i] != v[j]
    ensures |v| <= n
    decreases n
  {
    assert v != [] ==> v[0] < n;
    if i: nat :| i < |v| && v[i] == n - 1 {
      var w := v[..i] + v[i + 1..];
      DistinctBelow(w, n - 1);
    } else if n > 0 {
      DistinctBelow(v, n - 1);
    }
  }

  // A walk that ends visits no offset twice, so it takes fewer turns than there are
  // bytes.
  lemma TurnsBounded(wire: seq<Octet>, p: nat, k: nat)
    requires Stops(wire, p, k)
    ensures Turns(wire, p, k) < |wire|
    ensures forall i, j :: 0 <= i < j < |Visited(wire, p, k)| ==> Visited(wire, p, k)[i] != Visited(wire, p, k)[j]
  {
    var v := Visited(wire, p, k);
    forall i | 0 <= i < |v| ensures v[i] < |wire| && Stops(wire, v[i], k) && Turns(wire, v[i], k) == Turns(wire, p, k) - i {
      VisitedTurns(wire, p, k, i);
    }
    DistinctBelow(v, |wire|);
  }

  // The walk from p ends.
  predicate Ends(wire: seq<Octet>, p: nat) { Stops(wire, p, |wire|) }

  // A walk that ends after any number of turns is one of these: it is enough to
  // follow it for as many turns as the message has bytes.
  lemma EndsInTime(wire: seq<Octet>, p: nat, k: nat)
    requires Stops(wire, p, k)
    ensures Ends(wire, p) && Turns(wire, p, |wire|) == Turns(wire, p, k) < |wire|
  {
    TurnsBounded(wire, p, k);
    Enough(wire, p, k, |wire|, false);
  }

  function Shown(wire: seq<Octet>, p: nat, first: bool): seq<Octet>
    requires Ends(wire, p)
  {
    Printed(wire, p, |wire|, first)
  }

  lemma EndsWithin(wire: seq<Octet>, p: nat)
    requires Ends(wire, p)
    ensures p < |wire| && (wire[p] >= 0xC0 ==> p + 1 < |wire|)
  {
  }

  // One turn: whether the walk ends, and what is printed.
  lemma EndsNext(wire: seq<Octet>, p: nat)
    requires p < |wire| && wire[p] != 0 && (wire[p] >= 0xC0 ==> p + 1 < |wire|)
    ensures Ends(wire, p) <==> Ends(wire, Next(wire, p))
  {
    var q := Next(wire, p);
    if Ends(wire, p) {
      Enough(wire, q, |wire| - 1, |wire|, false);
    }
    if Ends(wire, q) {
      assert Stops(wire, p, |wire| + 1);
      EndsInTime(wire, p, |wire| + 1);
    }
  }

  lemma OneTurn(wire: seq<Octet>, p: nat, first: bool)
    requires Ends(wire, p)
    ensures wire[p] == 0 ==> Shown(wire, p, first) == []
    ensures wire[p] != 0 ==> Ends(wire, Next(wire, p))
    ensures wire[p] != 0 ==> Turns(wire, Next(wire, p), |wire|) < Turns(wire, p, |wire|)
    ensures wire[p] >= 0xC0 ==> Shown(wire, p, first) == Shown(wire, Next(wire, p), first)
    ensures 0 < wire[p] < 0x2D ==> Shown(wire, p, first) == (if first then [] else [DOT]) + Shown(wire, Next(wire, p), false)
    ensures 0x2D <= wire[p] < 0xC0 ==> Shown(wire, p, first) == [wire[p]] + Shown(wire, Next(wire, p), first)
  {
    if wire[p] != 0 {
      EndsNext(wire, p);
      Enough(wire, Next(wire, p), |wire| - 1, |wire|, if wire[p] < 0x2D then false else first);
    }
  }

  lemma Associate(a: seq<Octet>, b: seq<Octet>, c: seq<Octet>)
    ensures a + (b + c) == (a + b) + c && a + [] == a
  {
  }

  // The code, for any name whose walk ends.
  method GrabCNames(wire: array<Octet>, from: nat) returns (out: seq<Octet>)
    requires Ends(wire[..], from)
    ensures out == Shown(wire[..], from, true)
  {
    hide Ends, Shown, Turns;
    out := [];
    var i: nat, indexp: nat := 0, from;
    ghost var bytes := wire[..];
    EndsWithin(bytes, from);
    while wire[indexp] != 0
      invariant indexp < wire.Length && (wire[indexp] >= 0xC0 ==> indexp + 1 < wire.Length) && Ends(bytes, indexp)
      invariant out + Shown(bytes, indexp, i == 0) == Shown(bytes, from, true)
      decreases Left(bytes, indexp)
    {
      OneTurn(bytes, indexp, i == 0);
      ghost var byte, next := wire[indexp], Next(bytes, indexp);
      if wire[indexp] >= 0xC0 {
        indexp := wire[indexp + 1] as int;
      } else if wire[indexp] < 0x2D {
        Associate(out, if i == 0 then [] else [DOT], Shown(bytes, next, false));
        if i != 0 {
          out := out + [DOT];
        }
        i := i + 1;
        indexp := indexp + 1;
      } else {
        Associate(out, [byte], Shown(bytes, next, i == 0));
        out := out + [wire[indexp]];
        indexp := indexp + 1;
      }
      EndsWithin(bytes, indexp);
    }
    OneTurn(bytes, indexp, i == 0);
  }

  // The turns left.
  ghost function Left(wire: seq<Octet>, p: nat): nat {
    if Ends(wire, p) then Turns(wire, p, |wire|) else 0
  }

  // ---- When that is the name -----------------------------------------------------

  // The walk through n bytes of labels.
  lemma {:induction false} ShownThrough(wire: seq<Octet>, p: nat, n: nat, first: bool)
    requires p + n <= |wire| && (forall k :: p <= k < p + n ==> 0 < wire[k] < 0xC0) && Ends(wire, p + n)
    ensures Ends(wire, p)
    ensures Shown(wire, p, first) == Flat(wire[p..p + n], first) + Shown(wire, p + n, first && High(wire[p..p + n]))
    decreases n
  {
    var s := wire[p..p + n];
    if n > 0 {
      var high := wire[p] >= 0x2D;
      var rest := wire[p + 1..p + n];
      assert s == [wire[p]] + rest;
      ShownThrough(wire, p + 1, n - 1, first && high);
      EndsNext(wire, p);
      OneTurn(wire, p, first);
      FlatCons(wire[p], rest, first);
      HighCons(wire[p], rest);
      hide Ends, Shown, Flat, High;
      Associate(if high then [wire[p]] else if first then [] else [DOT], Flat(rest, first && high),
                Shown(wire, p + n, first && High(s)));
    } else {
      assert s == [];
      assert Flat([], first) == [];
    }
  }

  lemma HighCons(c: Octet, s: seq<Octet>)
    ensures High([c] + s) <==> c >= 0x2D && High(s)
  {
    if c >= 0x2D && High(s) {
      forall k | 0 <= k < |s| + 1 ensures ([c] + s)[k] >= 0x2D {
        assert k > 0 ==> ([c] + s)[k] == s[k - 1];
      }
    }
    if High([c] + s) {
      assert ([c] + s)[0] == c;
      forall k | 0 <= k < |s| ensures s[k] >= 0x2D {
        assert s[k] == ([c] + s)[k + 1];
      }
    }
  }

  // The name's bytes do not mislead the walk: pointers are below 256, and no byte of
  // a label looks like a pointer or the end.
  predicate Followed(wire: seq<Octet>, start: nat, p: nat)
    requires NameAt(wire, start, p)
    decreases start, |wire| - p
  {
    wire[p] == 0
    || (wire[p] < 64 && Unmistaken(LabelAt(wire, start, p)) && Followed(wire, start, p + 1 + wire[p] as int))
    || (wire[p] == 0xC0 && Followed(wire, Target(wire, p), Target(wire, p)))
  }

  predicate Unmistaken(l: seq<Octet>) { forall k :: 0 <= k < |l| ==> 0 < l[k] < 0xC0 }

  lemma UnmistakenRun(wire: seq<Octet>, p: nat, n: nat)
    requires 0 < p && p + n <= |wire| && Unmistaken(wire[p..p + n]) && 0 < wire[p - 1] < 64
    ensures forall k :: p - 1 <= k < p + n ==> 0 < wire[k] < 0xC0
    ensures wire[p - 1..p + n] == [wire[p - 1]] + wire[p..p + n]
  {
    forall k | p <= k < p + n ensures 0 < wire[k] < 0xC0 {
      assert wire[k] == wire[p..p + n][k - p];
    }
  }

  lemma FlatBodyCons(l: seq<Octet>, labels: seq<seq<Octet>>, first: bool)
    requires 0 < |l| < 64
    ensures Flat(Body([l] + labels), first) == Flat([|l| as Octet] + l, first) + Flat(Body(labels), first && High([|l| as Octet] + l))
  {
    assert ([l] + labels)[1..] == labels;
    FlatThrough([|l| as Octet] + l, Body(labels), first);
  }

  lemma {:induction false} FlatThrough(a: seq<Octet>, b: seq<Octet>, first: bool)
    ensures Flat(a + b, first) == Flat(a, first) + Flat(b, first && High(a))
  {
    if a == [] {
      assert a + b == b && Flat(a, first) == [];
    } else {
      var high := a[0] >= 0x2D;
      assert a + b == [a[0]] + (a[1..] + b) && a == [a[0]] + a[1..];
      FlatThrough(a[1..], b, first && high);
      FlatCons(a[0], a[1..] + b, first);
      FlatCons(a[0], a[1..], first);
      HighCons(a[0], a[1..]);
      hide Flat, High;
      Associate(if high then [a[0]] else if first then [] else [DOT], Flat(a[1..], first && high), Flat(b, first && High(a)));
    }
  }

  lemma LabelIsFlat(wire: seq<Octet>, start: nat, p: nat, first: bool, l: seq<Octet>, labels: seq<seq<Octet>>)
    requires NameAt(wire, start, p) && 0 < wire[p] < 64 && l == LabelAt(wire, start, p) && Unmistaken(l)
    requires var q, f := p + 1 + wire[p] as int, first && High([wire[p]] + l);
      Ends(wire, q) && Shown(wire, q, f) == Flat(Body(labels), f)
    ensures Ends(wire, p) && Shown(wire, p, first) == Flat(Body([l] + labels), first)
  {
    var n := wire[p] as int;
    NameAtLabel(wire, start, p);
    UnmistakenRun(wire, p + 1, n);
    FlatBodyCons(l, labels, first);
    hide Ends, Shown, Flat, Body, High, NameAt;
    ShownThrough(wire, p, n + 1, first);
  }

  // Over such a name the walk ends, and prints the labels' bytes as if they had been
  // written out without compression.
  lemma {:induction false} ShownIsFlat(wire: seq<Octet>, start: nat, p: nat, first: bool)
    requires NameAt(wire, start, p) && Followed(wire, start, p)
    ensures Ends(wire, p) && Shown(wire, p, first) == Flat(Body(Labels(wire, start, p)), first)
    decreases start, |wire| - p
  {
    if wire[p] == 0 {
      assert Stops(wire, p, |wire|);
      OneTurn(wire, p, first);
    } else if wire[p] < 64 {
      var n := wire[p] as int;
      ShownIsFlat(wire, start, p + 1 + n, first && High([wire[p]] + LabelAt(wire, start, p)));
      hide Ends, Shown, Flat, Body, High, Followed;
      LabelIsFlat(wire, start, p, first, LabelAt(wire, start, p), Labels(wire, start, p + 1 + n));
    } else {
      ShownIsFlat(wire, Target(wire, p), Target(wire, p), first);
      EndsNext(wire, p);
      OneTurn(wire, p, first);
    }
  }

  // The exact condition.  For any compressed name with pointers below 256 and labels
  // that are free of dots, zeros and bytes that look like a pointer, grabCNames ends,
  // and prints the name that section 4.1.4 of RFC 1035 assigns if and only if the
  // name survives.
  lemma ShownIsNameIff(wire: seq<Octet>, start: nat, p: nat)
    requires NameAt(wire, start, p) && Followed(wire, start, p)
    requires forall i :: 0 <= i < |Labels(wire, start, p)| ==> Plain(Labels(wire, start, p)[i])
    ensures Ends(wire, p)
    ensures Shown(wire, p, true) == Dotted(Labels(wire, start, p)) <==> Survives(Labels(wire, start, p), true)
  {
    ShownIsFlat(wire, start, p, true);
    NameSurvivesIff(Labels(wire, start, p));
  }

  // With dots in the labels it still is enough that they are short and that no byte
  // looks like a length.
  lemma ShownIsName(wire: seq<Octet>, start: nat, p: nat, first: bool)
    requires NameAt(wire, start, p) && Followed(wire, start, p)
    requires forall i :: 0 <= i < |Labels(wire, start, p)| ==> Short(Labels(wire, start, p)[i])
    ensures Ends(wire, p) && Shown(wire, p, first) == Joined(Labels(wire, start, p), first)
  {
    ShownIsFlat(wire, start, p, first);
    FlatShort(Labels(wire, start, p), first);
  }

  predicate Short(l: seq<Octet>) { 0 < |l| <= 44 && High(l) }

  lemma {:induction false} FlatShort(labels: seq<seq<Octet>>, first: bool)
    requires forall i :: 0 <= i < |labels| ==> Short(labels[i])
    ensures Flat(Body(labels), first) == Joined(labels, first)
  {
    if labels != [] {
      var l, rest := labels[0], labels[1..];
      assert Short(l) && labels == [l] + rest;
      FlatShort(rest, false);
      FlatBodyCons(l, rest, first);
      FlatCons(|l| as Octet, l, first);
      FlatOfHigh(l);
      HighCons(|l| as Octet, l);
      JoinLabel(l, rest, first);
      hide Flat, Body, Joined;
    }
  }

  lemma {:induction false} FlatOfHigh(s: seq<Octet>)
    requires High(s)
    ensures Flat(s, false) == s
  {
    if s != [] {
      FlatOfHigh(s[1..]);
      assert s == [s[0]] + s[1..];
    }
  }

  // name_ascii_to_wire writes the encoding of the labels for the name they spell; on
  // that output grabCNames ends, and prints the name again exactly when it survives.
  lemma PrintedIffSurvives(wire: seq<Octet>, p: nat, labels: seq<seq<Octet>>)
    requires forall i :: 0 <= i < |labels| ==> Plain(labels[i])
    requires p + |Encode(labels)| <= |wire| && wire[p..p + |Encode(labels)|] == Encode(labels)
    ensures Tokens(Dotted(labels)) == labels
    ensures Ends(wire, p)
    ensures Shown(wire, p, true) == Dotted(labels) <==> Survives(labels, true)
  {
    hide Encode, Tokens, Dotted, Survives, Plain, Flat, Body, Ends, Shown;
    TokensOfPlain(labels);
    EncodeBody(labels);
    NameSurvivesIff(labels);
    Within(wire, p, Body(labels), [0], []);
    ShownBody(wire, p, Body(labels));
  }

  lemma ShownBody(wire: seq<Octet>, p: nat, s: seq<Octet>)
    requires p + |s| < |wire| && wire[p..p + |s|] == s && wire[p + |s|] == 0 && Unmistaken(s)
    ensures Ends(wire, p) && Shown(wire, p, true) == Flat(s, true)
  {
    forall k | p <= k < p + |s| ensures 0 < wire[k] < 0xC0 {
      assert wire[k] == s[k - p];
    }
    assert Stops(wire, p + |s|, |wire|);
    OneTurn(wire, p + |s|, High(s));
    ShownThrough(wire, p, |s|, true);
  }

  // Only the low byte of a pointer is used: a name at offset 256 or more is not
  // found through one.
  lemma FarPointerMissed() returns (wire: seq<Octet>)
    ensures NameAt(wire, 259, 259) && Labels(wire, 259, 259) == [[97]]
    ensures Ends(wire, 259) && Shown(wire, 259, true) == []
  {
    wire := seq(261, i => if i == 256 then 1 else if i == 257 then 97 else if i == 259 then 0xC1 else 0);
    assert NameAt(wire, 256, 258) && Labels(wire, 256, 258) == [];
    assert NameAt(wire, 256, 256) && Labels(wire, 256, 256) == [wire[257..258]];
    assert wire[257..258] == [97];
    assert Target(wire, 259) == 256;
    assert Next(wire, 259) == 0 && Ends(wire, 0) && Shown(wire, 0, true) == [];
    EndsNext(wire, 259);
    OneTurn(wire, 259, true);
  }
}

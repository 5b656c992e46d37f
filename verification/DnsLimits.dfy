// What name_ascii_to_wire of dns-lab/resolver.c makes of every name: how
// it is split at its dots, and which names survive being encoded.
module DnsLimits {
  import opened CStrings
  import opened Dns

  // Dots in front are passed over, and a label is followed by a dot or by the end, so
  // an empty label is no label.
  lemma SplitAtDots(l: seq<Octet>, s: seq<Octet>)
    requires l != [] && DOT !in l
    ensures Tokens([]) == [] && Tokens([DOT] + s) == Tokens(s)
    ensures Tokens(l) == [l] && Tokens(l + [DOT] + s) == [l] + Tokens(s)
  {
    assert l + [DOT] + s == l + ([DOT] + s) && l + [] == l && l[0] in l;
    SplitOne(l, []);
    SplitOne(l, [DOT] + s);
    assert ([DOT] + s)[1..] == s;
    SkipDot([DOT] + s);
    SkipDot([]);
  }

  // A label of 64 bytes or more does not survive: its length byte is cut to eight bits
  // and is then another length, the end of the name, or no length at all.
  lemma {:induction false} LongLabelLost(wire: seq<Octet>, p: nat, labels: seq<seq<Octet>>, i: nat)
    requires p <= |wire| && wire[p..] == Encode(labels) && i < |labels| && |labels[i]| >= 64
    requires forall k :: 0 <= k < |labels| ==> labels[k] != []
    ensures !(NameAt(wire, 0, p) && Labels(wire, 0, p) == labels)
    decreases |labels|
  {
    var l, rest := labels[0], Encode(labels[1..]);
    var c := |l| % 256;
    assert wire[p..] == [c as Octet] + l + rest;
    assert wire[p] == wire[p..][0] == c as Octet;
    if NameAt(wire, 0, p) && Labels(wire, 0, p) == labels {
      assert 0 < c < 64;
      NameAtLabel(wire, 0, p);
      assert LabelAt(wire, 0, p) == labels[0];
      assert |l| == c && i > 0;
      assert wire[p + 1 + c..] == wire[p..][1 + c..] == rest;
      LongLabelLost(wire, p + 1 + c, labels[1..], i - 1);
    }
  }

  // So a name without empty labels is decoded to itself exactly if none of them is
  // longer than the 63 bytes that section 2.3.4 of RFC 1035 allows.
  lemma EncodedDecodesIff(labels: seq<seq<Octet>>)
    requires forall k :: 0 <= k < |labels| ==> labels[k] != []
    ensures NameAt(Encode(labels), 0, 0) && Labels(Encode(labels), 0, 0) == labels
      <==> forall k :: 0 <= k < |labels| ==> |labels[k]| < 64
  {
    var wire := Encode(labels);
    assert wire[0..0 + |wire|] == wire && wire[0..] == wire;
    if i :| 0 <= i < |labels| && |labels[i]| >= 64 {
      LongLabelLost(wire, 0, labels, i);
    } else {
      DecodeEncoded(wire, 0, 0, labels);
    }
  }
}

// What the C library's string functions compute, for strings of characters and of
// bytes alike.
module CStrings {

  datatype Option<T> = None | Some(value: T)

  // strchr: the position of the first c, or |s|.
  function Find<T(==)>(s: seq<T>, c: T): (d: nat)
    ensures d <= |s|
  {
    if s == [] || s[0] == c then 0 else 1 + Find(s[1..], c)
  }

  // The number of delimiters at the front, which strtok skips.
  function Lead<T(==)>(s: seq<T>, c: T): (n: nat)
    ensures n <= |s|
  {
    if s == [] || s[0] != c then 0 else 1 + Lead(s[1..], c)
  }

  // strtok: where the first token of s ends.
  function TokenEnd<T(==)>(s: seq<T>, c: T): (i: nat)
    ensures i <= |s|
  {
    Lead(s, c) + Find(s[Lead(s, c)..], c)
  }

  // The token itself, empty where strtok returns NULL.
  function Token<T(==)>(s: seq<T>, c: T): seq<T> {
    s[Lead(s, c)..TokenEnd(s, c)]
  }

  // Both are the first positions of their kind.
  lemma {:induction false} FindIs<T>(s: seq<T>, c: T, d: nat)
    requires d <= |s| && (forall k :: 0 <= k < d ==> s[k] != c) && (d < |s| ==> s[d] == c)
    ensures Find(s, c) == d
  {
    if d > 0 { FindIs(s[1..], c, d - 1); }
  }

  lemma {:induction false} LeadIs<T>(s: seq<T>, c: T, n: nat)
    requires n <= |s| && (forall k :: 0 <= k < n ==> s[k] == c) && (n < |s| ==> s[n] != c)
    ensures Lead(s, c) == n
  {
    if n > 0 { LeadIs(s[1..], c, n - 1); }
  }

  lemma {:induction false} FindFirst<T>(s: seq<T>, c: T)
    ensures c !in s[..Find(s, c)] && (Find(s, c) < |s| ==> s[Find(s, c)] == c)
  {
    if s != [] && s[0] != c {
      FindFirst(s[1..], c);
      assert s[..Find(s, c)] == [s[0]] + s[1..][..Find(s[1..], c)];
    }
  }

  lemma FindAfter<T>(s: seq<T>, c: T, rest: seq<T>)
    requires c !in s && (rest == [] || rest[0] == c)
    ensures Find(s + rest, c) == |s|
  {
    forall k | 0 <= k < |s| ensures (s + rest)[k] != c {
      assert s[k] in s;
    }
    FindIs(s + rest, c, |s|);
  }

  // strlen, for a string that a NUL or the end of the buffer ends.
  method StrLen<T(==)>(buf: array<T>, at: nat, nul: T) returns (n: nat)
    requires at <= buf.Length
    ensures n == Find(buf[at..], nul)
  {
    n := 0;
    while at + n < buf.Length && buf[at + n] != nul
      invariant at + n <= buf.Length && forall k :: at <= k < at + n ==> buf[k] != nul
    {
      n := n + 1;
    }
    FindIs(buf[at..], nul, n);
  }
}

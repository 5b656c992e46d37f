// sio_ltoa, sio_reverse and sio_strlen of hw6-concurrency/csapp.c.
module Sio {

  import opened CStrings

  // One past the largest long
  const LONG_LIMIT := 0x8000_0000_0000_0000

  // C's division rounds towards zero and its remainder has the sign of v.
  function Quotient(v: int, b: nat): int
    requires b > 0
  {
    if v >= 0 then v / b else -((-v) / b)
  }

  function Remainder(v: int, b: nat): int
    requires b > 0
  {
    if v >= 0 then v % b else -((-v) % b)
  }

  // The character sio_ltoa writes for c; a negative c gives one below '0'.
  function Digit(c: int): char
    requires -36 < c < 36
  {
    if c < 10 then ('0' as int + c) as char else (c - 10 + 'a' as int) as char
  }

  // The numeral of v in base b, most significant digit first.
  function Numeral(v: nat, b: nat): (s: string)
    requires 2 <= b <= 36
    ensures s != []
  {
    if v < b then [Digit(v)] else Numeral(v / b, b) + [Digit(v % b)]
  }

  // What sio_ltoa prints: of a negative number only the last digit, if that.
  function Printed(v: int, b: nat): (s: string)
    requires 2 <= b <= 36
    ensures s != []
  {
    if v >= 0 then Numeral(v, b) else [Digit(Remainder(v, b))]
  }

  // ---- Reading a numeral -------------------------------------------------------

  function DigitValue(d: char, b: nat): Option<nat> {
    if '0' <= d <= '9' && d as int - '0' as int < b then Some(d as int - '0' as int)
    else if 'a' <= d <= 'z' && d as int - 'a' as int + 10 < b then Some(d as int - 'a' as int + 10)
    else None
  }

  function Value(s: string, b: nat): Option<nat> {
    if s == [] then Some(0)
    else
      var high, low := Value(s[..|s| - 1], b), DigitValue(s[|s| - 1], b);
      if high.None? || low.None? then None else Some(high.value * b + low.value)
  }

  lemma DivideRange(v: nat, b: nat)
    requires b >= 2
    ensures 0 <= v / b && 0 <= v % b < b && v == v / b * b + v % b
    ensures v / b > 0 <==> v >= b
    ensures v < b ==> v % b == v
    ensures v > 0 ==> v / b < v
  {
    if v > 0 { Halved(v, b, v); }
  }

  lemma DigitReads(c: nat, b: nat)
    requires 2 <= b <= 36 && c < b
    ensures DigitValue(Digit(c), b) == Some(c)
    ensures Digit(c) == '0' <==> c == 0
  {
  }

  lemma DigitWrites(d: char, b: nat)
    requires 2 <= b <= 36 && DigitValue(d, b).Some?
    ensures DigitValue(d, b).value < b && Digit(DigitValue(d, b).value) == d
  {
  }

  lemma ValueAppend(s: string, d: char, b: nat)
    requires Value(s, b).Some? && DigitValue(d, b).Some?
    ensures Value(s + [d], b) == Some(Value(s, b).value * b + DigitValue(d, b).value)
  {
    assert (s + [d])[..|s|] == s;
  }

  lemma {:induction false} NumeralReads(v: nat, b: nat)
    requires 2 <= b <= 36
    ensures Value(Numeral(v, b), b) == Some(v)
    ensures Numeral(v, b)[0] == '0' <==> v == 0
  {
    hide Digit, DigitValue;
    if v < b {
      DigitReads(v, b);
      ValueAppend([], Digit(v), b);
      assert [] + [Digit(v)] == [Digit(v)];
    } else {
      hide Value;
      DivideRange(v, b);
      NumeralReads(v / b, b);
      DigitReads(v % b, b);
      ValueAppend(Numeral(v / b, b), Digit(v % b), b);
    }
  }

  // A reader of signed numerals: an optional minus sign, and then digits.
  function SignedValue(s: string, b: nat): Option<int> {
    var negative := s != "" && s[0] == '-';
    var digits := if negative then s[1..] else s;
    var v := Value(digits, b);
    if digits == "" || v.None? then None else Some(if negative then -(v.value as int) else v.value as int)
  }

  // There are numerals that it takes for a negative number...
  lemma NegativeReads(v: int, b: nat)
    requires 2 <= b <= 36 && v < 0
    ensures SignedValue("-" + Numeral(-v, b), b) == Some(v)
  {
    NumeralReads(-v, b);
    assert ("-" + Numeral(-v, b))[1..] == Numeral(-v, b);
  }

  // ...but sio_ltoa does not print them: for every long, what it prints reads back
  // as the number if and only if the number is not negative.
  lemma PrintedReadsIff(v: int, b: nat)
    requires 2 <= b <= 36
    ensures SignedValue(Printed(v, b), b) == Some(v) <==> v >= 0
    ensures v < 0 ==> SignedValue(Printed(v, b), b) == if Remainder(v, b) == 0 then Some(0) else None
    ensures v >= 0 ==> Printed(v, b)[0] != '0' || Printed(v, b) == "0"
  {
    if v >= 0 {
      NumeralReads(v, b);
      NumeralNotMinus(v, b);
    } else {
      DivideRange(-v, b);
      LoneDigit(Remainder(v, b), b);
    }
  }

  // Of a negative number there is just one character, as far below '0' as its last digit
  // is above 0: numbers with the same last digit are printed alike.
  lemma NegativePrinted(v: int, b: nat)
    requires 2 <= b <= 36 && v < 0
    ensures |Printed(v, b)| == 1 && Printed(v, b)[0] as int == '0' as int - (-v) % b
    ensures Printed(v, b) == Printed(v - b, b)
  {
    DivideRange(-v, b);
    DivideBack((-v) / b + 1, (-v) % b, b);
    OneMoreTimes((-v) / b, b);
  }

  lemma OneMoreTimes(q: int, b: int)
    ensures (q + 1) * b == q * b + b
  {
  }

  // A digit that is 0 or below, on its own: a lone minus sign is no number.
  lemma LoneDigit(c: int, b: nat)
    requires 2 <= b <= 36 && -36 < c <= 0
    ensures SignedValue([Digit(c)], b) == if c == 0 then Some(0) else None
  {
    var d := Digit(c);
    assert [d][..0] == [] && [d][1..] == [];
    assert Value([], b) == Some(0);
    assert DigitValue(d, b) == if c == 0 then Some(0) else None;
    assert Value([d], b) == if c == 0 then Some(0) else None;
  }

  lemma {:induction false} NumeralNotMinus(v: nat, b: nat)
    requires 2 <= b <= 36
    ensures Numeral(v, b)[0] != '-'
  {
    if v >= b {
      DivideRange(v, b);
      NumeralNotMinus(v / b, b);
    }
  }

  // A numeral has no other spelling: whatever reads as v and has no leading zero
  // is what sio_ltoa prints for v.
  lemma {:induction false} OnlySpelling(s: string, b: nat)
    requires 2 <= b <= 36 && s != [] && Value(s, b).Some? && (s[0] != '0' || |s| == 1)
    ensures s == Numeral(Value(s, b).value, b)
    decreases |s|
  {
    var high, d := s[..|s| - 1], s[|s| - 1];
    DigitWrites(d, b);
    assert s == high + [d];
    var c := DigitValue(d, b).value;
    if high == [] {
      assert Value(s, b) == Some(c);
    } else {
      assert high[0] == s[0] != '0';
      OnlySpelling(high, b);
      NumeralReads(Value(high, b).value, b);
      DivideBack(Value(high, b).value, c, b);
    }
  }

  lemma DivideBack(high: nat, c: nat, b: nat)
    requires c < b
    ensures (high * b + c) / b == high && (high * b + c) % b == c
    ensures high > 0 ==> high * b + c >= b
  {
    var x := high * b + c;
    var d := x / b - high;
    assert d * b == c - x % b;
    OnlyZero(d, b);
    if high > 0 { Monotone(1, high, b); }
  }

  lemma OnlyZero(d: int, b: nat)
    requires -(b as int) < d * b < b
    ensures d == 0
  {
    if d > 0 {
      Monotone(1, d, b);
    } else if d < 0 {
      Monotone(d, -1, b);
    }
  }

  lemma Monotone(a: int, c: int, b: nat)
    requires a <= c
    ensures a * b <= c * b
  {
  }

  lemma Halved(v: nat, b: nat, m: nat)
    requires b >= 2 && v < 2 * m
    ensures v / b < m
  {
    if v / b >= m {
      Monotone(2, b, v / b);
    }
  }

  function Pow2(n: nat): nat { if n == 0 then 1 else 2 * Pow2(n - 1) }

  lemma {:induction false} NumeralLength(v: nat, b: nat, n: nat)
    requires 2 <= b <= 36 && n > 0 && v < Pow2(n)
    ensures |Numeral(v, b)| <= n
    decreases n
  {
    if n == 1 {
      assert Pow2(1) == 2;
    } else if v >= b {
      Halved(v, b, Pow2(n - 1));
      NumeralLength(v / b, b, n - 1);
    }
  }

  lemma {:induction false} PowersAdd(m: nat, n: nat)
    ensures Pow2(m + n) == Pow2(m) * Pow2(n)
  {
    if m > 0 {
      PowersAdd(m - 1, n);
      assert Pow2(m + n) == 2 * (Pow2(m - 1) * Pow2(n)) == Pow2(m) * Pow2(n);
    }
  }

  lemma LongLimit()
    ensures Pow2(63) == LONG_LIMIT
  {
    assert Pow2(9) == 512;
    PowersAdd(9, 9);
    PowersAdd(18, 9);
    PowersAdd(27, 27);
    PowersAdd(54, 9);
  }

  // No long needs more than 63 characters, so the 128 of sio_putl are enough.
  lemma LongFits(v: int, b: nat)
    requires 2 <= b <= 36 && -LONG_LIMIT <= v < LONG_LIMIT
    ensures |Printed(v, b)| <= 63
  {
    if v >= 0 {
      LongLimit();
      NumeralLength(v, b, 63);
    }
  }

  // ---- The code in its own form ---------------------------------------------------

  function Reversed(s: string): (r: string)
    ensures |r| == |s|
  {
    if s == [] then [] else Reversed(s[1..]) + [s[0]]
  }

  lemma {:induction false} ReversedAt(s: string, k: nat)
    requires k < |s|
    ensures Reversed(s)[k] == s[|s| - 1 - k]
  {
    if k < |s| - 1 { ReversedAt(s[1..], k); }
  }

  lemma ReversedEmpty()
    ensures Reversed([]) == []
  {
  }

  lemma {:induction false} ReversedAppend(s: string, c: char)
    ensures Reversed(s + [c]) == [c] + Reversed(s)
  {
    if s != [] {
      assert (s + [c])[1..] == s[1..] + [c];
      ReversedAppend(s[1..], c);
    }
  }

  // One turn of the loop of sio_ltoa: the last digit, and what is before it.
  lemma PrintedStep(v: int, b: nat)
    requires 2 <= b <= 36
    ensures Quotient(v, b) > 0 ==> Quotient(v, b) < v
    ensures -36 < Remainder(v, b) < 36 && Digit(Remainder(v, b)) != '\0'
    ensures Printed(v, b) ==
      (if Quotient(v, b) > 0 then Printed(Quotient(v, b), b) else []) + [Digit(Remainder(v, b))]
  {
    hide Digit;
    DigitIsChar(Remainder(v, b));
    if v < 0 {
      DivideRange(-v, b);
    } else {
      DivideRange(v, b);
    }
  }

  lemma DigitIsChar(c: int)
    requires -36 < c < 36
    ensures Digit(c) != '\0'
  {
  }

  // The NUL that ends the string in s is at n.
  ghost predicate EndsAt(s: array<char>, n: nat)
    reads s
  {
    n < s.Length && s[n] == '\0' && forall k :: 0 <= k < n ==> s[k] != '\0'
  }

  method Reverse(s: array<char>, ghost n: nat)
    requires EndsAt(s, n)
    modifies s
    ensures s[..n] == Reversed(old(s[..n]))
    ensures forall k :: n <= k < s.Length ==> s[k] == old(s[k])
  {
    FindIs(s[0..], '\0', n);
    var length := StrLen(s, 0, '\0');
    var i, j := 0, length as int - 1;
    ghost var was := s[..];
    while i < j
      invariant 0 <= i <= j + 1 && i + j == n - 1
      invariant forall k :: 0 <= k < i || j < k < n ==> s[k] == was[n - 1 - k]
      invariant forall k :: i <= k <= j || n <= k < s.Length ==> s[k] == was[k]
    {
      s[i], s[j] := s[j], s[i];
      i, j := i + 1, j - 1;
    }
    forall k | 0 <= k < n ensures s[k] == Reversed(was[..n])[k] {
      ReversedAt(was[..n], k);
    }
    assert s[..n] == Reversed(was[..n]);
  }

  method Ltoa(v: int, s: array<char>, b: nat)
    requires 2 <= b <= 36 && |Printed(v, b)| < s.Length
    modifies s
    ensures s[..|Printed(v, b)|] == Printed(v, b) && s[|Printed(v, b)|] == '\0'
  {
    hide Printed, Digit, Quotient, Remainder, Reversed;
    ghost var all := Printed(v, b);
    var i: nat, x, more := 0, v, true;
    assert Reversed(s[..i]) == [] by { ReversedEmpty(); }
    while more
      invariant i <= s.Length && (more ==> i == 0 || x > 0) && (forall k :: 0 <= k < i ==> s[k] != '\0')
      invariant all == (if more then Printed(x, b) else []) + Reversed(s[..i])
      decreases more, if x > 0 then x else 0
    {
      PrintedStep(x, b);
      ghost var digits := s[..i];
      ReversedAppend(digits, Digit(Remainder(x, b)));
      s[i] := Digit(Remainder(x, b));
      assert s[..i + 1] == digits + [Digit(Remainder(x, b))];
      i := i + 1;
      x := Quotient(x, b);
      more := x > 0;
    }
    ghost var digits := s[..i];
    s[i] := '\0';
    assert s[..i] == digits && |Reversed(digits)| == i;
    Reverse(s, i);
  }
}

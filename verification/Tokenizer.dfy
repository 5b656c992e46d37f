// parseline of shell-lab1/tsh.c: cut a command line into words in place.
module Tokenizer {
  import opened CStrings

  const MAXLINE: nat := 1024
  const MAXARGS: nat := 128
  const NUL: char := '\0'
  const QUOTE: char := '\''

  // ---- What the words of a line are ----------------------------------------

  // Where the next word of s starts, and the character that ends it.
  function Start(s: string): (r: (nat, char))
    ensures r.0 <= |s|
  {
    var b := Lead(s, ' ');
    if b < |s| && s[b] == QUOTE then (b + 1, QUOTE) else (b, ' ')
  }

  // The next word and what follows the character that ends it, if that
  // character occurs.
  datatype Cut = NoWord | NextWord(word: string, rest: string)

  function CutAt(v: string, end: char): (r: Cut)
    ensures r.NextWord? ==> |r.rest| < |v|
  {
    var d := Find(v, end);
    if d == |v| then NoWord else NextWord(v[..d], v[d + 1..])
  }

  function FirstWord(s: string): (r: Cut)
    ensures r.NextWord? ==> |r.rest| < |s|
  {
    CutAt(s[Start(s).0..], Start(s).1)
  }

  function Tokens(s: string): seq<string>
    decreases |s|
  {
    match FirstWord(s)
    case NoWord => []
    case NextWord(word, rest) => [word] + Tokens(rest)
  }

  // The words parseline leaves in argv, and its result: whether the job is to
  // run in the background, and also true for a blank line.
  function Parsed(tokens: seq<string>): (r: (seq<string>, bool)) {
    if tokens == [] then ([], true)
    else
      var last := tokens[|tokens| - 1];
      if last != "" && last[0] == '&' then (tokens[..|tokens| - 1], true) else (tokens, false)
  }

  // The newline at the end of the line is replaced by a space.
  function Text(cmdline: string): string
    requires cmdline != ""
  {
    cmdline[..|cmdline| - 1] + " "
  }

  // ---- Tokenizing undoes printing -------------------------------------------

  datatype Word = Bare(s: string) | Quoted(s: string)

  // A word and the number of spaces after it.
  datatype Item = Item(word: Word, gap: nat)

  predicate Printable(w: Word) {
    match w
    case Bare(s) => s != "" && ' ' !in s && s[0] != QUOTE
    case Quoted(s) => QUOTE !in s
  }

  // A bare word needs a space before the next word; a quoted word does not.
  predicate Separated(items: seq<Item>) {
    forall i :: 0 <= i < |items| ==>
      Printable(items[i].word) && (items[i].word.Bare? && i < |items| - 1 ==> items[i].gap > 0)
  }

  function Spaces(n: nat): (s: string)
    ensures |s| == n && forall k :: 0 <= k < n ==> s[k] == ' '
  {
    if n == 0 then "" else " " + Spaces(n - 1)
  }

  function Shown(w: Word): string {
    match w
    case Bare(s) => s
    case Quoted(s) => [QUOTE] + s + [QUOTE]
  }

  function Print(items: seq<Item>): string {
    if items == [] then "" else Shown(items[0].word) + Spaces(items[0].gap) + Print(items[1..])
  }

  function Values(items: seq<Item>): seq<string> {
    if items == [] then [] else [items[0].word.s] + Values(items[1..])
  }

  lemma Assoc(a: string, b: string, c: string, d: string)
    ensures (a + b) + c == a + (b + c)
    ensures ((a + b) + c) + d == a + (b + (c + d))
  {
  }

  lemma DropFront(a: string, s: string, k: nat)
    requires k <= |s|
    ensures (a + s)[|a| + k..] == s[k..]
    ensures k < |s| ==> (a + s)[|a| + k] == s[k]
  {
  }

  lemma {:induction false} BlanksOfSpaces(n: nat, s: string)
    ensures Lead(Spaces(n) + s, ' ') == n + Lead(s, ' ')
  {
    if n > 0 {
      BlanksOfSpaces(n - 1, s);
      assert (Spaces(n) + s)[1..] == Spaces(n - 1) + s;
    } else {
      assert Spaces(0) + s == s;
    }
  }

  lemma StartOfSpaces(n: nat, s: string)
    ensures Start(Spaces(n) + s) == (n + Start(s).0, Start(s).1)
  {
    BlanksOfSpaces(n, s);
    DropFront(Spaces(n), s, Lead(s, ' '));
  }

  lemma SameCut(s: string, t: string)
    requires Start(s).1 == Start(t).1 && s[Start(s).0..] == t[Start(t).0..]
    ensures FirstWord(s) == FirstWord(t)
  {
  }

  lemma SkipSpaces(n: nat, s: string)
    ensures FirstWord(Spaces(n) + s) == FirstWord(s)
  {
    StartOfSpaces(n, s);
    DropFront(Spaces(n), s, Start(s).0);
    SameCut(Spaces(n) + s, s);
  }

  lemma BareFirst(s: string, rest: string)
    requires Printable(Bare(s))
    ensures FirstWord(s + " " + rest) == NextWord(s, rest)
  {
    var t := s + " " + rest;
    assert t[0] == s[0];
    assert Start(t) == (0, ' ');
    assert t == s + (" " + rest) && t[0..] == t;
    FindAfter(s, ' ', " " + rest);
    assert t[..|s|] == s && t[|s| + 1..] == rest;
  }

  lemma QuotedFirst(s: string, rest: string)
    requires Printable(Quoted(s))
    ensures FirstWord([QUOTE] + s + [QUOTE] + rest) == NextWord(s, rest)
  {
    var t := [QUOTE] + s + [QUOTE] + rest;
    assert t[0] == QUOTE;
    assert Start(t) == (1, QUOTE);
    var v := s + ([QUOTE] + rest);
    assert t[1..] == v;
    FindAfter(s, QUOTE, [QUOTE] + rest);
    assert v[..|s|] == s && v[|s| + 1..] == rest;
  }

  // What is left after the word of the first item is cut off.
  function AfterFirst(item: Item, rest: string): string {
    if item.word.Quoted? then Spaces(item.gap) + rest
    else if item.gap > 0 then Spaces(item.gap - 1) + rest
    else ""
  }

  lemma FirstItem(item: Item, rest: string)
    requires Printable(item.word) && (item.word.Bare? && item.gap == 0 ==> rest == " ")
    ensures FirstWord(Shown(item.word) + (Spaces(item.gap) + rest)) == NextWord(item.word.s, AfterFirst(item, rest))
  {
    var s, after := item.word.s, AfterFirst(item, rest);
    if item.word.Quoted? {
      QuotedFirst(s, after);
    } else {
      if item.gap > 0 {
        Assoc(" ", Spaces(item.gap - 1), rest, "");
      } else {
        assert Spaces(0) + rest == " " + after;
      }
      Assoc(s, " ", after, "");
      BareFirst(s, after);
    }
  }

  lemma SameFirst(s: string, t: string)
    requires FirstWord(s) == FirstWord(t)
    ensures Tokens(s) == Tokens(t)
  {
  }

  lemma AfterFirstTokens(item: Item, rest: string)
    requires item.word.Bare? && item.gap == 0 ==> rest == " "
    ensures Tokens(AfterFirst(item, rest)) == Tokens(rest)
  {
    if item.word.Quoted? {
      SkipSpaces(item.gap, rest);
      SameFirst(AfterFirst(item, rest), rest);
    } else if item.gap > 0 {
      SkipSpaces(item.gap - 1, rest);
      SameFirst(AfterFirst(item, rest), rest);
    } else {
      assert FirstWord("") == NoWord == FirstWord(" ");
    }
  }

  lemma PrintCons(items: seq<Item>)
    requires items != []
    ensures Print(items) + " " == Shown(items[0].word) + (Spaces(items[0].gap) + (Print(items[1..]) + " "))
  {
    Assoc(Shown(items[0].word), Spaces(items[0].gap), Print(items[1..]), " ");
  }

  lemma NextTokens(t: string, word: string, after: string, rest: string)
    requires FirstWord(t) == NextWord(word, after) && Tokens(after) == Tokens(rest)
    ensures Tokens(t) == [word] + Tokens(rest)
  {
  }

  lemma LastGap(items: seq<Item>)
    requires Separated(items) && items != []
    ensures Separated(items[1..])
    ensures items[0].word.Bare? && items[0].gap == 0 ==> Print(items[1..]) + " " == " "
  {
    var rest := items[1..];
    forall i | 0 <= i < |rest|
      ensures Printable(rest[i].word) && (rest[i].word.Bare? && i < |rest| - 1 ==> rest[i].gap > 0)
    {
      assert rest[i] == items[i + 1];
    }
  }

  lemma {:induction false} TokensOfPrint(items: seq<Item>)
    requires Separated(items)
    ensures Tokens(Print(items) + " ") == Values(items)
  {
    if items == [] {
      assert Print(items) + " " == " ";
      assert FirstWord(" ") == NoWord;
    } else {
      var item, rest := items[0], Print(items[1..]) + " ";
      LastGap(items);
      TokensOfPrint(items[1..]);
      FirstItem(item, rest);
      AfterFirstTokens(item, rest);
      PrintCons(items);
      NextTokens(Print(items) + " ", item.word.s, AfterFirst(item, rest), rest);
    }
  }

  // A printed line, with any leading spaces and ended by a newline, is cut into
  // exactly the words it was printed from.
  lemma PrintedLine(lead: nat, items: seq<Item>)
    requires Separated(items)
    ensures Tokens(Text(Spaces(lead) + Print(items) + "\n")) == Values(items)
  {
    var line := Spaces(lead) + Print(items) + "\n";
    assert Text(line) == Spaces(lead) + (Print(items) + " ");
    SkipSpaces(lead, Print(items) + " ");
    SameFirst(Text(line), Print(items) + " ");
    TokensOfPrint(items);
  }

  // What is left in argv of the words of a printed line, and whether the job is to
  // run in the background: a last word that begins with & is dropped and asks for it,
  // and so does a line without words.
  lemma PrintedArgv(lead: nat, items: seq<Item>)
    requires Separated(items)
    ensures var words, r := Values(items), Parsed(Tokens(Text(Spaces(lead) + Print(items) + "\n")));
      && (words == [] ==> r == ([], true))
      && (words != [] && "&" <= words[|words| - 1] ==> r == (words[..|words| - 1], true))
      && (words != [] && !("&" <= words[|words| - 1]) ==> r == (words, false))
  {
    PrintedLine(lead, items);
  }

  // ---- The code in its own form ------------------------------------------------

  // The C string that starts at a[i] is s.
  predicate HoldsAt(a: seq<char>, i: int, s: string) {
    0 <= i && i + |s| < |a| && a[i..i + |s|] == s && a[i + |s|] == NUL
  }

  // The string from position `from` on ends at n.
  predicate Ends(a: seq<char>, from: nat, n: nat) {
    from <= n < |a| && a[n] == NUL && forall k :: from <= k < n ==> a[k] != NUL
  }

  // while (*buf && (*buf == ' ')) buf++;
  method SkipBlanks(a: array<char>, buf: nat, ghost n: nat) returns (start: nat)
    requires Ends(a[..], buf, n)
    ensures start == buf + Lead(a[..][buf..n], ' ')
  {
    start := buf;
    while a[start] != NUL && a[start] == ' '
      invariant buf <= start <= n
      invariant forall k :: buf <= k < start ==> a[k] == ' '
      decreases n - start
    {
      start := start + 1;
    }
    LeadIs(a[..][buf..n], ' ', start - buf);
  }

  // strchr, with -1 for NULL.
  method StrChr(a: array<char>, start: nat, ghost n: nat, c: char) returns (delim: int)
    requires Ends(a[..], start, n) && c != NUL
    ensures var d := Find(a[..][start..n], c); delim == if d == n - start then -1 else start + d
  {
    delim := start;
    while a[delim] != NUL && a[delim] != c
      invariant start <= delim <= n
      invariant forall k :: start <= k < delim ==> a[k] != c
      decreases n - delim
    {
      delim := delim + 1;
    }
    FindIs(a[..][start..n], c, delim - start);
    if a[delim] == NUL {
      delim := -1;
    }
  }

  // Where the next word of a[buf..n] starts and ends.
  predicate Located(a: seq<char>, buf: nat, n: nat, start: nat, delim: int)
    requires buf <= n <= |a|
  {
    match FirstWord(a[buf..n])
    case NoWord => delim == -1
    case NextWord(word, rest) => buf <= start <= delim < n && a[start..delim] == word && a[delim + 1..n] == rest
  }

  lemma LocatedAt(a: seq<char>, buf: nat, n: nat, start: nat, d: nat)
    requires buf <= n <= |a| && start == buf + Start(a[buf..n]).0
    requires d == Find(a[start..n], Start(a[buf..n]).1)
    ensures Located(a, buf, n, start, if d == n - start then -1 else start + d)
  {
    hide Find, Lead, Start;
    assert a[buf..n][start - buf..] == a[start..n];
    if d < n - start {
      assert a[start..n][..d] == a[start..start + d];
      assert a[start..n][d + 1..] == a[start + d + 1..n];
    }
  }

  // Skip spaces and an opening quote, and look for the end of the word: the
  // position where the word starts and that of the character after it, or -1.
  method Locate(a: array<char>, buf: nat, ghost n: nat) returns (start: nat, delim: int)
    requires Ends(a[..], buf, n)
    ensures Located(a[..], buf, n, start, delim)
  {
    hide Find, Lead, Located;
    ghost var text := a[..];
    start := SkipBlanks(a, buf, n);
    ghost var end := ' ';
    if a[start] == QUOTE {
      start := start + 1;
      end := QUOTE;
      delim := StrChr(a, start, n, QUOTE);
    } else {
      delim := StrChr(a, start, n, ' ');
    }
    assert (start - buf, end) == Start(text[buf..n]);
    LocatedAt(text, buf, n, start, Find(text[start..n], end));
  }

  lemma HoldsFrame(a: seq<char>, a': seq<char>, i: int, s: string, from: nat)
    requires from <= |a| == |a'| && a[..from] == a'[..from]
    requires HoldsAt(a, i, s) && i + |s| < from
    ensures HoldsAt(a', i, s)
  {
    assert a'[i..i + |s|] == a'[..from][i..i + |s|] == a[..from][i..i + |s|];
    assert a'[i + |s|] == a'[..from][i + |s|];
  }

  // The C strings argv[0], argv[1], ... are the words, all of them before `from`.
  ghost predicate Words(a: seq<char>, argv: seq<int>, words: seq<string>, from: nat) {
    |words| <= |argv| && from <= |a| &&
    forall k :: 0 <= k < |words| ==> HoldsAt(a, argv[k], words[k]) && argv[k] + |words[k]| < from
  }

  lemma WordsFrame(a: seq<char>, a': seq<char>, argv: seq<int>, words: seq<string>, from: nat, word: string, start: nat)
    requires Words(a, argv, words, from) && |words| < |argv| && from <= start <= |a| == |a'|
    requires a[..start] == a'[..start] && HoldsAt(a', start, word)
    ensures Words(a', argv[|words| := start], words + [word], start + |word| + 1)
  {
    forall k | 0 <= k < |words| ensures HoldsAt(a', argv[k], words[k]) {
      assert a[..from] == a[..start][..from];
      assert a'[..from] == a'[..start][..from];
      HoldsFrame(a, a', argv[k], words[k], from);
    }
  }

  lemma WordsWiden(a: seq<char>, argv: seq<int>, words: seq<string>, from: nat, to: nat)
    requires Words(a, argv, words, from) && from <= to <= |a|
    ensures Words(a, argv, words, to)
  {
  }

  // strcpy(buf, cmdline); buf[strlen(buf)-1] = ' ';
  method CopyLine(cmdline: string, a: array<char>)
    requires 0 < |cmdline| < a.Length
    modifies a
    requires NUL !in cmdline
    ensures a[..|cmdline|] == Text(cmdline) && Ends(a[..], 0, |cmdline|)
  {
    var n := |cmdline|;
    for i := 0 to n
      invariant a[..i] == cmdline[..i]
    {
      a[i] := cmdline[i];
    }
    a[n] := NUL;
    a[n - 1] := ' ';
  }

  // argv[argc++] = buf; *delim = '\0';
  method CutWord(a: array<char>, argv: array<int>, argc: nat, buf: nat, delim: nat, ghost words: seq<string>, ghost from: nat)
    requires from <= buf <= delim < a.Length && argc == |words| < argv.Length
    requires NUL !in a[..][buf..delim] && Words(a[..], argv[..], words, from)
    modifies a, argv
    ensures a[..] == old(a[..])[delim := NUL]
    ensures Words(a[..], argv[..], words + [old(a[..][buf..delim])], delim + 1)
  {
    ghost var was, argvWas := a[..], argv[..];
    argv[argc] := buf;
    a[delim] := NUL;
    assert a[..][..buf] == was[..buf];
    assert a[..][buf..delim] == was[buf..delim];
    WordsFrame(was, a[..], argvWas, words, from, was[buf..delim], buf);
  }

  lemma TokensStep(text: string)
    ensures FirstWord(text).NoWord? ==> Tokens(text) == []
    ensures FirstWord(text).NextWord? ==> Tokens(text) == [FirstWord(text).word] + Tokens(FirstWord(text).rest)
  {
  }

  // The next word is a[buf..delim], if there is one, and the words after it are
  // those of what is left when it has been cut off.
  ghost predicate Cutting(a: seq<char>, from: nat, n: nat, buf: nat, delim: int) {
    Ends(a, from, n) &&
    if delim == -1 then Tokens(a[from..n]) == []
    else
      && from <= buf <= delim < n && NUL !in a[buf..delim]
      && Ends(a[delim := NUL], delim + 1, n)
      && Tokens(a[from..n]) == [a[buf..delim]] + Tokens(a[delim := NUL][delim + 1..n])
  }

  lemma CutLeavesRest(a: seq<char>, delim: nat, n: nat)
    requires delim < n < |a|
    ensures a[delim := NUL][delim + 1..n] == a[delim + 1..n]
  {
  }

  lemma LocatedCuts(a: seq<char>, from: nat, n: nat, buf: nat, delim: int)
    requires Ends(a, from, n) && Located(a, from, n, buf, delim)
    ensures Cutting(a, from, n, buf, delim)
  {
    hide FirstWord, Tokens;
    var text := a[from..n];
    TokensStep(text);
    match FirstWord(text) {
      case NoWord =>
      case NextWord(word, rest) =>
        CutLeavesRest(a, delim, n);
        assert a[delim := NUL][delim + 1..n] == rest;
    }
  }

  lemma Regroup(done: seq<string>, left: seq<string>)
    requires left != []
    ensures done + left == (done + [left[0]]) + left[1..]
  {
  }

  // Between two turns of the loop: `done` has been cut off, `left` is to come,
  // and the next word of `left`, if any, is the string from start to end.
  ghost predicate Midway(a: seq<char>, argv: seq<int>, from: nat, n: nat, start: nat, end: int,
                         done: seq<string>, left: seq<string>) {
    Cutting(a, from, n, start, end) && Words(a, argv, done, from) && left == Tokens(a[from..n])
  }

  // What Midway allows the next turn to do.
  lemma MidwayNext(a: seq<char>, argv: seq<int>, from: nat, n: nat, start: nat, end: int,
                   done: seq<string>, left: seq<string>)
    requires Midway(a, argv, from, n, start, end, done, left) && end != -1
    ensures from <= start <= end < n < |a| && NUL !in a[start..end]
    ensures Words(a, argv, done, from) && Ends(a[end := NUL], end + 1, n)
    ensures left == [a[start..end]] + Tokens(a[end := NUL][end + 1..n])
  {
  }

  // One turn of the loop: cut the word off and look for the next.
  method CutAndLocate(a: array<char>, argv: array<int>, argc: nat, start: nat, end: nat,
                      ghost n: nat, ghost from: nat, ghost done: seq<string>, ghost left: seq<string>)
    returns (buf: nat, delim: int)
    requires Midway(a[..], argv[..], from, n, start, end, done, left)
    requires argc == |done| < argv.Length
    modifies a, argv
    ensures from <= end < n && left != []
    ensures Midway(a[..], argv[..], end + 1, n, buf, delim, done + [left[0]], left[1..])
  {
    MidwayNext(a[..], argv[..], from, n, start, end, done, left);
    CutWord(a, argv, argc, start, end, done, from);
    buf, delim := Locate(a, end + 1, n);
    LocatedCuts(a[..], end + 1, n, buf, delim);
  }

  lemma MidwayEnds(a: seq<char>, argv: seq<int>, from: nat, n: nat, start: nat, end: int,
                   done: seq<string>, left: seq<string>)
    requires Midway(a, argv, from, n, start, end, done, left) && end == -1
    ensures left == [] && done + left == done && Words(a, argv, done, n + 1)
  {
    WordsWiden(a, argv, done, from, n + 1);
  }

  // The loop over the words.
  method SplitFrom(a: array<char>, argv: array<int>, start: nat, end: int, ghost n: nat, ghost tokens: seq<string>) returns (argc: nat)
    requires Midway(a[..], argv[..], 0, n, start, end, [], tokens) && -1 <= end
    requires |tokens| < argv.Length
    modifies a, argv
    ensures argc == |tokens| && Words(a[..], argv[..], tokens, n + 1)
  {
    ghost var from: nat, done: seq<string>, left := 0, [], tokens;
    argc := 0;
    var buf: nat, delim: int := start, end;
    while delim != -1
      invariant -1 <= delim && Midway(a[..], argv[..], from, n, buf, delim, done, left)
      invariant argc == |done| && tokens == done + left
      decreases n - from
    {
      ghost var next := delim + 1;
      buf, delim := CutAndLocate(a, argv, argc, buf, delim, n, from, done, left);
      Regroup(done, left);
      done, left := done + [left[0]], left[1..];
      argc, from := argc + 1, next;
    }
    MidwayEnds(a[..], argv[..], from, n, buf, delim, done, left);
  }

  method Split(a: array<char>, argv: array<int>, ghost n: nat) returns (argc: nat)
    requires Ends(a[..], 0, n)
    requires |Tokens(a[..][0..n])| < argv.Length
    modifies a, argv
    ensures argc == |Tokens(old(a[..][0..n]))|
    ensures Words(a[..], argv[..], Tokens(old(a[..][0..n])), n + 1)
  {
    var buf, delim := Locate(a, 0, n);
    LocatedCuts(a[..], 0, n, buf, delim);
    argc := SplitFrom(a, argv, buf, delim, n, Tokens(a[..][0..n]));
  }

  lemma WordsMarked(a: seq<char>, argv: seq<int>, words: seq<string>, from: nat, k: nat)
    requires Words(a, argv, words, from) && k < |argv|
    ensures Words(a, argv[k := -1], if k < |words| then words[..k] else words, from)
    ensures k < |words| ==> HoldsAt(a, argv[k], words[k])
  {
  }

  // *argv[argc-1] == '&'
  method StartsWithAmpersand(a: array<char>, start: int, ghost word: string) returns (r: bool)
    requires HoldsAt(a[..], start, word)
    ensures r <==> word != "" && word[0] == '&'
  {
    assert word != "" ==> a[start] == a[..][start..start + |word|][0];
    r := a[start] == '&';
  }

  // parseline.  The line and its words have to fit, which the C code takes for
  // granted.  argv[argc] is NULL, here -1.
  method ParseLine(cmdline: string, line: array<char>, argv: array<int>) returns (argc: nat, bg: bool)
    requires 0 < |cmdline| < MAXLINE == line.Length && NUL !in cmdline
    requires |Tokens(Text(cmdline))| < MAXARGS == argv.Length
    modifies line, argv
    ensures argc == |Parsed(Tokens(Text(cmdline))).0| && argv[argc] == -1
    ensures Words(line[..], argv[..], Parsed(Tokens(Text(cmdline))).0, MAXLINE)
    ensures bg == Parsed(Tokens(Text(cmdline))).1
  {
    ghost var tokens := Tokens(Text(cmdline));
    CopyLine(cmdline, line);
    assert line[..][0..|cmdline|] == Text(cmdline);
    argc := Split(line, argv, |cmdline|);
    WordsWiden(line[..], argv[..], tokens, |cmdline| + 1, MAXLINE);
    WordsMarked(line[..], argv[..], tokens, MAXLINE, argc);
    argv[argc] := -1;
    if argc == 0 {
      return argc, true;
    }
    WordsMarked(line[..], argv[..], tokens, MAXLINE, argc - 1);
    bg := StartsWithAmpersand(line, argv[argc - 1], tokens[argc - 1]);
    if bg {
      argc := argc - 1;
      argv[argc] := -1;
    }
  }
}

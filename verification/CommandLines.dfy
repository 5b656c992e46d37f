// What parseline of shell-lab1/tsh.c makes of every line, well written or not.
module CommandLines {
  import opened CStrings
  import opened Tokenizer

  // Words with a space after each bare one.
  predicate Spread(items: seq<Item>) {
    forall i :: 0 <= i < |items| ==> Printable(items[i].word) && (items[i].word.Bare? ==> items[i].gap > 0)
  }

  // Nothing, or a quote that is not closed and what follows it.
  predicate Unclosed(s: string) { s == "" || (s[0] == QUOTE && QUOTE !in s[1..]) }

  // The line that consists of these.
  function Written(lead: nat, items: seq<Item>, junk: string): string {
    Spaces(lead) + (Print(items) + junk)
  }

  lemma UnclosedTokens(junk: string)
    requires Unclosed(junk)
    ensures Tokens(junk) == []
  {
    if junk != "" {
      assert Start(junk) == (1, QUOTE);
      FindAfter(junk[1..], QUOTE, "");
      assert junk[1..] + "" == junk[1..];
    }
    assert FirstWord(junk) == NoWord;
  }

  // An unclosed quote is dropped with everything behind it, and the rest is cut into
  // its words.
  lemma {:induction false} SpreadTokens(items: seq<Item>, junk: string)
    requires Spread(items) && Unclosed(junk)
    ensures Tokens(Print(items) + junk) == Values(items)
  {
    if items == [] {
      UnclosedTokens(junk);
      assert Print([]) + junk == junk;
    } else {
      var item, rest := items[0], Print(items[1..]) + junk;
      SpreadTokens(items[1..], junk);
      FirstItem(item, rest);
      AfterFirstTokens(item, rest);
      Assoc(Shown(item.word), Spaces(item.gap), Print(items[1..]), junk);
      NextTokens(Print(items) + junk, item.word.s, AfterFirst(item, rest), rest);
    }
  }

  lemma FindIn(s: string, c: char)
    requires c in s
    ensures Find(s, c) < |s| && s[Find(s, c)] == c && c !in s[..Find(s, c)]
  {
    FindFirst(s, c);
    assert s[..|s|] == s;
  }

  // A text that starts with a quote that is closed starts with a quoted word, and one
  // that starts with anything else but a space with a bare one.
  lemma FirstQuoted(v: string) returns (word: Word, rest: string)
    requires v != "" && v[0] == QUOTE && !Unclosed(v)
    ensures word.Quoted? && Printable(word) && v == Shown(word) + rest && |rest| < |v|
  {
    FindIn(v[1..], QUOTE);
    var d := Find(v[1..], QUOTE);
    word, rest := Quoted(v[1..][..d]), v[d + 2..];
  }

  lemma FirstBare(v: string) returns (word: Word, rest: string)
    requires v != "" && v[0] != QUOTE && v[0] != ' ' && v[|v| - 1] == ' '
    ensures word.Bare? && Printable(word) && v == Shown(word) + (" " + rest) && |rest| < |v|
  {
    FindIn(v, ' ');
    var d := Find(v, ' ');
    word, rest := Bare(v[..d]), v[d + 1..];
  }

  lemma LastOf(a: string, b: string)
    requires a + b != "" && (a + b)[|a + b| - 1] == ' '
    ensures b == "" || b[|b| - 1] == ' '
  {
  }

  // One more word in front of a text that is such a line.
  lemma QuotedInFront(word: Word, gap: nat, more: seq<Item>, junk: string)
    requires word.Quoted? && Printable(word) && Spread(more)
    ensures Shown(word) + Written(gap, more, junk) == Print([Item(word, gap)] + more) + junk
    ensures Spread([Item(word, gap)] + more)
  {
    SpreadMore(Item(word, gap), more);
    PrintFirst(word, gap, more, junk);
  }

  lemma BareInFront(word: Word, gap: nat, more: seq<Item>, junk: string)
    requires word.Bare? && Printable(word) && Spread(more)
    ensures Shown(word) + (" " + Written(gap, more, junk)) == Print([Item(word, gap + 1)] + more) + junk
    ensures Spread([Item(word, gap + 1)] + more)
  {
    hide Shown, Print, Printable;
    OneSpace(gap, Print(more) + junk);
    SpreadMore(Item(word, gap + 1), more);
    PrintFirst(word, gap + 1, more, junk);
  }

  // Every text that ends in a space is such a line.
  lemma {:induction false} EveryText(s: string) returns (lead: nat, items: seq<Item>, junk: string)
    requires s == "" || s[|s| - 1] == ' '
    ensures s == Written(lead, items, junk) && Spread(items) && Unclosed(junk)
    decreases |s|, 1
  {
    hide Spaces, Print, Lead, Spread;
    lead, items, junk := Lead(s, ' '), [], "";
    var v := s[lead..];
    LeadSplits(s);
    if v == "" {
      NothingPrinted(v);
      SpreadNone();
    } else {
      items, junk := EveryRest(v);
    }
  }

  lemma {:induction false} EveryRest(v: string) returns (items: seq<Item>, junk: string)
    requires v != "" && v[0] != ' ' && v[|v| - 1] == ' '
    ensures v == Print(items) + junk && Spread(items) && Unclosed(junk)
    decreases |v|, 0
  {
    hide Printable, Shown, Written, Print, Spread;
    items, junk := [], v;
    if Unclosed(v) {
      NothingPrinted(v);
      SpreadNone();
    } else if v[0] == QUOTE {
      var word, rest := FirstQuoted(v);
      LastOf(Shown(word), rest);
      var gap, more;
      gap, more, junk := EveryText(rest);
      QuotedInFront(word, gap, more, junk);
      items := [Item(word, gap)] + more;
    } else {
      var word, rest := FirstBare(v);
      Assoc(Shown(word), " ", rest, "");
      LastOf(Shown(word) + " ", rest);
      var gap, more;
      gap, more, junk := EveryText(rest);
      BareInFront(word, gap, more, junk);
      items := [Item(word, gap + 1)] + more;
    }
  }

  lemma SpreadNone()
    ensures Spread([])
  {
  }

  lemma SpreadMore(item: Item, more: seq<Item>)
    requires Spread(more) && Printable(item.word) && (item.word.Bare? ==> item.gap > 0)
    ensures Spread([item] + more)
  {
    var items := [item] + more;
    forall i | 0 <= i < |items| ensures Printable(items[i].word) && (items[i].word.Bare? ==> items[i].gap > 0) {
      assert i > 0 ==> items[i] == more[i - 1];
    }
  }

  lemma NothingPrinted(junk: string)
    ensures Print([]) + junk == junk
  {
  }

  lemma OneSpace(gap: nat, s: string)
    ensures " " + (Spaces(gap) + s) == Spaces(gap + 1) + s
  {
    Assoc(" ", Spaces(gap), s, "");
  }

  lemma {:induction false} LeadSplits(s: string)
    ensures s == Spaces(Lead(s, ' ')) + s[Lead(s, ' ')..]
    ensures Lead(s, ' ') < |s| ==> s[Lead(s, ' ')] != ' '
  {
    if s != "" && s[0] == ' ' {
      LeadSplits(s[1..]);
      Assoc(" ", Spaces(Lead(s[1..], ' ')), s[1..][Lead(s[1..], ' ')..], "");
      assert s == " " + s[1..];
    }
  }

  lemma PrintFirst(word: Word, gap: nat, more: seq<Item>, junk: string)
    ensures Print([Item(word, gap)] + more) + junk == Shown(word) + (Spaces(gap) + (Print(more) + junk))
  {
    var items := [Item(word, gap)] + more;
    assert items[1..] == more;
    Assoc(Shown(word), Spaces(gap), Print(more), junk);
  }

  // So on every line parseline finds just the words that are written on it, up to a
  // quote that is not closed, and the job is for the background if the last of them
  // begins with & or there is none.
  lemma EveryLine(cmdline: string) returns (lead: nat, items: seq<Item>, junk: string)
    requires cmdline != ""
    ensures Text(cmdline) == Written(lead, items, junk) && Spread(items) && Unclosed(junk)
    ensures Tokens(Text(cmdline)) == Values(items)
    ensures var words, r := Values(items), Parsed(Tokens(Text(cmdline)));
      if words == [] then r == ([], true)
      else if "&" <= words[|words| - 1] then r == (words[..|words| - 1], true) else r == (words, false)
  {
    lead, items, junk := EveryText(Text(cmdline));
    SpreadTokens(items, junk);
    SkipSpaces(lead, Print(items) + junk);
    SameFirst(Text(cmdline), Print(items) + junk);
  }
}

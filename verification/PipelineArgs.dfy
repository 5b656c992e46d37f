// parseargs of shell-lab1/tsh.c: cut argv into the commands of a pipeline in
// place and note where the redirections are.
module PipelineArgs {

  import opened CStrings

  // argv with its terminating NULL, and the slots filled so far.
  datatype Slots = Slots(argv: seq<Option<string>>, cmds: seq<int>, ins: seq<int>, outs: seq<int>)

  predicate Operator(s: string) { s == "<" || s == ">" || s == "|" }

  function Strings(args: seq<string>): (r: seq<Option<string>>)
    ensures |r| == |args| + 1 && r[|args|] == None
    ensures forall k :: 0 <= k < |args| ==> r[k] == Some(args[k])
  {
    seq(|args|, i requires 0 <= i < |args| => Some(args[i])) + [None]
  }

  predicate Shape(args: seq<string>, r: Slots) {
    |r.argv| == |args| + 1 && 0 < |r.cmds| == |r.ins| == |r.outs|
  }

  function SetLast(s: seq<int>, x: int): seq<int>
    requires s != []
  {
    s[|s| - 1 := x]
  }

  // The while loop from index i on.
  function Scan(args: seq<string>, i: nat, r: Slots): (q: Slots)
    requires Shape(args, r)
    ensures Shape(args, q)
    decreases |args| - i
  {
    if i >= |args| then r
    else if !Operator(args[i]) then Scan(args, i + 1, r)
    else
      var cut := r.(argv := r.argv[i := None]);
      if i + 1 == |args| then cut
      else Scan(args, i + 2, Applied(args[i], i, cut))
  }

  // The effect of the operator at i on the slots.
  function Applied(op: string, i: nat, r: Slots): (q: Slots)
    requires 0 < |r.cmds| == |r.ins| == |r.outs|
    ensures 0 < |q.cmds| == |q.ins| == |q.outs| && q.argv == r.argv
  {
    if op == "<" then r.(ins := SetLast(r.ins, i + 1))
    else if op == ">" then r.(outs := SetLast(r.outs, i + 1))
    else r.(cmds := r.cmds + [i + 1], ins := r.ins + [-1], outs := r.outs + [-1])
  }

  // What parseargs leaves behind for a nonempty argv.
  function Result(args: seq<string>): (r: Slots)
    requires args != []
    ensures Shape(args, r)
  {
    Scan(args, 1, Slots(Strings(args), [0], [-1], [-1]))
  }

  // ---- Any argv: the slots are where eval expects them -----------------------

  // Where command c ends, when the scan has reached i.
  function Limit(cmds: seq<int>, c: nat, i: int): int {
    if c + 1 < |cmds| then cmds[c + 1] else i
  }

  ghost predicate Placed(slot: int, cmds: seq<int>, c: nat, i: int)
    requires c < |cmds|
  {
    slot == -1 || cmds[c] + 2 <= slot < Limit(cmds, c, i)
  }

  ghost predicate Ordered(r: Slots, i: int) {
    && 0 < |r.cmds| == |r.ins| == |r.outs| && r.cmds[0] == 0 && r.cmds[|r.cmds| - 1] < i
    && (forall c, d :: 0 <= c < d < |r.cmds| ==> r.cmds[c] < r.cmds[d])
    && (forall c :: 0 <= c < |r.cmds| ==> Placed(r.ins[c], r.cmds, c, i))
    && (forall c :: 0 <= c < |r.cmds| ==> Placed(r.outs[c], r.cmds, c, i))
  }

  lemma OrderedLater(r: Slots, i: int, j: int)
    requires Ordered(r, i) && i <= j
    ensures Ordered(r, j)
  {
    forall c | 0 <= c < |r.cmds| ensures Placed(r.ins[c], r.cmds, c, j) && Placed(r.outs[c], r.cmds, c, j) {
      assert Placed(r.ins[c], r.cmds, c, i) && Placed(r.outs[c], r.cmds, c, i);
    }
  }

  lemma AppliedOrdered(op: string, i: nat, r: Slots)
    requires Ordered(r, i)
    ensures Ordered(Applied(op, i, r), i + 2)
  {
    OrderedLater(r, i, i + 2);
    if op != "<" && op != ">" {
      var q := Applied(op, i, r);
      forall c | 0 <= c < |q.cmds| ensures Placed(q.ins[c], q.cmds, c, i + 2) && Placed(q.outs[c], q.cmds, c, i + 2) {
        if c < |r.cmds| {
          assert Placed(r.ins[c], r.cmds, c, i) && Placed(r.outs[c], r.cmds, c, i);
        }
      }
    }
  }

  lemma {:induction false} ScanOrdered(args: seq<string>, i: nat, r: Slots)
    requires Shape(args, r) && Ordered(r, i) && i <= |args|
    ensures Ordered(Scan(args, i, r), |args|)
    decreases |args| - i
  {
    if i < |args| {
      OrderedLater(r, i, i + 1);
      if !Operator(args[i]) {
        ScanOrdered(args, i + 1, r);
      } else {
        var cut := r.(argv := r.argv[i := None]);
        assert Ordered(cut, i);
        if i + 1 < |args| {
          AppliedOrdered(args[i], i, cut);
          ScanOrdered(args, i + 2, Applied(args[i], i, cut));
        } else {
          OrderedLater(cut, i, |args|);
        }
      }
    }
  }

  // For every argv the commands start at increasing positions, and a redirection
  // slot is set exactly when it is positive, as eval tests it.
  lemma SlotsArePlaced(args: seq<string>)
    requires args != []
    ensures Ordered(Result(args), |args|)
    ensures forall c :: 0 <= c < |Result(args).cmds| ==>
      && (Result(args).ins[c] > 0 <==> Result(args).ins[c] != -1)
      && (Result(args).outs[c] > 0 <==> Result(args).outs[c] != -1)
  {
    ScanOrdered(args, 1, Slots(Strings(args), [0], [-1], [-1]));
    forall c | 0 <= c < |Result(args).cmds|
      ensures Placed(Result(args).ins[c], Result(args).cmds, c, |args|)
      ensures Placed(Result(args).outs[c], Result(args).cmds, c, |args|)
      ensures Result(args).cmds[c] >= 0
    {
    }
  }

  // Every slot in use is an index of argv that still holds its string, and from i on
  // argv is as it was.
  ghost predicate Operands(args: seq<string>, r: Slots, i: nat) {
    && Shape(args, r)
    && (forall c :: 0 <= c < |r.cmds| ==> Operand(args, r.argv, r.cmds[c], i))
    && (forall c :: 0 <= c < |r.cmds| ==> r.ins[c] > 0 ==> Operand(args, r.argv, r.ins[c], i))
    && (forall c :: 0 <= c < |r.cmds| ==> r.outs[c] > 0 ==> Operand(args, r.argv, r.outs[c], i))
    && (forall k :: i <= k < |args| ==> r.argv[k] == Some(args[k]))
  }

  ghost predicate Operand(args: seq<string>, argv: seq<Option<string>>, slot: int, i: int) {
    0 <= slot < |args| && slot < |argv| && slot < i && argv[slot] == Some(args[slot])
  }

  lemma OperandsAfter(args: seq<string>, i: nat, r: Slots)
    requires Operands(args, r, i) && i + 1 < |args|
    ensures Operands(args, Applied(args[i], i, r.(argv := r.argv[i := None])), i + 2)
  {
  }

  lemma {:induction false} ScanOperands(args: seq<string>, i: nat, r: Slots)
    requires Operands(args, r, i) && i <= |args|
    ensures Operands(args, Scan(args, i, r), |args|)
    decreases |args| - i
  {
    if i < |args| {
      if !Operator(args[i]) {
        ScanOperands(args, i + 1, r);
      } else if i + 1 < |args| {
        OperandsAfter(args, i, r);
        ScanOperands(args, i + 2, Applied(args[i], i, r.(argv := r.argv[i := None])));
      }
    }
  }

  // For every argv, what a slot in use points at is a string and not a NULL.
  lemma SlotsNameStrings(args: seq<string>)
    requires args != []
    ensures Operands(args, Result(args), |args|)
  {
    ScanOperands(args, 1, Slots(Strings(args), [0], [-1], [-1]));
  }

  // ---- Parsing undoes flattening --------------------------------------------

  datatype Redir = Redir(input: bool, file: string)

  datatype Command = Command(words: seq<string>, redirs: seq<Redir>)

  // The words of a command come before its redirections.  The first word and the
  // file names may be anything; the other words must not be operators.
  predicate Plain(c: Command) {
    c.words != [] && forall k :: 1 <= k < |c.words| ==> !Operator(c.words[k])
  }

  function OpOf(r: Redir): string { if r.input then "<" else ">" }

  function FlatRedirs(rs: seq<Redir>): (s: seq<string>)
    ensures |s| == 2 * |rs|
  {
    if rs == [] then [] else [OpOf(rs[0]), rs[0].file] + FlatRedirs(rs[1..])
  }

  function FlatCommand(c: Command): seq<string> {
    c.words + FlatRedirs(c.redirs)
  }

  function Flatten(p: seq<Command>): seq<string> {
    if p == [] then []
    else FlatCommand(p[0]) + (if |p| == 1 then [] else ["|"] + Flatten(p[1..]))
  }

  // The file the last input (or output) redirection names.
  function LastFile(rs: seq<Redir>, input: bool): Option<string> {
    if rs == [] then None
    else if rs[|rs| - 1].input == input then Some(rs[|rs| - 1].file)
    else LastFile(rs[..|rs| - 1], input)
  }

  // The file a slot names.
  function FileAt(argv: seq<Option<string>>, slot: int): Option<string> {
    if 0 < slot < |argv| then argv[slot] else None
  }

  // The words of a command stand at p, one after the other.
  ghost predicate At(argv: seq<Option<string>>, p: int, words: seq<string>) {
    0 <= p && p + |words| < |argv| && forall k :: 0 <= k < |words| ==> argv[p + k] == Some(words[k])
  }

  // The string list that execve is given, up to the next NULL, is the command's
  // words, and the redirection slots name its files.
  ghost predicate Recovered(r: Slots, c: nat, cmd: Command)
    requires c < |r.cmds| == |r.ins| == |r.outs|
  {
    && At(r.argv, r.cmds[c], cmd.words) && r.argv[r.cmds[c] + |cmd.words|] == None
    && FileAt(r.argv, r.ins[c]) == LastFile(cmd.redirs, true)
    && FileAt(r.argv, r.outs[c]) == LastFile(cmd.redirs, false)
  }

  // The last command while the scan, at i, may still add to it: all it relies on
  // stands before i, and from i on argv is as it was.
  ghost predicate Current(r: Slots, args: seq<string>, cmd: Command, i: int) {
    && Shape(args, r) && 0 <= i <= |args|
    && (forall k :: i <= k <= |args| ==> r.argv[k] == Strings(args)[k])
    && var c := |r.cmds| - 1;
      && At(r.argv, r.cmds[c], cmd.words)
      && (if cmd.redirs == [] then r.cmds[c] + |cmd.words| == i
          else r.cmds[c] + |cmd.words| < i && r.argv[r.cmds[c] + |cmd.words|] == None)
      && r.ins[c] < i && FileAt(r.argv, r.ins[c]) == LastFile(cmd.redirs, true)
      && r.outs[c] < i && FileAt(r.argv, r.outs[c]) == LastFile(cmd.redirs, false)
  }

  // A finished command, all of it before i.
  ghost predicate Finished(r: Slots, c: nat, cmd: Command, i: int)
    requires c < |r.cmds| == |r.ins| == |r.outs|
  {
    Recovered(r, c, cmd) && r.cmds[c] + |cmd.words| < i && r.ins[c] < i && r.outs[c] < i
  }

  // The operator at i and its operand, if it has one.
  function OneOp(args: seq<string>, i: nat, r: Slots): (q: Slots)
    requires Shape(args, r)
    ensures Shape(args, q)
  {
    if i + 1 < |args| then Applied(args[i], i, r.(argv := r.argv[i := None])) else r
  }

  // The slots after the first n of the redirections that start at i.
  function AfterRedirs(args: seq<string>, i: nat, r: Slots, n: nat): (q: Slots)
    requires Shape(args, r)
    ensures Shape(args, q)
  {
    if n == 0 then r else OneOp(args, i + 2 * (n - 1), AfterRedirs(args, i, r, n - 1))
  }

  // The slots after the commands whose words start at p.
  function AfterCommands(args: seq<string>, p: nat, r: Slots, cmds: seq<Command>): (q: Slots)
    requires Shape(args, r) && cmds != []
    ensures Shape(args, q)
    decreases |cmds|
  {
    var j := p + |cmds[0].words|;
    var e := j + 2 * |cmds[0].redirs|;
    var cur := AfterRedirs(args, j, r, |cmds[0].redirs|);
    if |cmds| == 1 then cur else AfterCommands(args, e + 1, OneOp(args, e, cur), cmds[1..])
  }

  // q differs from r neither in argv before i nor in the slots of any command but
  // the last of r.
  ghost predicate Same(r: Slots, q: Slots, i: nat)
    requires 0 < |r.cmds| == |r.ins| == |r.outs| && 0 < |q.cmds| == |q.ins| == |q.outs|
  {
    && |q.argv| == |r.argv| && |r.cmds| <= |q.cmds|
    && (forall k :: 0 <= k < i && k < |r.argv| ==> q.argv[k] == r.argv[k])
    && (forall c :: 0 <= c < |r.cmds| ==> q.cmds[c] == r.cmds[c])
    && (forall c :: 0 <= c < |r.cmds| - 1 ==> q.ins[c] == r.ins[c] && q.outs[c] == r.outs[c])
  }

  lemma {:induction false} RedirsFrame(args: seq<string>, i: nat, r: Slots, n: nat)
    requires Shape(args, r)
    ensures Same(r, AfterRedirs(args, i, r, n), i)
  {
    if n > 0 { RedirsFrame(args, i, r, n - 1); }
  }

  lemma {:induction false} CommandsFrame(args: seq<string>, p: nat, r: Slots, cmds: seq<Command>)
    requires Shape(args, r) && cmds != []
    ensures Same(r, AfterCommands(args, p, r, cmds), p)
    decreases |cmds|
  {
    hide AfterRedirs;
    var j := p + |cmds[0].words|;
    var e := j + 2 * |cmds[0].redirs|;
    RedirsFrame(args, j, r, |cmds[0].redirs|);
    if |cmds| > 1 {
      CommandsFrame(args, e + 1, OneOp(args, e, AfterRedirs(args, j, r, |cmds[0].redirs|)), cmds[1..]);
    }
  }

  lemma FinishedStays(r: Slots, q: Slots, c: nat, cmd: Command, i: nat)
    requires 0 < |r.cmds| == |r.ins| == |r.outs| && 0 < |q.cmds| == |q.ins| == |q.outs|
    requires c < |r.cmds| - 1 && Finished(r, c, cmd, i) && Same(r, q, i)
    ensures Recovered(q, c, cmd)
  {
  }

  lemma {:induction false} ScanWords(args: seq<string>, i: nat, j: nat, r: Slots)
    requires Shape(args, r) && i <= j <= |args| && forall k :: i <= k < j ==> !Operator(args[k])
    ensures Scan(args, i, r) == Scan(args, j, r)
    decreases j - i
  {
    if i < j { ScanWords(args, i + 1, j, r); }
  }

  lemma ScanOp(args: seq<string>, i: nat, r: Slots)
    requires Shape(args, r) && i + 1 < |args| && Operator(args[i])
    ensures Scan(args, i, r) == Scan(args, i + 2, OneOp(args, i, r))
  {
  }

  lemma ScanEnd(args: seq<string>, r: Slots)
    requires Shape(args, r)
    ensures Scan(args, |args|, r) == r
  {
  }

  lemma {:induction false} ScanRedirs(args: seq<string>, i: nat, r: Slots, n: nat)
    requires Shape(args, r) && i + 2 * n <= |args| && forall k :: 0 <= k < n ==> Operator(args[i + 2 * k])
    ensures Scan(args, i, r) == Scan(args, i + 2 * n, AfterRedirs(args, i, r, n))
  {
    if n > 0 {
      ScanRedirs(args, i, r, n - 1);
      ScanOp(args, i + 2 * (n - 1), AfterRedirs(args, i, r, n - 1));
    }
  }

  lemma WordsCurrent(args: seq<string>, i: nat, j: nat, r: Slots, words: seq<string>)
    requires i <= j <= |args| && Current(r, args, Command(words, []), i)
    ensures Current(r, args, Command(words + args[i..j], []), j)
  {
    var c, all := |r.cmds| - 1, words + args[i..j];
    forall k | 0 <= k < |all| ensures r.argv[r.cmds[c] + k] == Some(all[k]) {
      if k >= |words| { assert r.argv[r.cmds[c] + k] == Strings(args)[r.cmds[c] + k]; }
    }
  }

  lemma LastFileAppend(rs: seq<Redir>, r: Redir)
    ensures LastFile(rs + [r], r.input) == Some(r.file)
    ensures LastFile(rs + [r], !r.input) == LastFile(rs, !r.input)
  {
    assert (rs + [r])[..|rs|] == rs;
  }

  lemma {:induction false} RedirsCount(args: seq<string>, i: nat, r: Slots, rs: seq<Redir>, n: nat)
    requires RedirsAt(args, i, rs) && n <= |rs| && Shape(args, r)
    ensures |AfterRedirs(args, i, r, n).cmds| == |r.cmds|
  {
    if n > 0 {
      RedirsCount(args, i, r, rs, n - 1);
      RedirAt(args, i, rs, n - 1);
    }
  }

  lemma RedirCurrent(args: seq<string>, i: nat, r: Slots, cmd: Command, rd: Redir)
    requires i + 1 < |args| && args[i] == OpOf(rd) && args[i + 1] == rd.file
    requires Current(r, args, cmd, i)
    ensures Current(OneOp(args, i, r), args, Command(cmd.words, cmd.redirs + [rd]), i + 2)
  {
    LastFileAppend(cmd.redirs, rd);
    assert OneOp(args, i, r).argv[i + 1] == Strings(args)[i + 1];
  }

  lemma PipeCurrent(args: seq<string>, i: nat, r: Slots, cmd: Command)
    requires i + 1 < |args| && args[i] == "|" && Current(r, args, cmd, i)
    ensures |OneOp(args, i, r).cmds| == |r.cmds| + 1 && Finished(OneOp(args, i, r), |r.cmds| - 1, cmd, i + 1)
    ensures Current(OneOp(args, i, r), args, Command([args[i + 1]], []), i + 2)
  {
    assert OneOp(args, i, r).argv[i + 1] == Strings(args)[i + 1];
  }

  // Redirections rs stand at i, an operator and a file each.
  predicate RedirsAt(args: seq<string>, i: nat, rs: seq<Redir>) {
    i + 2 * |rs| <= |args| &&
    forall k :: 0 <= k < |rs| ==> args[i + 2 * k] == OpOf(rs[k]) && args[i + 2 * k + 1] == rs[k].file
  }

  lemma RedirAt(args: seq<string>, i: nat, rs: seq<Redir>, k: nat)
    requires RedirsAt(args, i, rs) && k < |rs|
    ensures i + 2 * k + 1 < |args|
    ensures args[i + 2 * k] == OpOf(rs[k]) && args[i + 2 * k + 1] == rs[k].file
  {
  }

  lemma {:induction false} RedirsCurrent(args: seq<string>, i: nat, r: Slots, words: seq<string>, rs: seq<Redir>, n: nat)
    requires Shape(args, r) && RedirsAt(args, i, rs) && n <= |rs| && Current(r, args, Command(words, []), i)
    ensures Current(AfterRedirs(args, i, r, n), args, Command(words, rs[..n]), i + 2 * n)
  {
    hide OneOp, Current, RedirsAt;
    if n == 0 {
      assert rs[..n] == [];
    } else {
      RedirsCurrent(args, i, r, words, rs, n - 1);
      assert rs[..n] == rs[..n - 1] + [rs[n - 1]];
      RedirAt(args, i, rs, n - 1);
      RedirCurrent(args, i + 2 * (n - 1), AfterRedirs(args, i, r, n - 1), Command(words, rs[..n - 1]), rs[n - 1]);
    }
  }

  lemma {:induction false} FlatRedirAt(rs: seq<Redir>, k: nat)
    requires k < |rs|
    ensures FlatRedirs(rs)[2 * k] == OpOf(rs[k]) && FlatRedirs(rs)[2 * k + 1] == rs[k].file
  {
    if k > 0 {
      FlatRedirAt(rs[1..], k - 1);
      assert FlatRedirs(rs)[2..] == FlatRedirs(rs[1..]);
      assert FlatRedirs(rs)[2 * k] == FlatRedirs(rs)[2..][2 * (k - 1)];
      assert FlatRedirs(rs)[2 * k + 1] == FlatRedirs(rs)[2..][2 * (k - 1) + 1];
    }
  }

  lemma Prefix(args: seq<string>, p: nat, a: seq<string>, b: seq<string>)
    requires p <= |args| && args[p..] == a + b
    ensures p + |a| <= |args| && args[p..p + |a|] == a && args[p + |a|..] == b
  {
    assert args[p..][..|a|] == args[p..p + |a|];
    assert args[p..][|a|..] == args[p + |a|..];
  }

  lemma FlatRedirsStand(args: seq<string>, j: nat, rs: seq<Redir>)
    requires j + 2 * |rs| <= |args| && args[j..j + 2 * |rs|] == FlatRedirs(rs)
    ensures RedirsAt(args, j, rs)
  {
    var flat := args[j..j + 2 * |rs|];
    forall k | 0 <= k < |rs| ensures args[j + 2 * k] == OpOf(rs[k]) && args[j + 2 * k + 1] == rs[k].file {
      FlatRedirAt(rs, k);
      assert args[j + 2 * k] == flat[2 * k] && args[j + 2 * k + 1] == flat[2 * k + 1];
    }
  }

  // What follows the first command: nothing, or a pipe and the other commands.
  function Tail(cmds: seq<Command>): seq<string>
    requires cmds != []
  {
    if |cmds| == 1 then [] else ["|"] + Flatten(cmds[1..])
  }

  lemma FlattenSplits(cmds: seq<Command>)
    requires cmds != []
    ensures Flatten(cmds) == cmds[0].words + (FlatRedirs(cmds[0].redirs) + Tail(cmds))
  {
    assert cmds[0].words + FlatRedirs(cmds[0].redirs) + Tail(cmds) == cmds[0].words + (FlatRedirs(cmds[0].redirs) + Tail(cmds));
  }

  // The first command of a flattened pipeline: its words stand from p to j, its
  // redirections from j to e, and the tail from e on.
  lemma FirstCommand(args: seq<string>, p: nat, cmds: seq<Command>) returns (j: nat, e: nat)
    requires p <= |args| && cmds != [] && args[p..] == Flatten(cmds)
    ensures j == p + |cmds[0].words| && e == j + 2 * |cmds[0].redirs| && e <= |args|
    ensures args[p..j] == cmds[0].words && args[e..] == Tail(cmds)
    ensures RedirsAt(args, j, cmds[0].redirs)
  {
    hide Flatten, FlatRedirs;
    var c := cmds[0];
    FlattenSplits(cmds);
    j := p + |c.words|;
    e := j + 2 * |c.redirs|;
    Prefix(args, p, c.words, FlatRedirs(c.redirs) + Tail(cmds));
    Prefix(args, j, FlatRedirs(c.redirs), Tail(cmds));
    FlatRedirsStand(args, j, c.redirs);
  }

  // Where the tail is not empty, it is a pipe and the next command.
  lemma PipeFollows(args: seq<string>, e: nat, cmds: seq<Command>)
    requires |cmds| > 1 && e <= |args| && args[e..] == Tail(cmds) && Plain(cmds[1])
    ensures e + 1 < |args| && args[e] == "|" && args[e + 1..] == Flatten(cmds[1..])
  {
    Prefix(args, e, ["|"], Flatten(cmds[1..]));
    assert args[e] == args[e..e + 1][0];
    FlattenNonempty(cmds[1..]);
  }

  lemma FlattenNonempty(cmds: seq<Command>)
    requires cmds != [] && Plain(cmds[0])
    ensures Flatten(cmds) != []
  {
  }

  lemma PlainWords(args: seq<string>, p: nat, cmd: Command)
    requires Plain(cmd) && p + |cmd.words| <= |args| && args[p..p + |cmd.words|] == cmd.words
    ensures [args[p]] + args[p + 1..p + |cmd.words|] == cmd.words
    ensures forall k :: p + 1 <= k < p + |cmd.words| ==> !Operator(args[k])
  {
    forall k | p + 1 <= k < p + |cmd.words| ensures !Operator(args[k]) {
      assert args[k] == cmd.words[k - p];
    }
  }

  lemma ScanCommand(args: seq<string>, p: nat, r: Slots, cmd: Command, j: nat, e: nat)
    requires Plain(cmd) && j == p + |cmd.words| <= |args| && args[p..j] == cmd.words && Shape(args, r)
    requires RedirsAt(args, j, cmd.redirs) && e == j + 2 * |cmd.redirs|
    ensures Scan(args, p + 1, r) == Scan(args, e, AfterRedirs(args, j, r, |cmd.redirs|))
  {
    PlainWords(args, p, cmd);
    ScanWords(args, p + 1, j, r);
    forall k | 0 <= k < |cmd.redirs| ensures Operator(args[j + 2 * k]) {
      RedirAt(args, j, cmd.redirs, k);
    }
    ScanRedirs(args, j, r, |cmd.redirs|);
  }

  // The scan of a flattened pipeline does what its commands say.
  lemma {:induction false} ScanCommands(args: seq<string>, p: nat, r: Slots, cmds: seq<Command>)
    requires p < |args| && cmds != [] && args[p..] == Flatten(cmds) && Shape(args, r)
    requires forall c :: 0 <= c < |cmds| ==> Plain(cmds[c])
    ensures Scan(args, p + 1, r) == AfterCommands(args, p, r, cmds)
    decreases |cmds|
  {
    hide Scan, AfterRedirs, OneOp, Flatten, RedirsAt;
    var j, e := FirstCommand(args, p, cmds);
    ScanCommand(args, p, r, cmds[0], j, e);
    var cur := AfterRedirs(args, j, r, |cmds[0].redirs|);
    ScanEnd(args, cur);
    if |cmds| > 1 {
      PipeFollows(args, e, cmds);
      ScanOp(args, e, cur);
      ScanCommands(args, e + 1, OneOp(args, e, cur), cmds[1..]);
    }
  }

  // The words and redirections of one command.
  lemma CommandCurrent(args: seq<string>, p: nat, r: Slots, cmd: Command, j: nat, e: nat)
    requires Plain(cmd) && j == p + |cmd.words| <= |args| && args[p..j] == cmd.words
    requires RedirsAt(args, j, cmd.redirs) && e == j + 2 * |cmd.redirs|
    requires Current(r, args, Command([args[p]], []), p + 1)
    ensures Current(AfterRedirs(args, j, r, |cmd.redirs|), args, cmd, e)
  {
    PlainWords(args, p, cmd);
    WordsCurrent(args, p + 1, j, r, [args[p]]);
    RedirsCurrent(args, j, r, cmd.words, cmd.redirs, |cmd.redirs|);
    assert cmd.redirs[..|cmd.redirs|] == cmd.redirs;
  }

  lemma CurrentAtEnd(r: Slots, args: seq<string>, cmd: Command)
    requires Current(r, args, cmd, |args|)
    ensures Recovered(r, |r.cmds| - 1, cmd)
  {
    assert r.argv[|args|] == Strings(args)[|args|];
  }

  lemma {:induction false} CommandCount(args: seq<string>, p: nat, r: Slots, cmds: seq<Command>)
    requires p < |args| && cmds != [] && args[p..] == Flatten(cmds) && Shape(args, r)
    requires forall c :: 0 <= c < |cmds| ==> Plain(cmds[c])
    ensures |AfterCommands(args, p, r, cmds).cmds| == |r.cmds| - 1 + |cmds|
    decreases |cmds|
  {
    hide AfterRedirs, Flatten, RedirsAt;
    var j, e := FirstCommand(args, p, cmds);
    RedirsCount(args, j, r, cmds[0].redirs, |cmds[0].redirs|);
    if |cmds| > 1 {
      PipeFollows(args, e, cmds);
      CommandCount(args, e + 1, OneOp(args, e, AfterRedirs(args, j, r, |cmds[0].redirs|)), cmds[1..]);
    }
  }

  // Command number d of those that start at p is recovered.
  lemma {:induction false} CommandRecovered(args: seq<string>, p: nat, r: Slots, cmds: seq<Command>, d: nat)
    requires p < |args| && d < |cmds| && args[p..] == Flatten(cmds) && Shape(args, r)
    requires forall c :: 0 <= c < |cmds| ==> Plain(cmds[c])
    requires Current(r, args, Command([args[p]], []), p + 1)
    ensures |AfterCommands(args, p, r, cmds).cmds| == |r.cmds| - 1 + |cmds|
    ensures Recovered(AfterCommands(args, p, r, cmds), |r.cmds| - 1 + d, cmds[d])
    decreases |cmds|
  {
    hide AfterRedirs, Flatten, RedirsAt, OneOp, Current, Finished, Recovered, Same;
    var j, e := FirstCommand(args, p, cmds);
    CommandCount(args, p, r, cmds);
    RedirsCount(args, j, r, cmds[0].redirs, |cmds[0].redirs|);
    var cur := AfterRedirs(args, j, r, |cmds[0].redirs|);
    CommandCurrent(args, p, r, cmds[0], j, e);
    if |cmds| == 1 {
      CurrentAtEnd(cur, args, cmds[0]);
    } else {
      PipeFollows(args, e, cmds);
      PipeCurrent(args, e, cur, cmds[0]);
      if d == 0 {
        CommandsFrame(args, e + 1, OneOp(args, e, cur), cmds[1..]);
        FinishedStays(OneOp(args, e, cur), AfterCommands(args, p, r, cmds), |r.cmds| - 1, cmds[0], e + 1);
      } else {
        CommandRecovered(args, e + 1, OneOp(args, e, cur), cmds[1..], d - 1);
      }
    }
  }

  lemma StartCurrent(args: seq<string>)
    requires args != []
    ensures Current(Slots(Strings(args), [0], [-1], [-1]), args, Command([args[0]], []), 1)
  {
  }

  // parseargs recovers every command of the pipeline that argv was flattened
  // from: its words as one string list and its redirections by position.
  lemma FlattenedPipeline(cmds: seq<Command>)
    requires cmds != [] && forall c :: 0 <= c < |cmds| ==> Plain(cmds[c])
    ensures Flatten(cmds) != []
    ensures |Result(Flatten(cmds)).cmds| == |cmds|
    ensures forall c :: 0 <= c < |cmds| ==> Recovered(Result(Flatten(cmds)), c, cmds[c])
  {
    hide Flatten, Scan, AfterCommands, Current, Recovered, Plain;
    var args := Flatten(cmds);
    FlattenNonempty(cmds);
    StartCurrent(args);
    assert args[0..] == args;
    var start := Slots(Strings(args), [0], [-1], [-1]);
    ScanCommands(args, 0, start, cmds);
    CommandCount(args, 0, start, cmds);
    forall c | 0 <= c < |cmds| ensures Recovered(Result(args), c, cmds[c]) {
      CommandRecovered(args, 0, start, cmds, c);
    }
  }

  // ---- The code in its own form ------------------------------------------------

  // The slots as the arrays hold them, with c the number of the current command.
  ghost predicate Hold(argv: array<Option<string>>, cmds: array<int>, ins: array<int>, outs: array<int>, c: nat, r: Slots)
    reads argv, cmds, ins, outs
  {
    && c < cmds.Length && c < ins.Length && c < outs.Length && |r.argv| <= argv.Length
    && argv[..|r.argv|] == r.argv
    && cmds[..c + 1] == r.cmds && ins[..c + 1] == r.ins && outs[..c + 1] == r.outs
  }

  // The branch for the operator `arg` at i - 1 whose operand stands at i.
  method Record(arg: string, i: nat, argv: array<Option<string>>, cmds: array<int>, ins: array<int>, outs: array<int>,
                c: nat, ghost r: Slots)
    returns (c': nat)
    requires Hold(argv, cmds, ins, outs, c, r) && Operator(arg) && i > 0
    requires cmds != ins && cmds != outs && ins != outs
    requires c + 1 < cmds.Length && c + 1 < ins.Length && c + 1 < outs.Length
    modifies cmds, ins, outs
    ensures Hold(argv, cmds, ins, outs, c', Applied(arg, i - 1, r)) && c' <= c + 1
  {
    c' := c;
    if arg == "<" {
      ins[c] := i;
    } else if arg == ">" {
      outs[c] := i;
    } else {
      c' := c + 1;
      cmds[c'], ins[c'], outs[c'] := i, -1, -1;
    }
  }

  // The scan at an operator: NULL takes its place, and if an operand follows the
  // operator has its effect.
  lemma ScanCut(args: seq<string>, i: nat, r: Slots)
    requires Shape(args, r) && i < |args| && Operator(args[i])
    ensures var cut := r.(argv := r.argv[i := None]);
      Scan(args, i, r) == if i + 1 == |args| then cut else Scan(args, i + 2, Applied(args[i], i, cut))
  {
  }

  // The branch that the operator at i takes: its place in argv becomes NULL, and
  // unless argv ends there its operand is recorded.
  method TakeOperator(argv: array<Option<string>>, i: nat, cmds: array<int>, ins: array<int>, outs: array<int>, c: nat,
                      ghost args: seq<string>, ghost r: Slots)
    returns (more: bool, c': nat, ghost q: Slots)
    requires Shape(args, r) && Hold(argv, cmds, ins, outs, c, r) && i < |args| && Operator(args[i])
    requires argv[i] == Some(args[i]) && argv[i + 1] == Strings(args)[i + 1]
    requires cmds != ins && cmds != outs && ins != outs
    requires c + 1 < cmds.Length && c + 1 < ins.Length && c + 1 < outs.Length
    modifies argv, cmds, ins, outs
    ensures Shape(args, q) && Hold(argv, cmds, ins, outs, c', q) && c' <= c + 1
    ensures forall k :: 0 <= k < argv.Length && k != i ==> argv[k] == old(argv[k])
    ensures more <==> i + 1 < |args|
    ensures Scan(args, i, r) == if more then Scan(args, i + 2, q) else q
  {
    ScanCut(args, i, r);
    hide Scan;
    var arg := argv[i].value;
    argv[i] := None;
    q := r.(argv := r.argv[i := None]);
    more, c' := argv[i + 1] != None, c;
    if more {
      c' := Record(arg, i + 1, argv, cmds, ins, outs, c, q);
      q := Applied(arg, i, q);
    }
  }

  // parseargs.  `args` are the strings before the terminating NULL; the other
  // arrays are as long as argv, which the C code takes for granted.
  method ParseArgs(argv: array<Option<string>>, cmds: array<int>, ins: array<int>, outs: array<int>, ghost args: seq<string>)
    returns (n: nat)
    requires |args| < argv.Length && argv[..|args| + 1] == Strings(args)
    requires argv.Length <= cmds.Length && argv.Length <= ins.Length && argv.Length <= outs.Length
    requires cmds != ins && cmds != outs && ins != outs
    modifies argv, cmds, ins, outs
    ensures n <= |args| && (n == 0 <==> args == [])
    ensures args != [] ==> Hold(argv, cmds, ins, outs, n - 1, Result(args))
  {
    hide Scan, Applied;
    assert forall k :: 0 <= k <= |args| ==> argv[k] == argv[..|args| + 1][k];
    var i: nat, c: nat := 0, 0;
    if argv[i] == None {
      return 0;
    }
    cmds[c], ins[c], outs[c] := i, -1, -1;
    i := i + 1;
    ghost var now := Slots(Strings(args), [0], [-1], [-1]);
    assert Hold(argv, cmds, ins, outs, c, now);
    hide Hold;
    while argv[i] != None
      invariant c < i <= |args| && Hold(argv, cmds, ins, outs, c, now)
      invariant Shape(args, now) && Scan(args, i, now) == Result(args)
      invariant forall k :: i <= k <= |args| ==> argv[k] == Strings(args)[k]
      decreases |args| - i
    {
      var arg := argv[i].value;
      if arg == "<" || arg == ">" || arg == "|" {
        var more;
        more, c, now := TakeOperator(argv, i, cmds, ins, outs, c, args, now);
        i := i + 1;
        if !more {
          break;
        }
      } else {
        ScanWords(args, i, i + 1, now);
      }
      i := i + 1;
    }
    ScanEnd(args, now);
    return c + 1;
  }
}

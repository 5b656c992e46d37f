// The pipes, dup2 and close loops of eval in shell-lab1/tsh.c: which open file
// each descriptor of the shell and of every stage ends up naming.
module PipelineWiring {

  import opened CStrings
  import opened PipelineArgs
  import Tokenizer

  // What a descriptor names.  Pipes are numbered in the order they are made.
  datatype OpenFile = Other(id: nat) | PipeEnd(pipe: nat, write: bool) | File(name: string, write: bool)

  type Table = map<nat, OpenFile>

  // pipes[i]: the two descriptors that pipe() returned.
  datatype Ends = Ends(read: nat, write: nat)

  class Process {
    var fds: Table
    // the files that cannot be opened for reading, and for writing
    const refused: set<(string, bool)>

    // fork: the child starts with a copy of the table.
    constructor (fds: Table, refused: set<(string, bool)>)
      ensures this.fds == fds && this.refused == refused
    {
      this.fds, this.refused := fds, refused;
    }

    // The lowest descriptor that is not in use, as the kernel allots them.
    method Unused() returns (fd: nat)
      ensures fd !in fds && forall k: nat :: k < fd ==> k in fds
    {
      fd := 0;
      ghost var rest := fds.Keys;
      while fd in fds
        invariant forall k: nat :: k < fd ==> k in fds
        invariant forall k :: k in rest <==> k in fds && k >= fd
        decreases rest
      {
        rest := rest - {fd};
        fd := fd + 1;
      }
    }

    method Dup2(from: nat, to: nat)
      requires from in fds
      modifies this
      ensures fds == old(fds)[to := old(fds)[from]]
    {
      fds := fds[to := fds[from]];
    }

    method Close(fd: nat)
      requires fd in fds
      modifies this
      ensures fds == old(fds) - {fd}
    {
      fds := fds - {fd};
    }

    method Pipe(number: nat) returns (ends: Ends)
      modifies this
      ensures ends.read != ends.write && ends.read !in old(fds) && ends.write !in old(fds)
      ensures fds == old(fds)[ends.read := PipeEnd(number, false)][ends.write := PipeEnd(number, true)]
    {
      var read := Unused();
      fds := fds[read := PipeEnd(number, false)];
      var write := Unused();
      fds := fds[write := PipeEnd(number, true)];
      ends := Ends(read, write);
    }

    // Fopen, Dup2 and Fclose.  A file that cannot be opened ends the process.
    method Redirect(name: string, fd: nat, write: bool) returns (ok: bool)
      requires fd in fds
      modifies this
      ensures ok <==> (name, write) !in refused
      ensures fds == if ok then old(fds)[fd := File(name, write)] else old(fds)
    {
      ok := (name, write) !in refused;
      if ok {
        var file := Unused();
        fds := fds[file := File(name, write)];
        Dup2(file, fd);
        Close(file);
      }
    }
  }

  // ---- What the wiring is for -------------------------------------------------

  // A slot that is set names a string of argv.
  ghost predicate Named(argv: seq<Option<string>>, slots: seq<int>) {
    forall i :: 0 <= i < |slots| && slots[i] > 0 ==> slots[i] < |argv| && argv[slots[i]].Some?
  }

  // The standard input of stage i: its file, or the pipe before it, or the shell's.
  ghost function Input(argv: seq<Option<string>>, ins: seq<int>, i: nat, first: nat, shell: Table): OpenFile
    requires Named(argv, ins) && i < |ins| && 0 in shell
  {
    if ins[i] > 0 then File(argv[ins[i]].value, false)
    else if i > 0 then PipeEnd(first + i - 1, false)
    else shell[0]
  }

  // The standard output of stage i of n: its file, or the pipe after it, or the shell's.
  ghost function Output(argv: seq<Option<string>>, outs: seq<int>, i: nat, n: nat, first: nat, shell: Table): OpenFile
    requires Named(argv, outs) && i < |outs| && 1 in shell
  {
    if outs[i] > 0 then File(argv[outs[i]].value, true)
    else if i < n - 1 then PipeEnd(first + i, true)
    else shell[1]
  }

  ghost predicate Opens(argv: seq<Option<string>>, slots: seq<int>, i: nat, write: bool, refused: set<(string, bool)>)
    requires Named(argv, slots) && i < |slots|
  {
    slots[i] > 0 ==> (argv[slots[i]].value, write) !in refused
  }

  // The table stage i executes its command with: the shell's, but for 0 and 1.
  ghost function Wired(argv: seq<Option<string>>, ins: seq<int>, outs: seq<int>, i: nat, n: nat, first: nat, shell: Table): Table
    requires Named(argv, ins) && Named(argv, outs) && i < n == |ins| == |outs| && 0 in shell && 1 in shell
  {
    shell[0 := Input(argv, ins, i, first, shell)][1 := Output(argv, outs, i, n, first, shell)]
  }

  // The table stage i executes with, or None if it ends because one of its files
  // cannot be opened.
  ghost function Executed(argv: seq<Option<string>>, ins: seq<int>, outs: seq<int>, i: nat, n: nat, first: nat,
                          shell: Table, refused: set<(string, bool)>): Option<Table>
    requires Named(argv, ins) && Named(argv, outs) && i < n == |ins| == |outs| && 0 in shell && 1 in shell
  {
    if Opens(argv, ins, i, false, refused) && Opens(argv, outs, i, true, refused)
    then Some(Wired(argv, ins, outs, i, n, first, shell)) else None
  }

  // Every stage runs with the table it should.
  ghost predicate SetUp(stages: seq<Option<Table>>, argv: seq<Option<string>>, ins: seq<int>, outs: seq<int>, first: nat,
                        shell: Table, refused: set<(string, bool)>) {
    && Named(argv, ins) && Named(argv, outs) && |stages| == |ins| == |outs| && 0 in shell && 1 in shell
    && forall i :: 0 <= i < |stages| ==> stages[i] == Executed(argv, ins, outs, i, |stages|, first, shell, refused)
  }

  // No descriptor of the shell names a pipe numbered `first` or more.
  ghost predicate Older(shell: Table, first: nat) {
    forall fd :: fd in shell && shell[fd].PipeEnd? ==> shell[fd].pipe < first
  }

  function End(pipes: seq<Ends>, i: nat, write: bool): nat
    requires i < |pipes|
  {
    if write then pipes[i].write else pipes[i].read
  }

  // The descriptors of base are all there and unchanged.
  ghost predicate Kept(t: Table, base: Table) {
    forall fd :: fd in base ==> fd in t && t[fd] == base[fd]
  }

  // Any other descriptor is an end of one of the pipes from j to k.
  ghost predicate Within(t: Table, base: Table, pipes: seq<Ends>, j: nat, k: nat, first: nat)
    requires k <= |pipes|
  {
    forall fd :: fd in t && fd !in base ==>
      && t[fd].PipeEnd? && first + j <= t[fd].pipe < first + k
      && fd == End(pipes, t[fd].pipe - first, t[fd].write)
  }

  // Both ends of the pipes from j to k are open, on descriptors base does not use.
  ghost predicate Present(t: Table, base: Table, pipes: seq<Ends>, j: nat, k: nat, first: nat)
    requires k <= |pipes|
  {
    forall i, write :: j <= i < k ==>
      && End(pipes, i, write) in t && End(pipes, i, write) !in base
      && t[End(pipes, i, write)] == PipeEnd(first + i, write)
  }

  // t is the table base plus both ends of the pipes from j to k.
  ghost predicate Holds(t: Table, base: Table, pipes: seq<Ends>, j: nat, k: nat, first: nat)
    requires k <= |pipes|
  {
    Kept(t, base) && Within(t, base, pipes, j, k, first) && Present(t, base, pipes, j, k, first)
  }

  lemma HeldEnd(t: Table, base: Table, pipes: seq<Ends>, j: nat, k: nat, first: nat, i: nat, write: bool)
    requires k <= |pipes| && Holds(t, base, pipes, j, k, first) && j <= i < k
    ensures End(pipes, i, write) in t && End(pipes, i, write) !in base
    ensures t[End(pipes, i, write)] == PipeEnd(first + i, write)
  {
  }

  // A pipe that has just been made is added at the end.
  lemma HoldsAfterPipe(t: Table, base: Table, pipes: seq<Ends>, k: nat, first: nat, ends: Ends)
    requires k < |pipes| && Holds(t, base, pipes, 0, k, first)
    requires ends.read != ends.write && ends.read !in t && ends.write !in t
    ensures Holds(t[ends.read := PipeEnd(first + k, false)][ends.write := PipeEnd(first + k, true)], base,
                  pipes[k := ends], 0, k + 1, first)
  {
    var t' := t[ends.read := PipeEnd(first + k, false)][ends.write := PipeEnd(first + k, true)];
    var pipes' := pipes[k := ends];
    forall fd | fd in t' && fd !in base
      ensures t'[fd].PipeEnd? && first <= t'[fd].pipe < first + k + 1
      ensures fd == End(pipes', t'[fd].pipe - first, t'[fd].write)
    {
      if fd in t && fd != ends.read && fd != ends.write {
        assert fd == End(pipes, t[fd].pipe - first, t[fd].write);
      }
    }
    forall i, write | 0 <= i < k + 1
      ensures End(pipes', i, write) in t' && End(pipes', i, write) !in base
      ensures t'[End(pipes', i, write)] == PipeEnd(first + i, write)
    {
      if i < k { HeldEnd(t, base, pipes, 0, k, first, i, write); }
    }
  }

  // Closing both ends of the first of the pipes leaves the others.
  lemma HoldsAfterClose(t: Table, base: Table, pipes: seq<Ends>, j: nat, k: nat, first: nat)
    requires j < k <= |pipes| && Holds(t, base, pipes, j, k, first)
    ensures pipes[j].read != pipes[j].write && pipes[j].read in t && pipes[j].write in t
    ensures Holds(t - {pipes[j].read} - {pipes[j].write}, base, pipes, j + 1, k, first)
  {
    HeldEnd(t, base, pipes, j, k, first, j, false);
    HeldEnd(t, base, pipes, j, k, first, j, true);
    var t' := t - {pipes[j].read} - {pipes[j].write};
    forall fd | fd in t' && fd !in base
      ensures t'[fd].PipeEnd? && first + j + 1 <= t'[fd].pipe < first + k
      ensures fd == End(pipes, t'[fd].pipe - first, t'[fd].write)
    {
      assert fd in t && fd == End(pipes, t[fd].pipe - first, t[fd].write);
    }
    forall i, write | j + 1 <= i < k
      ensures End(pipes, i, write) in t' && End(pipes, i, write) !in base
      ensures t'[End(pipes, i, write)] == PipeEnd(first + i, write)
    {
      HeldEnd(t, base, pipes, j, k, first, i, write);
    }
  }

  // Duplicating a descriptor over one of base leaves the pipes where they are.
  lemma HoldsAfterDup(t: Table, base: Table, pipes: seq<Ends>, k: nat, first: nat, fd: nat, file: OpenFile)
    requires k <= |pipes| && Holds(t, base, pipes, 0, k, first) && fd in base
    ensures fd in t && Holds(t[fd := file], base[fd := file], pipes, 0, k, first)
  {
    var t', base' := t[fd := file], base[fd := file];
    forall d | d in t' && d !in base'
      ensures t'[d].PipeEnd? && first <= t'[d].pipe < first + k && d == End(pipes, t'[d].pipe - first, t'[d].write)
    {
      assert d in t && d !in base;
    }
    forall i, write | 0 <= i < k
      ensures End(pipes, i, write) in t' && End(pipes, i, write) !in base'
      ensures t'[End(pipes, i, write)] == PipeEnd(first + i, write)
    {
      HeldEnd(t, base, pipes, 0, k, first, i, write);
    }
  }

  lemma HoldsNone(t: Table, base: Table, pipes: seq<Ends>, j: nat, first: nat)
    requires j <= |pipes|
    ensures Holds(t, base, pipes, j, j, first) <==> t == base
  {
    if Holds(t, base, pipes, j, j, first) {
      forall fd | fd in t ensures fd in base {
      }
    }
  }

  // Close(pipes[j][READ_END]); Close(pipes[j][WRITE_END]) for every j.
  method ClosePipes(p: Process, pipes: array<Ends>, n: nat, ghost base: Table, ghost first: nat)
    requires n <= pipes.Length && Holds(p.fds, base, pipes[..], 0, n, first)
    modifies p
    ensures p.fds == base
  {
    hide Holds;
    for j := 0 to n
      invariant Holds(p.fds, base, pipes[..], j, n, first)
    {
      HoldsAfterClose(p.fds, base, pipes[..], j, n, first);
      p.Close(pipes[j].read);
      p.Close(pipes[j].write);
    }
    HoldsNone(p.fds, base, pipes[..], n, first);
  }

  // The child's part of eval for stage i of n, up to Execve.
  method Stage(p: Process, argv: seq<Option<string>>, ins: seq<int>, outs: seq<int>, i: nat, n: nat, pipes: array<Ends>,
               ghost first: nat, ghost shell: Table)
    returns (ok: bool)
    requires Named(argv, ins) && Named(argv, outs) && i < n == |ins| == |outs| && n - 1 <= pipes.Length
    requires 0 in shell && 1 in shell && Holds(p.fds, shell, pipes[..], 0, n - 1, first)
    modifies p
    ensures ok <==> Opens(argv, ins, i, false, p.refused) && Opens(argv, outs, i, true, p.refused)
    ensures ok ==> p.fds == Wired(argv, ins, outs, i, n, first, shell)
  {
    hide Holds;
    ghost var base := shell;
    var redirectedInput, redirectedOutput := false, false;
    if ins[i] > 0 {
      redirectedInput := true;
      HoldsAfterDup(p.fds, base, pipes[..], n - 1, first, 0, File(argv[ins[i]].value, false));
      ok := p.Redirect(argv[ins[i]].value, 0, false);
      if !ok { return; }
      base := base[0 := File(argv[ins[i]].value, false)];
    }
    if outs[i] > 0 {
      redirectedOutput := true;
      HoldsAfterDup(p.fds, base, pipes[..], n - 1, first, 1, File(argv[outs[i]].value, true));
      ok := p.Redirect(argv[outs[i]].value, 1, true);
      if !ok { return; }
      base := base[1 := File(argv[outs[i]].value, true)];
    }
    if i < n - 1 && !redirectedOutput {
      HoldsAfterDup(p.fds, base, pipes[..], n - 1, first, 1, PipeEnd(first + i, true));
      HeldEnd(p.fds, base, pipes[..], 0, n - 1, first, i, true);
      p.Dup2(pipes[i].write, 1);
      base := base[1 := PipeEnd(first + i, true)];
    }
    if i > 0 && !redirectedInput {
      HoldsAfterDup(p.fds, base, pipes[..], n - 1, first, 0, PipeEnd(first + i - 1, false));
      HeldEnd(p.fds, base, pipes[..], 0, n - 1, first, i - 1, false);
      p.Dup2(pipes[i - 1].read, 0);
      base := base[0 := PipeEnd(first + i - 1, false)];
    }
    ClosePipes(p, pipes, n - 1, base, first);
    ok := true;
  }

  // Pipe(pipes[i]) for every i.
  method MakePipes(shell: Process, pipes: array<Ends>, n: nat, first: nat)
    requires n <= pipes.Length
    modifies shell, pipes
    ensures Holds(shell.fds, old(shell.fds), pipes[..], 0, n, first)
  {
    hide Holds;
    ghost var base := shell.fds;
    HoldsNone(base, base, pipes[..], 0, first);
    for i := 0 to n
      invariant Holds(shell.fds, base, pipes[..], 0, i, first)
    {
      ghost var before, made := shell.fds, pipes[..];
      var ends := shell.Pipe(first + i);
      HoldsAfterPipe(before, base, made, i, first, ends);
      pipes[i] := ends;
      assert pipes[..] == made[i := ends];
    }
  }

  // eval from the pipe loop to the parent's close loop.  stages[i] is the table
  // stage i executes with, or None if one of its files cannot be opened.
  method Eval(shell: Process, argv: seq<Option<string>>, ins: seq<int>, outs: seq<int>, n: nat, first: nat)
    returns (stages: seq<Option<Table>>)
    requires Named(argv, ins) && Named(argv, outs) && 0 < n == |ins| == |outs|
    requires 0 in shell.fds && 1 in shell.fds
    modifies shell
    ensures shell.fds == old(shell.fds)
    ensures |stages| == n && SetUp(stages, argv, ins, outs, first, old(shell.fds), shell.refused)
  {
    ghost var base := shell.fds;
    var pipes := new Ends[n];
    MakePipes(shell, pipes, n - 1, first);
    hide Holds, Wired, Opens, Named;
    stages := [];
    for i := 0 to n
      invariant Holds(shell.fds, base, pipes[..], 0, n - 1, first)
      invariant |stages| == i
      invariant forall k :: 0 <= k < i ==> stages[k] == Executed(argv, ins, outs, k, n, first, base, shell.refused)
    {
      var child := new Process(shell.fds, shell.refused);
      var ok := Stage(child, argv, ins, outs, i, n, pipes, first, base);
      stages := stages + [if ok then Some(child.fds) else None];
    }
    ClosePipes(shell, pipes, n - 1, base, first);
  }

  // Where `file` is open: the pairs of a stage and a descriptor of its table.
  ghost function Holders(stages: seq<Option<Table>>, file: OpenFile): set<(nat, nat)> {
    set i: nat, fd | i < |stages| && stages[i].Some? && fd in stages[i].value && stages[i].value[fd] == file :: (i, fd)
  }

  // Once eval has set up the pipeline, the write end of pipe k is open in just one
  // place, the standard output of stage k unless that is a file, and its read end
  // in just one, the standard input of stage k + 1 unless that is a file.  So when
  // stage k ends, no write end of pipe k is left open.
  lemma OnlyEnds(stages: seq<Option<Table>>, argv: seq<Option<string>>, ins: seq<int>, outs: seq<int>, first: nat,
                 shell: Table, refused: set<(string, bool)>, k: nat)
    requires SetUp(stages, argv, ins, outs, first, shell, refused) && Older(shell, first) && k < |stages| - 1
    ensures Holders(stages, PipeEnd(first + k, true)) == if stages[k].Some? && outs[k] <= 0 then {(k, 1)} else {}
    ensures Holders(stages, PipeEnd(first + k, false)) == if stages[k + 1].Some? && ins[k + 1] <= 0 then {(k + 1, 0)} else {}
    ensures forall fd :: fd in shell && shell[fd].PipeEnd? ==> shell[fd].pipe != first + k
  {
    hide Executed;
    EndHolders(stages, argv, ins, outs, first, shell, refused, k, true);
    EndHolders(stages, argv, ins, outs, first, shell, refused, k, false);
  }

  lemma EndHolders(stages: seq<Option<Table>>, argv: seq<Option<string>>, ins: seq<int>, outs: seq<int>, first: nat,
                   shell: Table, refused: set<(string, bool)>, k: nat, write: bool)
    requires SetUp(stages, argv, ins, outs, first, shell, refused) && Older(shell, first) && k < |stages| - 1
    ensures var i, fd := if write then k else k + 1, if write then 1 else 0;
      Holders(stages, PipeEnd(first + k, write)) ==
      if stages[i].Some? && (if write then outs[i] else ins[i]) <= 0 then {(i, fd)} else {}
  {
    hide Executed;
    forall i: nat, fd | i < |stages| && stages[i].Some? && fd in stages[i].value
      ensures stages[i].value[fd] == PipeEnd(first + k, write) <==>
        if write then i == k && fd == 1 && outs[k] <= 0 else i == k + 1 && fd == 0 && ins[k + 1] <= 0
    {
      EndInTable(argv, ins, outs, i, |stages|, first, shell, refused, k, fd, write);
    }
    var i := if write then k else k + 1;
    if stages[i].Some? {
      EndInTable(argv, ins, outs, i, |stages|, first, shell, refused, k, 0, write);
    }
  }

  lemma EndInTable(argv: seq<Option<string>>, ins: seq<int>, outs: seq<int>, i: nat, n: nat, first: nat, shell: Table,
                   refused: set<(string, bool)>, k: nat, fd: nat, write: bool)
    requires Named(argv, ins) && Named(argv, outs) && i < n == |ins| == |outs| && 0 in shell && 1 in shell
    requires Older(shell, first) && k < n - 1 && Executed(argv, ins, outs, i, n, first, shell, refused).Some?
    ensures Executed(argv, ins, outs, i, n, first, shell, refused).value.Keys == shell.Keys
    ensures fd in shell ==>
      (Executed(argv, ins, outs, i, n, first, shell, refused).value[fd] == PipeEnd(first + k, write) <==>
       if write then i == k && fd == 1 && outs[k] <= 0 else i == k + 1 && fd == 0 && ins[k + 1] <= 0)
  {
  }

  // ---- From the words to the processes -----------------------------------------

  lemma ParsedSlotsNamed(args: seq<string>)
    requires args != []
    ensures Named(Result(args).argv, Result(args).ins) && Named(Result(args).argv, Result(args).outs)
  {
    SlotsNameStrings(args);
  }

  // The table command i should run with: it reads from the last file it redirects
  // its input from, or else from command i - 1, or else from the shell's input,
  // and likewise for its output.
  ghost function AsWritten(cmds: seq<Command>, i: nat, first: nat, shell: Table): Table
    requires i < |cmds| && 0 in shell && 1 in shell
  {
    var input, output := LastFile(cmds[i].redirs, true), LastFile(cmds[i].redirs, false);
    shell[0 := if input.Some? then File(input.value, false) else if i == 0 then shell[0] else PipeEnd(first + i - 1, false)]
         [1 := if output.Some? then File(output.value, true) else if i == |cmds| - 1 then shell[1] else PipeEnd(first + i, true)]
  }

  // It runs, unless one of those two files cannot be opened.
  ghost function RunsWith(cmds: seq<Command>, i: nat, first: nat, shell: Table, refused: set<(string, bool)>): Option<Table>
    requires i < |cmds| && 0 in shell && 1 in shell
  {
    var input, output := LastFile(cmds[i].redirs, true), LastFile(cmds[i].redirs, false);
    if (input.Some? && (input.value, false) in refused) || (output.Some? && (output.value, true) in refused) then None
    else Some(AsWritten(cmds, i, first, shell))
  }

  // The slots give command i its own words, ended by NULL, and the table it should
  // run with.
  ghost predicate SlotsAsWritten(r: Slots, cmds: seq<Command>, i: nat, first: nat, shell: Table, refused: set<(string, bool)>)
    requires i < |cmds| && 0 in shell && 1 in shell
  {
    && |r.cmds| == |r.ins| == |r.outs| == |cmds| && Named(r.argv, r.ins) && Named(r.argv, r.outs)
    && At(r.argv, r.cmds[i], cmds[i].words) && r.argv[r.cmds[i] + |cmds[i].words|] == None
    && Executed(r.argv, r.ins, r.outs, i, |cmds|, first, shell, refused) == RunsWith(cmds, i, first, shell, refused)
  }

  lemma RecoveredAsWritten(r: Slots, cmds: seq<Command>, i: nat, first: nat, shell: Table, refused: set<(string, bool)>)
    requires |r.cmds| == |r.ins| == |r.outs| == |cmds| && Named(r.argv, r.ins) && Named(r.argv, r.outs)
    requires i < |cmds| && Recovered(r, i, cmds[i]) && 0 in shell && 1 in shell
    ensures SlotsAsWritten(r, cmds, i, first, shell, refused)
  {
    hide LastFile;
  }

  // Split by parseargs and wired by eval, argv is the pipeline that was written.
  ghost predicate RunsAsWritten(argv: seq<string>, cmds: seq<Command>, i: nat, first: nat, shell: Table,
                                refused: set<(string, bool)>)
    requires i < |cmds| && 0 in shell && 1 in shell
  {
    argv != [] && SlotsAsWritten(Result(argv), cmds, i, first, shell, refused)
  }

  lemma PipelineAsWritten(cmds: seq<Command>, i: nat, first: nat, shell: Table, refused: set<(string, bool)>)
    requires i < |cmds| && (forall c :: 0 <= c < |cmds| ==> Plain(cmds[c])) && 0 in shell && 1 in shell
    ensures Flatten(cmds) != [] && RunsAsWritten(Flatten(cmds), cmds, i, first, shell, refused)
  {
    hide Flatten, Result, Plain, LastFile, SlotsAsWritten, Recovered;
    FlattenedPipeline(cmds);
    ParsedSlotsNamed(Flatten(cmds));
    RecoveredAsWritten(Result(Flatten(cmds)), cmds, i, first, shell, refused);
  }

  // The words of a line are those of a pipeline, perhaps with a last one that asks
  // for the background.
  predicate Spells(words: seq<string>, cmds: seq<Command>) {
    if words != [] && "&" <= words[|words| - 1] then words[..|words| - 1] == Flatten(cmds) else words == Flatten(cmds)
  }

  // From the line to the processes: a pipeline written out word by word, each word
  // bare or in quotes, is the pipeline that is set up.
  lemma LineAsWritten(lead: nat, items: seq<Tokenizer.Item>, cmds: seq<Command>, i: nat, first: nat, shell: Table,
                      refused: set<(string, bool)>)
    requires Tokenizer.Separated(items) && Spells(Tokenizer.Values(items), cmds)
    requires i < |cmds| && (forall c :: 0 <= c < |cmds| ==> Plain(cmds[c])) && 0 in shell && 1 in shell
    ensures var line := Tokenizer.Spaces(lead) + Tokenizer.Print(items) + "\n";
      RunsAsWritten(Tokenizer.Parsed(Tokenizer.Tokens(Tokenizer.Text(line))).0, cmds, i, first, shell, refused)
  {
    hide Flatten, RunsAsWritten, Plain, Spells, Tokenizer.Parsed, Tokenizer.Tokens;
    PipelineAsWritten(cmds, i, first, shell, refused);
    ArgvSpelled(lead, items, cmds);
  }

  lemma ArgvSpelled(lead: nat, items: seq<Tokenizer.Item>, cmds: seq<Command>)
    requires Tokenizer.Separated(items) && Spells(Tokenizer.Values(items), cmds) && Flatten(cmds) != []
    ensures Tokenizer.Parsed(Tokenizer.Tokens(Tokenizer.Text(Tokenizer.Spaces(lead) + Tokenizer.Print(items) + "\n"))).0
      == Flatten(cmds)
  {
    hide Flatten, Tokenizer.Parsed, Tokenizer.Tokens;
    Tokenizer.PrintedArgv(lead, items);
  }
}

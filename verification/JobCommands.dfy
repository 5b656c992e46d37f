// What the commands of shell-lab2/tsh.c do to the job they name: a launch lists it
// in the right state and, in the foreground, waits for it; fg and bg find it by its
// jid or pid and set its state; and the handler records what it is told of it.
module JobCommands {
  import opened JobTable
  import opened JobControl
  import opened JobFates

  // ---- Reports ----------------------------------------------------------------

  // A report that a child has stopped puts its slot into state ST, and a report that
  // it has died empties its slot; no other slot is touched.
  lemma ReportHandled(s: State, k: nat)
    requires Inv(s) && Enabled(s, Handle) && s.handler.pid in Pids(s.jobs) && k < |s.jobs|
    ensures var j, j' := s.jobs[k], HandleStep(s).jobs[k];
      if j.pid != s.handler.pid then j' == j
      else if s.handler.report == Stopped then j' == Job(j.pid, j.pgid, j.jid, ST, j.cmdline)
      else j' == Job(0, j.pgid, 0, UNDEF, "")
  {
    var i := Slot(s.jobs, s.handler.pid);
    assert s.jobs[k].pid == s.handler.pid ==> k == i;
  }

  // ---- Launching ----------------------------------------------------------------

  ghost predicate Listed(jobs: seq<Job>, pid: int, line: string, state: JobState) {
    exists k :: 0 <= k < |jobs| && jobs[k].pid == pid && jobs[k].cmdline == line && jobs[k].state == state
  }

  // Before the job is listed.
  predicate Launching(m: Main, bg: bool, line: string) {
    m == Block(bg, line) || m == Fork(bg, line) || (m.List? && m.bg == bg && m.line == line)
  }

  // Statements of eval left until it is.
  function Ahead(m: Main): nat {
    if m.Block? then 2 else 1
  }

  // Whatever else happens, the next two statements of a launch list the job: in the
  // background if that was asked for, in the foreground if not, and under its own
  // command line, unless the list is full.
  lemma {:induction false} LaunchLists(s: State, es: seq<Event>, r: State, bg: bool, line: string)
    requires Inv(s) && !s.overflow && Launching(s.main, bg, line) && Run(s, es, r) && Statements(es) <= Ahead(s.main)
    ensures Inv(r)
    ensures if Statements(es) < Ahead(s.main) then Launching(r.main, bg, line) && !r.overflow
      else r.main.Unblock? && r.main.bg == bg && (r.overflow || Listed(r.jobs, r.main.child, line, if bg then BG else FG))
    decreases |es|
  {
    if es != [] {
      StepInv(s, es[0]);
      if s.main.List? && es[0] == Proceed {
        AddLists(s);
        UnblockStays(Step(s, es[0]), es[1..], r);
      } else {
        LaunchLists(Step(s, es[0]), es[1..], r, bg, line);
      }
    }
  }

  lemma AddLists(s: State)
    requires Inv(s) && s.main.List? && Enabled(s, Proceed)
    ensures Step(s, Proceed).main == Unblock(s.main.child, s.main.bg)
    ensures Step(s, Proceed).overflow
      || Listed(Step(s, Proceed).jobs, s.main.child, s.main.line, if s.main.bg then BG else FG)
    ensures (Step(s, Proceed).jobs == s.jobs && Step(s, Proceed).overflow) || Entered(s.jobs, Step(s, Proceed).jobs,
        Job(s.main.child, 0, s.nextjid, if s.main.bg then BG else FG, s.main.line))
  {
    AddedPids(s.jobs, s.nextjid, s.main.child, 0, if s.main.bg then BG else FG, s.main.line);
    var i := Slot(s.jobs, 0);
    if i < |s.jobs| {
      var r := Step(s, Proceed);
      assert r.jobs[i].pid == s.main.child && r.jobs[i].cmdline == s.main.line;
    }
  }

  // ---- Job ids --------------------------------------------------------------------

  // Live jids are distinct and nextjid is one above the largest.
  ghost predicate InOrder(s: State) {
    JidsMatch(s.jobs) && DistinctJids(s.jobs) && s.nextjid >= 1 && InStep(s.jobs, s.nextjid)
  }

  // addjob issues a jid from which nextjid wraps.
  ghost predicate Wraps(s: State, e: Event) {
    e == Proceed && s.main.List? && HasFreeSlot(s.jobs) && s.nextjid >= MAXJOBS
  }

  lemma RestateInOrder(jobs: seq<Job>, i: nat, state: JobState)
    requires i < |jobs|
    ensures var r := jobs[i := jobs[i].(state := state)];
      MaxJid(r) == MaxJid(jobs) && (JidsMatch(jobs) ==> JidsMatch(r)) && (DistinctJids(jobs) ==> DistinctJids(r))
  {
    var r := jobs[i := jobs[i].(state := state)];
    assert forall k :: 0 <= k < |jobs| ==> r[k].jid == jobs[k].jid && r[k].pid == jobs[k].pid;
    SameMaxJid(jobs, r);
  }

  lemma {:induction false} SameMaxJid(a: seq<Job>, b: seq<Job>)
    requires |a| == |b| && forall k :: 0 <= k < |a| ==> a[k].jid == b[k].jid
    ensures MaxJid(a) == MaxJid(b)
  {
    if a != [] { SameMaxJid(a[..|a| - 1], b[..|b| - 1]); }
  }

  lemma AddInOrderIff(s: State)
    requires Inv(s) && s.main.List? && Enabled(s, Proceed) && InOrder(s)
    ensures InOrder(Step(s, Proceed)) <==> !Wraps(s, Proceed)
  {
    var child, state := s.main.child, if s.main.bg then BG else FG;
    hide Inv, Added, InStep, DistinctJids, JidsMatch;
    AddedFree(s, state);
    if HasFreeSlot(s.jobs) { AddedInStepIff(s.jobs, s.nextjid, child, 0, state, s.main.line); }
  }

  lemma AddedFree(s: State, state: JobState)
    requires Inv(s) && s.main.List?
    ensures var (r, next, ok) := Added(s.jobs, s.nextjid, s.main.child, 0, state, s.main.line);
      (ok <==> HasFreeSlot(s.jobs)) && (ok ==> next >= 1 || s.nextjid < 1) && (!ok ==> r == s.jobs && next == s.nextjid)
  {
    AddedPids(s.jobs, s.nextjid, s.main.child, 0, state, s.main.line);
  }

  lemma HandleInOrder(s: State)
    requires Inv(s) && Enabled(s, Handle) && InOrder(s)
    ensures InOrder(HandleStep(s))
  {
    hide Inv, DistinctJids, JidsMatch;
    var pid := s.handler.pid;
    if s.handler.report == Stopped {
      var i := Slot(s.jobs, pid);
      if i < |s.jobs| { RestateInOrder(s.jobs, i, ST); }
    } else if Deleted(s.jobs, s.nextjid, pid).2 {
      DeletedInStep(s.jobs, s.nextjid, pid);
    }
  }

  // A step keeps them so if and only if it is not an addjob that makes nextjid wrap.
  lemma StepInOrderIff(s: State, e: Event)
    requires Inv(s) && Enabled(s, e) && InOrder(s)
    ensures InOrder(Step(s, e)) <==> !Wraps(s, e)
  {
    hide Inv, DistinctJids, JidsMatch, HandleStep;
    if e == Proceed && s.main.List? {
      AddInOrderIff(s);
    } else if e == Proceed && s.main.SetState? {
      RestateInOrder(s.jobs, s.main.i, if s.main.fg then FG else BG);
    } else if e == Handle {
      HandleInOrder(s);
    }
  }

  ghost predicate EverWraps(s: State, es: seq<Event>)
    decreases |es|
  {
    es != [] && Enabled(s, es[0]) && (Wraps(s, es[0]) || EverWraps(Step(s, es[0]), es[1..]))
  }

  // So in every run in which nextjid has not wrapped, %jid names at most one job.
  lemma {:induction false} RunInOrder(s: State, es: seq<Event>, r: State)
    requires Inv(s) && InOrder(s) && Run(s, es, r) && !EverWraps(s, es)
    ensures InOrder(r)
    decreases |es|
  {
    if es != [] {
      StepInv(s, es[0]);
      StepInOrderIff(s, es[0]);
      RunInOrder(Step(s, es[0]), es[1..], r);
    }
  }

  // Until the signal is unblocked only the children can change.
  lemma {:induction false} UnblockStays(s: State, es: seq<Event>, r: State)
    requires Inv(s) && s.main.Unblock? && Run(s, es, r) && Statements(es) == 0
    ensures Inv(r) && r.main == s.main && r.jobs == s.jobs && r.overflow == s.overflow
    decreases |es|
  {
    if es != [] {
      StepInv(s, es[0]);
      UnblockStays(Step(s, es[0]), es[1..], r);
    }
  }

  // ---- Waiting for a foreground launch --------------------------------------------

  // Along the run the handler handles a report about pid.
  ghost predicate Told(s: State, es: seq<Event>, pid: int)
    decreases |es|
  {
    es != [] && Enabled(s, es[0]) && ((es[0] == Handle && s.handler.pid == pid) || Told(Step(s, es[0]), es[1..], pid))
  }

  // The job pid is in the foreground, and eval is waiting for it.
  ghost predicate Awaited(s: State, pid: int) {
    && pid > 0 && (s.main == Unblock(pid, false) || (s.main.Scan? && s.main.pid == pid) || (s.main.ReadFg? && s.main.pid == pid))
    && exists k :: 0 <= k < |s.jobs| && s.jobs[k].pid == pid && s.jobs[k].state == FG
  }

  lemma StepAwaited(s: State, e: Event, pid: int)
    requires Inv(s) && Awaited(s, pid) && Enabled(s, e) && !(e == Handle && s.handler.pid == pid)
    ensures Awaited(Step(s, e), pid)
  {
    var k :| 0 <= k < |s.jobs| && s.jobs[k].pid == pid && s.jobs[k].state == FG;
    var r := Step(s, e);
    if e == Handle {
      assert Slot(s.jobs, s.handler.pid) != k;
    }
    assert r.jobs[k] == s.jobs[k];
  }

  lemma {:induction false} AwaitedRun(s: State, es: seq<Event>, r: State, pid: int)
    requires Inv(s) && Awaited(s, pid) && Run(s, es, r)
    ensures Inv(r) && (Awaited(r, pid) || Told(s, es, pid))
    decreases |es|
  {
    if es != [] && !(es[0] == Handle && s.handler.pid == pid) {
      StepInv(s, es[0]);
      StepAwaited(s, es[0], pid);
      AwaitedRun(Step(s, es[0]), es[1..], r, pid);
    } else if es != [] {
      RunInv(s, es, r);
    }
  }

  lemma AddAwaited(s: State, line: string)
    requires Inv(s) && s.main.List? && !s.main.bg && Enabled(s, Proceed)
    ensures Step(s, Proceed).overflow || Awaited(Step(s, Proceed), s.main.child)
  {
    AddLists(s);
  }

  // The child that fork returns first.
  function Launched(es: seq<Event>): (c: int) {
    if es == [] then 0 else if es[0].Forked? then es[0].child else Launched(es[1..])
  }

  // Where a foreground launch has got to when no report about its child has been
  // handled: it is not listed yet, or eval waits for it.
  ghost predicate Busy(s: State, child: int) {
    (s.main.Block? && !s.main.bg) || (s.main.Fork? && !s.main.bg) || (s.main.List? && !s.main.bg && s.main.child == child)
    || Awaited(s, child)
  }

  lemma {:induction false} OverflowStays(s: State, es: seq<Event>, r: State)
    requires Run(s, es, r) && s.overflow
    ensures r.overflow
    decreases |es|
  {
    if es != [] { OverflowStays(Step(s, es[0]), es[1..], r); }
  }

  // The lemma behind ForegroundWaits, from List on.
  lemma {:induction false} ListedWaits(s: State, es: seq<Event>, r: State)
    requires Inv(s) && s.main.List? && !s.main.bg && Run(s, es, r) && !r.overflow
    ensures Busy(r, s.main.child) || Told(s, es, s.main.child)
    decreases |es|
  {
    if es != [] {
      StepInv(s, es[0]);
      if es[0] == Proceed {
        AddAwaited(s, s.main.line);
        if Step(s, es[0]).overflow { OverflowStays(Step(s, es[0]), es[1..], r); }
        AwaitedRun(Step(s, es[0]), es[1..], r, s.main.child);
      } else {
        ListedWaits(Step(s, es[0]), es[1..], r);
      }
    }
  }

  lemma {:induction false} LaunchWaits(s: State, es: seq<Event>, r: State)
    requires Inv(s) && (s.main.Block? || s.main.Fork?) && !s.main.bg && Run(s, es, r) && !r.overflow
    ensures Busy(r, Launched(es)) || Told(s, es, Launched(es))
    decreases |es|
  {
    if es != [] {
      StepInv(s, es[0]);
      if es[0].Forked? {
        ListedWaits(Step(s, es[0]), es[1..], r);
      } else {
        LaunchWaits(Step(s, es[0]), es[1..], r);
      }
    }
  }

  // A command launched in the foreground is waited for: in no run, however the
  // handler interrupts, is the shell back at the prompt before a report about the
  // new child has been handled.
  lemma ForegroundWaits(s: State, line: string, es: seq<Event>, r: State)
    requires AtPrompt(s) && Run(s, es, r) && !r.overflow
    requires es != [] && es[0] == Typed(Launch(false, line)) && !Told(s, es, Launched(es))
    ensures r.main != Prompt && Busy(r, Launched(es))
  {
    StepInv(s, es[0]);
    LaunchWaits(Step(s, es[0]), es[1..], r);
    assert Launched(es) == Launched(es[1..]);
  }

  // Once it is listed there always is a run on which eval gets back.
  lemma ForegroundReturns(s: State) returns (es: seq<Event>, r: State)
    requires Inv(s) && !s.overflow && s.main.Unblock? && !s.crashed && s.main.child > 0
    ensures Run(s, es, r) && r.main == Prompt
  {
    var m := Step(s, Proceed);
    StepInv(s, Proceed);
    RunOne(s, Proceed);
    es, r := WaitCanReturn(m, s.main.child);
    RunAppend(s, [Proceed], m, es, r);
    es := [Proceed] + es;
  }

  // ---- fg and bg ------------------------------------------------------------------

  // Does a job have the id that the command names?  Ids below 1 name no job.
  predicate Names(c: Command, j: Job) {
    match c
    case Launch(_, _) => false
    case ByJid(jid, _) => jid >= 1 && j.jid == jid
    case ByPid(pid, _) => pid >= 1 && j.pid == pid
  }

  predicate Moves(c: Command) { !c.Launch? }

  // The first slot the command names, or |jobs|.
  function Target(c: Command, jobs: seq<Job>): (k: nat)
    ensures k <= |jobs| && (k < |jobs| ==> Names(c, jobs[k])) && forall i :: 0 <= i < k ==> !Names(c, jobs[i])
  {
    if jobs == [] || Names(c, jobs[0]) then 0 else 1 + Target(c, jobs[1..])
  }

  // The search for the job has got to slot i.
  predicate Seeking(m: Main, c: Command, i: nat) {
    match c
    case Launch(_, _) => false
    case ByJid(jid, fg) => jid >= 1 && m == SeekJid(i, jid, fg)
    case ByPid(pid, fg) => pid >= 1 && m == SeekPid(i, pid, fg)
  }

  predicate OnlyStatements(es: seq<Event>) { forall e :: e in es ==> e == Proceed }

  lemma {:induction false} SeekAlone(s: State, c: Command, i: nat, k: nat) returns (es: seq<Event>, r: State)
    requires Moves(c) && Seeking(s.main, c, i) && !s.crashed && s.handler == Off && |s.jobs| == MAXJOBS
    requires i <= k == Target(c, s.jobs)
    ensures Run(s, es, r) && OnlyStatements(es)
    ensures r == s.(main := if k == MAXJOBS then Prompt else SetState(k, c.fg))
    decreases MAXJOBS - i
  {
    RunOne(s, Proceed);
    if i == k {
      es, r := [Proceed], Step(s, Proceed);
    } else {
      es, r := SeekAlone(Step(s, Proceed), c, i + 1, k);
      RunAppend(s, [Proceed], Step(s, Proceed), es, r);
      es := [Proceed] + es;
    }
  }

  // What fg or bg is to do to the shell's state, left alone: nothing if it names no
  // job; otherwise the first job it names is put in the foreground and waited for,
  // or put in the background.
  function Obeyed(s: State, c: Command): State
    requires Moves(c)
  {
    var k := Target(c, s.jobs);
    if k == |s.jobs| then s
    else
      var j := s.jobs[k];
      s.(jobs := s.jobs[k := Job(j.pid, j.pgid, j.jid, if c.fg then FG else BG, j.cmdline)],
         main := if c.fg then Scan(0, j.pid) else Prompt)
  }

  lemma CommandAlone(s: State, c: Command) returns (es: seq<Event>, r: State)
    requires AtPrompt(s) && Moves(c)
    ensures Run(s, [Typed(c)] + es, r) && OnlyStatements(es) && r == Obeyed(s, c)
  {
    var k := Target(c, s.jobs);
    var typed := Step(s, Typed(c));
    RunOne(s, Typed(c));
    if typed.main == Prompt {
      es, r := [], s;
      assert [Typed(c)] + [] == [Typed(c)];
    } else {
      es, r := SeekAlone(typed, c, 0, k);
      if k < MAXJOBS {
        RunThen(typed, es, r, Proceed);
        es, r := es + [Proceed], Step(r, Proceed);
        if c.fg {
          RunThen(typed, es, r, Proceed);
          es, r := es + [Proceed], Step(r, Proceed);
        }
      }
      RunAppend(s, [Typed(c)], typed, es, r);
    }
  }

  // ---- With the handler in between ---------------------------------------------

  // Along the run slot k is looked at, and is (or is not) a job the command names.
  ghost predicate Looked(s: State, es: seq<Event>, c: Command, k: nat, named: bool)
    decreases |es|
  {
    es != [] && Enabled(s, es[0]) &&
    ((es[0] == Proceed && Seeking(s.main, c, k) && k < |s.jobs| && Names(c, s.jobs[k]) == named)
     || Looked(Step(s, es[0]), es[1..], c, k, named))
  }

  // Along the run slot k is put into the state the command asks for, and no other
  // slot is touched by that statement.
  ghost predicate Put(s: State, es: seq<Event>, c: Command, k: nat)
    requires Moves(c)
    decreases |es|
  {
    es != [] && Enabled(s, es[0]) &&
    ((es[0] == Proceed && s.main == SetState(k, c.fg) && k < |s.jobs| &&
      Step(s, es[0]).jobs == s.jobs[k := s.jobs[k].(state := if c.fg then FG else BG)])
     || Put(Step(s, es[0]), es[1..], c, k))
  }

  // Where the command is after its job has been found in slot k: about to set its
  // state; then, for fg, about to read its pid or waiting; and at last done.
  predicate Found(m: Main, c: Command, k: nat)
    requires Moves(c)
  {
    m == SetState(k, c.fg) || After(m, c, k)
  }

  predicate After(m: Main, c: Command, k: nat)
    requires Moves(c)
  {
    m == Prompt || (c.fg && (m == ReadPid(k) || m.Scan? || m.ReadFg?))
  }

  predicate NothingTyped(es: seq<Event>) { forall e :: e in es ==> !e.Typed? }

  lemma {:induction false} AfterRun(s: State, es: seq<Event>, r: State, c: Command, k: nat)
    requires Moves(c) && Inv(s) && Run(s, es, r) && NothingTyped(es) && k < MAXJOBS
    requires Found(s.main, c, k)
    ensures Found(r.main, c, k) && (s.main != SetState(k, c.fg) ==> After(r.main, c, k))
    ensures s.main == SetState(k, c.fg) && After(r.main, c, k) ==> Put(s, es, c, k)
    decreases |es|
  {
    if es != [] {
      StepInv(s, es[0]);
      AfterRun(Step(s, es[0]), es[1..], r, c, k);
    }
  }

  // The slots from i to k were looked at and were not named.
  ghost predicate Passed(s: State, es: seq<Event>, c: Command, i: nat, k: nat) {
    forall j: nat :: i <= j < k ==> Looked(s, es, c, j, false)
  }

  // Slot k was the first that was looked at and named; and beyond SetState its state
  // has been set.
  ghost predicate FoundAt(s: State, es: seq<Event>, r: Main, c: Command, i: nat, k: nat)
    requires Moves(c)
  {
    && i <= k < MAXJOBS && Looked(s, es, c, k, true) && Passed(s, es, c, i, k)
    && Found(r, c, k) && (r != SetState(k, c.fg) ==> Put(s, es, c, k))
  }

  // Where an fg or a bg is whose search has got to slot i: at slot k, all before it
  // having been passed; or done with nothing found; or past a slot that it has found.
  ghost predicate Pursued(s: State, es: seq<Event>, r: Main, c: Command, i: nat)
    requires Moves(c)
  {
    || (exists k: nat :: i <= k <= MAXJOBS && Seeking(r, c, k) && Passed(s, es, c, i, k))
    || (exists k: nat :: FoundAt(s, es, r, c, i, k))
    || (r == Prompt && Passed(s, es, c, i, MAXJOBS))
  }

  // One more event in front.
  lemma PassedEarlier(s: State, es: seq<Event>, c: Command, i: nat, k: nat)
    requires es != [] && Enabled(s, es[0]) && Passed(Step(s, es[0]), es[1..], c, i, k)
    ensures Passed(s, es, c, i, k)
  {
  }

  lemma PursuedEarlier(s: State, es: seq<Event>, r: Main, c: Command, i: nat, i': nat)
    requires Moves(c) && es != [] && Enabled(s, es[0]) && Pursued(Step(s, es[0]), es[1..], r, c, i')
    requires i' == i || (i' == i + 1 && Looked(s, es, c, i, false))
    ensures Pursued(s, es, r, c, i)
  {
    var m, rest := Step(s, es[0]), es[1..];
    if k: nat :| i' <= k <= MAXJOBS && Seeking(r, c, k) && Passed(m, rest, c, i', k) {
      PassedEarlier(s, es, c, i', k);
      assert Passed(s, es, c, i, k);
    } else if k: nat :| FoundAt(m, rest, r, c, i', k) {
      PassedEarlier(s, es, c, i', k);
      assert FoundAt(s, es, r, c, i, k);
    } else {
      PassedEarlier(s, es, c, i', MAXJOBS);
    }
  }

  lemma {:induction false} PromptStays(s: State, es: seq<Event>, r: State)
    requires Run(s, es, r) && s.main == Prompt && NothingTyped(es)
    ensures r.main == Prompt
    decreases |es|
  {
    if es != [] { PromptStays(Step(s, es[0]), es[1..], r); }
  }

  lemma {:induction false} PursuedRun(s: State, es: seq<Event>, r: State, c: Command, i: nat)
    requires Moves(c) && Inv(s) && Seeking(s.main, c, i) && i <= MAXJOBS && Run(s, es, r) && NothingTyped(es)
    ensures Pursued(s, es, r.main, c, i)
    decreases |es|
  {
    if es == [] {
      assert Passed(s, es, c, i, i);
    } else {
      var m, rest := Step(s, es[0]), es[1..];
      StepInv(s, es[0]);
      if es[0] != Proceed {
        PursuedRun(m, rest, r, c, i);
        PursuedEarlier(s, es, r.main, c, i, i);
      } else if i == MAXJOBS {
        PromptStays(m, rest, r);
        assert Passed(s, es, c, i, MAXJOBS);
      } else if Names(c, s.jobs[i]) {
        AfterRun(m, rest, r, c, i);
        assert FoundAt(s, es, r.main, c, i, i);
      } else {
        PursuedRun(m, rest, r, c, i + 1);
        PursuedEarlier(s, es, r.main, c, i, i + 1);
      }
    }
  }

  // fg and bg with the handler free to run between any two of their statements: the
  // slot they act on is the first that they looked at and that was named then, they
  // put just that slot into the state asked for, bg is then done, and fg goes on to
  // wait; if they look at all slots in vain they are done.
  lemma CommandPursued(s: State, c: Command, es: seq<Event>, r: State)
    requires AtPrompt(s) && Moves(c) && Run(s, [Typed(c)] + es, r) && NothingTyped(es)
    ensures var typed := Step(s, Typed(c));
      if typed.main == Prompt then r.main == Prompt && forall j: Job :: !Names(c, j)
      else Pursued(typed, es, r.main, c, 0)
  {
    var typed := Step(s, Typed(c));
    assert ([Typed(c)] + es)[1..] == es;
    StepInv(s, Typed(c));
    if typed.main == Prompt {
      PromptStays(typed, es, r);
    } else {
      PursuedRun(typed, es, r, c, 0);
    }
  }
}

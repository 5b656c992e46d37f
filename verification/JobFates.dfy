// Two ways in which the shell of shell-lab2/tsh.c fails, each shown to be reached
// and told exactly: waitfg called for a job that is gone, and a handler that meets
// a child it does not know.
module JobFates {
  import opened JobTable
  import opened JobControl

  // ---- Putting runs together --------------------------------------------------

  lemma {:induction false} RunAppend(s: State, es: seq<Event>, m: State, fs: seq<Event>, r: State)
    requires Run(s, es, m) && Run(m, fs, r)
    ensures Run(s, es + fs, r)
    decreases |es|
  {
    if es == [] {
      assert es + fs == fs;
    } else {
      RunAppend(Step(s, es[0]), es[1..], m, fs, r);
      assert (es + fs)[1..] == es[1..] + fs;
    }
  }

  lemma RunOne(s: State, e: Event)
    requires Enabled(s, e)
    ensures Run(s, [e], Step(s, e))
  {
    assert [e][1..] == [];
  }

  lemma RunThen(s: State, es: seq<Event>, m: State, e: Event)
    requires Run(s, es, m) && Enabled(m, e)
    ensures Run(s, es + [e], Step(m, e))
  {
    RunOne(m, e);
    RunAppend(s, es, m, [e], Step(m, e));
  }

  // ---- fg and a job that dies -------------------------------------------------

  // Along the run the handler deletes pid from the list.
  ghost predicate Buried(s: State, es: seq<Event>, pid: int)
    decreases |es|
  {
    es != [] && Enabled(s, es[0]) &&
    ((es[0] == Handle && s.handler.pid == pid && Zombie(s.handler.report)) || Buried(Step(s, es[0]), es[1..], pid))
  }

  // Between finding the job and reading its pid.
  predicate Fetching(m: Main, i: nat) {
    m == SetState(i, true) || m == ReadPid(i)
  }

  // What one event does to slot i meanwhile: only the handler, and only with the
  // death of the job itself, clears its pid; and a cleared slot stays so.
  lemma FetchingStep(s: State, e: Event, i: nat)
    requires Inv(s) && Enabled(s, e) && Fetching(s.main, i) && Fetching(Step(s, e).main, i) && i < MAXJOBS
    ensures |Step(s, e).jobs| == |s.jobs|
    ensures Step(s, e).jobs[i].pid ==
      if e == Handle && Zombie(s.handler.report) && s.handler.pid == s.jobs[i].pid then 0 else s.jobs[i].pid
  {
    if e == Handle {
      var k := Slot(s.jobs, s.handler.pid);
      assert s.handler.pid == s.jobs[i].pid ==> k == i;
    }
  }

  // Over any events but the next two statements of the main flow, in whatever
  // order: the slot is cleared if and only if the job is buried.
  lemma {:induction false} FetchingRun(s: State, es: seq<Event>, m: State, i: nat)
    requires Inv(s) && Run(s, es, m) && Fetching(s.main, i) && i < MAXJOBS
    requires Statements(es) + (if s.main.ReadPid? then 1 else 0) <= 1
    ensures Inv(m) && Fetching(m.main, i)
    ensures m.main.ReadPid? <==> s.main.ReadPid? || Statements(es) == 1
    ensures m.jobs[i].pid == 0 <==> s.jobs[i].pid == 0 || Buried(s, es, s.jobs[i].pid)
    ensures m.jobs[i].pid == 0 || m.jobs[i].pid == s.jobs[i].pid
    decreases |es|
  {
    if es != [] {
      StepInv(s, es[0]);
      FetchingStep(s, es[0], i);
      FetchingRun(Step(s, es[0]), es[1..], m, i);
    }
  }

  // `fg` of the job in slot i, from where its state is set: let any events come
  // between that statement and the one that reads the pid.  Then waitfg is called
  // with pid 0, from which no run ever reaches the prompt again, if and only if the
  // slot was empty or the handler deletes the job before its pid is read.
  lemma FgWaitsOnZeroIff(s: State, es: seq<Event>, m: State, i: nat)
    requires Inv(s) && s.main == SetState(i, true) && Run(s, es, m) && Statements(es) == 1 && Enabled(m, Proceed)
    ensures Inv(Step(m, Proceed)) && m.main == ReadPid(i)
    ensures WaitsOnZero(Step(m, Proceed)) <==> s.jobs[i].pid == 0 || Buried(s, es, s.jobs[i].pid)
    ensures !WaitsOnZero(Step(m, Proceed)) ==> Step(m, Proceed).main == Scan(0, s.jobs[i].pid) && s.jobs[i].pid != 0
  {
    FetchingRun(s, es, m, i);
    StepInv(m, Proceed);
    ReadPidOnZeroIff(m);
  }

  ghost predicate NoForeground(jobs: seq<Job>) {
    forall i :: 0 <= i < |jobs| ==> jobs[i].state != FG
  }

  // fgpid finds no foreground job, and waitfg returns.
  lemma {:induction false} ScanToEnd(s: State, i: nat, pid: int) returns (es: seq<Event>)
    requires !s.crashed && |s.jobs| == MAXJOBS && s.handler == Off && NoForeground(s.jobs)
    requires s.main == Scan(i, pid) && i <= MAXJOBS && pid != 0
    ensures Run(s, es, s.(main := Prompt))
    decreases MAXJOBS - i
  {
    if i == MAXJOBS {
      RunOne(s, Proceed);
      es := [Proceed];
    } else {
      RunOne(s, Proceed);
      var rest := ScanToEnd(Step(s, Proceed), i + 1, pid);
      RunAppend(s, [Proceed], Step(s, Proceed), rest, s.(main := Prompt));
      es := [Proceed] + rest;
    }
  }

  ghost function Pending(s: State): set<int> {
    set p | p in s.children && s.children[p] != Quiet
  }

  lemma RunTwo(s: State, e: Event, f: Event)
    requires Enabled(s, e) && Enabled(Step(s, e), f)
    ensures Run(s, [e, f], Step(Step(s, e), f))
  {
    RunOne(Step(s, e), f);
    assert [e, f][1..] == [f];
  }

  lemma ReportEnabled(s: State, pid: int)
    requires Inv(s) && !s.overflow && s.handler == Looping && pid in Pending(s)
    ensures Enabled(s, WaitOne(pid)) && Enabled(Step(s, WaitOne(pid)), Handle) && !Step(s, WaitOne(pid)).overflow
    ensures Step(s, WaitOne(pid)).main == s.main && Pending(Step(s, WaitOne(pid))) == Pending(s) - {pid}
  {
  }

  lemma HandleGoesOn(s: State)
    requires Inv(s) && !s.overflow && Enabled(s, Handle)
    ensures var r := Step(s, Handle);
      Inv(r) && !r.overflow && r.handler == Looping && r.main == s.main && r.children == s.children
  {
    StepInv(s, Handle);
    CrashIff(s);
  }

  // The handler takes one report.
  lemma TakeReport(s: State, pid: int) returns (r: State)
    requires Inv(s) && !s.overflow && s.handler == Looping && pid in Pending(s)
    ensures Run(s, [WaitOne(pid), Handle], r) && Inv(r) && !r.overflow && r.handler == Looping && r.main == s.main
    ensures Pending(r) == Pending(s) - {pid}
    ensures r == Step(Step(s, WaitOne(pid)), Handle)
  {
    hide Inv, Run, Enabled, Step;
    ReportEnabled(s, pid);
    StepInv(s, WaitOne(pid));
    RunTwo(s, WaitOne(pid), Handle);
    HandleGoesOn(Step(s, WaitOne(pid)));
    r := Step(Step(s, WaitOne(pid)), Handle);
  }

  // One report leaves no foreground job where there was none, or where the job it
  // is about was the only one.
  lemma ReportedForeground(s: State, pid: int)
    requires Inv(s) && !s.overflow && s.handler == Looping && pid in Pending(s) && pid in Pids(s.jobs)
    requires forall i :: 0 <= i < |s.jobs| && s.jobs[i].state == FG ==> s.jobs[i].pid == pid
    ensures NoForeground(Step(Step(s, WaitOne(pid)), Handle).jobs)
  {
    var r := Step(Step(s, WaitOne(pid)), Handle);
    var k := Slot(s.jobs, pid);
    forall i | 0 <= i < |r.jobs| ensures r.jobs[i].state != FG {
      if s.jobs[i].pid == pid {
        assert i == k;
      }
    }
  }

  // The handler takes the reports that are left and returns.
  lemma {:induction false} Drain(s: State) returns (es: seq<Event>, r: State)
    requires Inv(s) && !s.overflow && s.handler == Looping && NoForeground(s.jobs) && !s.main.List?
    ensures Run(s, es, r) && Inv(r) && !r.overflow && r.handler == Off && r.main == s.main && NoForeground(r.jobs)
    decreases |Pending(s)|
  {
    if Pending(s) == {} {
      assert forall p :: p in s.children ==> p !in Pending(s);
      StepInv(s, WaitNone);
      RunOne(s, WaitNone);
      es, r := [WaitNone], Step(s, WaitNone);
    } else {
      var p :| p in Pending(s);
      var m := TakeReport(s, p);
      ReportedForeground(s, p);
      var rest;
      rest, r := Drain(m);
      RunAppend(s, [WaitOne(p), Handle], m, rest, r);
      es := [WaitOne(p), Handle] + rest;
    }
  }

  // waitfg of a nonzero pid can always return: it is enough that its job dies.
  lemma WaitCanReturn(s: State, pid: int) returns (es: seq<Event>, r: State)
    requires Inv(s) && !s.overflow && s.handler == Off && s.main == Scan(0, pid) && pid != 0
    ensures Run(s, es, r) && r.main == Prompt
  {
    if NoForeground(s.jobs) {
      es := ScanToEnd(s, 0, pid);
      r := s.(main := Prompt);
    } else {
      var i :| 0 <= i < |s.jobs| && s.jobs[i].state == FG;
      assert s.jobs[i].pid == pid && pid in Pids(s.jobs);
      var dead, before := s, [];
      if !Zombie(s.children[pid]) {
        StepInv(s, Change(pid, Exited));
        RunOne(s, Change(pid, Exited));
        dead, before := Step(s, Change(pid, Exited)), [Change(pid, Exited)];
      }
      var looping := Step(dead, Interrupt);
      StepInv(dead, Interrupt);
      RunThen(s, before, dead, Interrupt);
      var m := TakeReport(looping, pid);
      ReportedForeground(looping, pid);
      var drained, q := Drain(m);
      var scan := ScanToEnd(q, 0, pid);
      r := q.(main := Prompt);
      RunAppend(m, drained, q, scan, r);
      RunAppend(looping, [WaitOne(pid), Handle], m, drained + scan, r);
      es := before + [Interrupt] + ([WaitOne(pid), Handle] + (drained + scan));
      RunAppend(s, before + [Interrupt], looping, [WaitOne(pid), Handle] + (drained + scan), r);
    }
  }

  ghost predicate CanReturn(s: State) {
    exists es, r :: Run(s, es, r) && r.main == Prompt
  }

  // So the shell can come back to the prompt from such an `fg` if and only if the
  // job was not deleted before its pid was read.
  lemma FgCanReturnIff(s: State, es: seq<Event>, m: State, i: nat)
    requires Inv(s) && s.main == SetState(i, true) && Run(s, es, m) && Statements(es) == 1 && Enabled(m, Proceed)
    requires !m.overflow
    ensures CanReturn(Step(m, Proceed)) <==> s.jobs[i].pid != 0 && !Buried(s, es, s.jobs[i].pid)
  {
    FgWaitsOnZeroIff(s, es, m, i);
    assert !Step(m, Proceed).overflow && Step(m, Proceed).handler == Off;
    hide Inv, Enabled, Step, WaitsOnZero, Buried, Run;
    var q := Step(m, Proceed);
    if WaitsOnZero(q) {
      forall fs, r | Run(q, fs, r) ensures r.main != Prompt {
        WaitOnZeroNeverReturns(q, fs, r);
      }
    } else {
      var fs, r := WaitCanReturn(q, s.jobs[i].pid);
    }
  }

  // ---- Both fates are reached -----------------------------------------------

  // A command is launched in the background from the prompt.
  lemma LaunchOne(s: State, child: int, line: string) returns (es: seq<Event>, r: State)
    requires Inv(s) && !s.crashed && s.main == Prompt && s.handler == Off && child > 0 && child !in s.children
    ensures Run(s, es, r) && Inv(r) && !r.crashed && r.main == Prompt && r.handler == Off
    ensures r.children == s.children[child := Quiet]
    ensures r.jobs == Added(s.jobs, s.nextjid, child, 0, BG, line).0
    ensures r.overflow == (s.overflow || !Added(s.jobs, s.nextjid, child, 0, BG, line).2)
  {
    var typed := Step(s, Typed(Launch(true, line)));
    var blocked := Step(typed, Proceed);
    var forked := Step(blocked, Forked(child));
    var listed := Step(forked, Proceed);
    var waiting := Step(listed, Proceed);
    RunOne(s, Typed(Launch(true, line)));
    RunThen(s, [Typed(Launch(true, line))], typed, Proceed);
    es := [Typed(Launch(true, line))] + [Proceed];
    RunThen(s, es, blocked, Forked(child));
    es := es + [Forked(child)];
    RunThen(s, es, forked, Proceed);
    es := es + [Proceed];
    RunThen(s, es, listed, Proceed);
    es := es + [Proceed];
    hide Run;
    RunInv(s, es, waiting);
    assert NoForeground(waiting.jobs);
    var scan := ScanToEnd(waiting, 0, child);
    r := waiting.(main := Prompt);
    RunAppend(s, es, waiting, scan, r);
    es := es + scan;
    RunInv(s, es, r);
  }

  // Children 1 to k are running.
  ghost predicate Running(children: map<int, Report>, k: nat) {
    |children| == k && forall p :: p in children ==> 1 <= p <= k && children[p] == Quiet
  }

  lemma OneMoreRunning(children: map<int, Report>, k: nat)
    requires Running(children, k)
    ensures k + 1 !in children && Running(children[k + 1 := Quiet], k + 1)
  {
    assert children[k + 1 := Quiet].Keys == children.Keys + {k + 1};
  }

  ghost predicate AtPrompt(s: State) {
    Inv(s) && !s.crashed && s.main == Prompt && s.handler == Off
  }

  // addjob at the prompt finds a slot if and only if fewer than MAXJOBS children are
  // unreaped; the pid is then listed, and otherwise not.
  lemma AddsWhileFree(s: State, child: int, line: string)
    requires AtPrompt(s) && !s.overflow && child > 0 && child !in s.children
    ensures var (jobs, _, ok) := Added(s.jobs, s.nextjid, child, 0, BG, line);
      (ok <==> |s.children| < MAXJOBS) && (child in Pids(jobs) <==> ok)
  {
    AddedPids(s.jobs, s.nextjid, child, 0, BG, line);
    PidsCount(s.jobs);
    assert Pids(s.jobs) == s.children.Keys;
  }

  // Up to MAXJOBS children can be running while the shell is at the prompt.
  lemma {:induction false} Launches(k: nat) returns (es: seq<Event>, s: State)
    requires k <= MAXJOBS
    ensures Run(Init(), es, s) && AtPrompt(s) && Running(s.children, k) && !s.overflow
  {
    if k == 0 {
      InitInv();
      es, s := [], Init();
    } else {
      hide Run, Added, Running;
      var before, last, m;
      before, m := Launches(k - 1);
      OneMoreRunning(m.children, k - 1);
      AddsWhileFree(m, k, "sleep\n");
      hide Inv;
      last, s := LaunchOne(m, k, "sleep\n");
      RunAppend(Init(), before, m, last, s);
      es := before + last;
    }
  }

  // A job that is launched, brought to the foreground, and dies just before its
  // state is set: the shell waits for pid 0.
  lemma ZeroWaitReached() returns (es: seq<Event>, s: State)
    ensures Run(Init(), es, s) && Inv(s) && WaitsOnZero(s) && !CanReturn(s)
  {
    InitInv();
    var m;
    es, m := LaunchOne(Init(), 7, "sleep\n");
    assert Slot(Empty(), 0) == 0;
    assert m.jobs[0].pid == 7;
    var fetch, found := Fetch(m, 7);
    RunAppend(Init(), es, m, fetch, found);
    es := es + fetch;
    RunInv(Init(), es, found);
    var burial, gone := Bury(found, 7);
    assert Buried(found, burial, 7);
    RunAppend(Init(), es, found, burial, gone);
    es := es + burial;
    s := Step(gone, Proceed);
    RunThen(Init(), es, gone, Proceed);
    es := es + [Proceed];
    FgWaitsOnZeroIff(found, burial, gone, 0);
    forall fs, r | Run(s, fs, r) ensures r.main != Prompt {
      WaitOnZeroNeverReturns(s, fs, r);
    }
  }

  // `fg pid` finds the job in the first slot.
  lemma Fetch(s: State, pid: int) returns (es: seq<Event>, r: State)
    requires Inv(s) && !s.crashed && s.main == Prompt && s.handler == Off && pid > 0 && s.jobs[0].pid == pid
    ensures Run(s, es, r) && r == s.(main := SetState(0, true))
  {
    var typed := Step(s, Typed(ByPid(pid, true)));
    RunOne(s, Typed(ByPid(pid, true)));
    RunThen(s, [Typed(ByPid(pid, true))], typed, Proceed);
    es, r := [Typed(ByPid(pid, true))] + [Proceed], Step(typed, Proceed);
  }

  // A child exits and the handler reaps it...
  lemma Reap(s: State, pid: int) returns (exited: State, looping: State, reported: State)
    requires Inv(s) && !s.overflow && s.main == SetState(0, true) && s.handler == Off && s.children == map[pid := Quiet]
    ensures Enabled(s, Change(pid, Exited)) && exited == Step(s, Change(pid, Exited))
    ensures Enabled(exited, Interrupt) && looping == Step(exited, Interrupt)
    ensures Enabled(looping, WaitOne(pid)) && reported == Step(looping, WaitOne(pid))
    ensures Inv(reported) && !reported.overflow && reported.main == s.main && reported.children == map[]
    ensures reported.handler == Reported(pid, Exited)
  {
    exited := Step(s, Change(pid, Exited));
    looping := Step(exited, Interrupt);
    reported := Step(looping, WaitOne(pid));
    StepInv(s, Change(pid, Exited));
    StepInv(exited, Interrupt);
    StepInv(looping, WaitOne(pid));
    assert reported.children == map[];
  }

  // ...and deletes it; then the state of the slot is set.
  lemma Bury(s: State, pid: int) returns (es: seq<Event>, r: State)
    requires Inv(s) && !s.overflow && s.main == SetState(0, true) && s.handler == Off && s.children == map[pid := Quiet]
    ensures Run(s, es, r) && Statements(es) == 1 && Buried(s, es, pid) && Enabled(r, Proceed)
  {
    var exited, looping, reported := Reap(s, pid);
    HandleGoesOn(reported);
    hide Inv;
    var handled := Step(reported, Handle);
    var back := Step(handled, WaitNone);
    r := Step(back, Proceed);
    hide Step, Enabled, Run, Buried;
    es := RunNone(r, pid);
    es := RunCons(back, Proceed, es, r, pid);
    es := RunCons(handled, WaitNone, es, r, pid);
    es := RunCons(reported, Handle, es, r, pid);
    es := RunCons(looping, WaitOne(pid), es, r, pid);
    es := RunCons(exited, Interrupt, es, r, pid);
    es := RunCons(s, Change(pid, Exited), es, r, pid);
  }

  lemma RunNone(s: State, pid: int) returns (es: seq<Event>)
    ensures Run(s, es, s) && Statements(es) == 0 && !Buried(s, es, pid)
  {
    es := [];
  }

  // One event in front of a run.
  lemma RunCons(s: State, e: Event, es: seq<Event>, r: State, pid: int) returns (fs: seq<Event>)
    requires Enabled(s, e) && Run(Step(s, e), es, r)
    ensures Run(s, fs, r) && Statements(fs) == Statements(es) + (if e == Proceed then 1 else 0)
    ensures Buried(s, fs, pid) <==>
      Buried(Step(s, e), es, pid) || (e == Handle && s.handler.pid == pid && Zombie(s.handler.report))
  {
    fs := [e] + es;
    assert fs[1..] == es;
  }

  // ---- The handler and a child it does not know ---------------------------------

  // The handler dereferences a missing job if and only if it is told that a child
  // that is not listed has stopped.
  lemma CrashIff(s: State)
    requires Inv(s) && Enabled(s, Handle)
    ensures HandleStep(s).crashed <==> s.handler.report == Stopped && s.handler.pid !in Pids(s.jobs)
  {
    var k := Slot(s.jobs, s.handler.pid);
    if k < |s.jobs| {
      assert s.jobs[k].pid in Pids(s.jobs);
    }
  }

  // A living child that is not listed, and is not about to be.
  ghost predicate Unlisted(s: State, pid: int) {
    && pid in s.children && !Zombie(s.children[pid])
    && pid !in Pids(s.jobs) && !(s.main.List? && s.main.child == pid)
  }

  lemma UnlistedStays(s: State, e: Event, pid: int)
    requires Inv(s) && Enabled(s, e) && Unlisted(s, pid)
    requires e != Forked(pid) && !(e.Change? && e.pid == pid && Zombie(e.report)) && e != WaitOne(pid)
    ensures Unlisted(Step(s, e), pid)
  {
    if e == Proceed {
      if s.main.List? {
        AddedPids(s.jobs, s.nextjid, s.main.child, 0, if s.main.bg then BG else FG, s.main.line);
      } else if s.main.SetState? {
        RestatePids(s.jobs, s.main.i, if s.main.fg then FG else BG);
      }
    } else if e == Handle {
      if s.handler.report == Stopped {
        if Slot(s.jobs, s.handler.pid) < |s.jobs| { RestatePids(s.jobs, Slot(s.jobs, s.handler.pid), ST); }
      } else {
        DeletedPids(s.jobs, s.nextjid, s.handler.pid);
      }
    }
  }

  lemma FreshChild(s: State) returns (c: int)
    ensures c > 0 && c !in s.children
  {
    c := 1;
    var keys := set p | p in s.children && p >= c;
    while c in s.children
      invariant c > 0 && forall p :: p in keys <==> p in s.children && p >= c
      decreases keys
    {
      keys := keys - {c};
      c := c + 1;
    }
  }

  // A stopped child that is not listed and has yet to be reported.
  ghost predicate Lurking(s: State, pid: int) {
    Inv(s) && !s.crashed && Unlisted(s, pid) && s.children[pid] == Stopped
  }

  lemma LurkingStays(s: State, e: Event, pid: int)
    requires Lurking(s, pid) && Enabled(s, e) && (e == Proceed || e == Interrupt || (e.Forked? && e.child != pid))
    ensures Lurking(Step(s, e), pid)
  {
    StepInv(s, e);
    UnlistedStays(s, e, pid);
  }

  // The main flow gets to where SIGCHLD is unblocked.
  lemma ToUnblocked(s: State, pid: int) returns (es: seq<Event>, r: State)
    requires Lurking(s, pid) && s.handler == Off
    ensures Run(s, es, r) && Lurking(r, pid) && r.handler == Off && !r.blocked
    decreases if s.main.Fork? then 3 else if s.main.List? then 2 else if s.main.Unblock? then 1 else 0
  {
    if !s.blocked {
      es, r := [], s;
    } else {
      var e := Proceed;
      if s.main.Fork? {
        var c := FreshChild(s);
        e := Forked(c);
      }
      LurkingStays(s, e, pid);
      RunOne(s, e);
      hide Run, Lurking;
      var rest;
      rest, r := ToUnblocked(Step(s, e), pid);
      RunAppend(s, [e], Step(s, e), rest, r);
      es := [e] + rest;
    }
  }

  // The handler gets to where it asks for the next report, or crashes on the way.
  lemma ToLooping(s: State, pid: int) returns (es: seq<Event>, r: State)
    requires Lurking(s, pid)
    ensures Run(s, es, r) && (r.crashed || (Lurking(r, pid) && r.handler == Looping))
  {
    if s.handler == Looping {
      es, r := [], s;
    } else if s.handler.Reported? {
      StepInv(s, Handle);
      UnlistedStays(s, Handle, pid);
      RunOne(s, Handle);
      es, r := [Handle], Step(s, Handle);
    } else {
      var m;
      es, m := ToUnblocked(s, pid);
      LurkingStays(m, Interrupt, pid);
      RunThen(s, es, m, Interrupt);
      es, r := es + [Interrupt], Step(m, Interrupt);
    }
  }

  // From any state with a living child that is not listed and is not about to be,
  // there is a run in which the handler crashes.
  lemma UnlistedCanCrash(s: State, pid: int) returns (es: seq<Event>, r: State)
    requires Inv(s) && !s.crashed && Unlisted(s, pid)
    ensures Run(s, es, r) && r.crashed
  {
    var stopped := Step(s, Change(pid, Stopped));
    StepInv(s, Change(pid, Stopped));
    UnlistedStays(s, Change(pid, Stopped), pid);
    RunOne(s, Change(pid, Stopped));
    var looping;
    es, looping := ToLooping(stopped, pid);
    RunAppend(s, [Change(pid, Stopped)], stopped, es, looping);
    es, r := [Change(pid, Stopped)] + es, looping;
    if !looping.crashed {
      var last;
      last, r := Crash(looping, pid);
      RunAppend(s, es, looping, last, r);
      es := es + last;
    }
  }

  lemma Crash(s: State, pid: int) returns (es: seq<Event>, r: State)
    requires Lurking(s, pid) && s.handler == Looping
    ensures Run(s, es, r) && r.crashed
  {
    var told := Step(s, WaitOne(pid));
    StepInv(s, WaitOne(pid));
    RunOne(s, WaitOne(pid));
    CrashIff(told);
    RunThen(s, [WaitOne(pid)], told, Handle);
    es, r := [WaitOne(pid)] + [Handle], Step(told, Handle);
  }

  // Sixteen children fill the list; the seventeenth has no slot.
  lemma Overfull() returns (es: seq<Event>, s: State, pid: int)
    ensures Run(Init(), es, s) && Inv(s) && !s.crashed && Unlisted(s, pid)
  {
    var full, last;
    es, full := Launches(MAXJOBS);
    pid := MAXJOBS + 1;
    AddsWhileFree(full, pid, "sleep\n");
    hide Run, Inv, Added;
    last, s := LaunchOne(full, pid, "sleep\n");
    RunAppend(Init(), es, full, last, s);
    es := es + last;
  }

  // When it stops, the handler crashes.
  lemma CrashReached() returns (es: seq<Event>, s: State)
    ensures Run(Init(), es, s) && s.crashed
  {
    hide Run, Inv, Unlisted;
    var launched, m, pid := Overfull();
    es, s := UnlistedCanCrash(m, pid);
    RunAppend(Init(), launched, m, es, s);
    es := launched + es;
  }
}

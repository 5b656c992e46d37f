// Job control in shell-lab2/tsh.c: the main flow (eval, do_bgfg, waitfg), the
// SIGCHLD handler that may interrupt it between any two unblocked statements,
// and the kernel's view of the shell's children, as one machine of steps.
module JobControl {
  import opened JobTable

  // What waitpid would report about a child.  A child that was killed or has
  // exited is a zombie until it is reaped.
  datatype Report = Quiet | Stopped | Killed | Exited

  predicate Zombie(r: Report) { r.Killed? || r.Exited? }

  datatype Handler = Off | Looping | Reported(pid: int, report: Report)

  datatype Command =
    | Launch(bg: bool, line: string)
    | ByJid(jid: int, fg: bool)
    | ByPid(pid: int, fg: bool)

  // The next statement of the main flow.  Table lookups and fgpid are read one
  // slot at a time, because the handler may run in the middle of them.
  datatype Main =
    | Prompt
    | Block(bg: bool, line: string)
    | Fork(bg: bool, line: string)
    | List(child: int, bg: bool, line: string)
    | Unblock(child: int, bg: bool)
    | SeekJid(i: nat, jid: int, fg: bool)
    | SeekPid(i: nat, pid: int, fg: bool)
    | SetState(i: nat, fg: bool)
    | ReadPid(i: nat)
    | Scan(i: nat, pid: int)
    | ReadFg(i: nat, pid: int)

  // `overflow` records that addjob has found the list full, and `crashed` that
  // the handler has dereferenced the null result of getjobpid.
  datatype State = State(
    jobs: seq<Job>, nextjid: int, main: Main, blocked: bool, handler: Handler,
    children: map<int, Report>, overflow: bool, crashed: bool)

  datatype Event =
    | Typed(command: Command)           // the user enters a command at the prompt
    | Forked(child: int)                // fork returns
    | Proceed                           // any other statement of the main flow
    | Interrupt                         // SIGCHLD is delivered
    | WaitOne(pid: int)                 // waitpid returns a child
    | WaitNone                          // waitpid returns 0 or -1
    | Handle                            // the body of the handler's loop
    | Change(pid: int, report: Report)  // a child stops, continues or dies

  function Init(): State {
    State(Empty(), 1, Prompt, false, Off, map[], false, false)
  }

  predicate Enabled(s: State, e: Event) {
    !s.crashed && |s.jobs| == MAXJOBS &&
    match e
    case Typed(_) => s.handler == Off && s.main == Prompt
    case Forked(child) => s.handler == Off && s.main.Fork? && child > 0 && child !in s.children
    case Proceed => s.handler == Off && !s.main.Prompt? && !s.main.Fork? && InList(s.main)
    case Interrupt => s.handler == Off && !s.blocked
    case WaitOne(pid) => s.handler == Looping && pid in s.children && s.children[pid] != Quiet
    case WaitNone => s.handler == Looping && forall p :: p in s.children ==> s.children[p] == Quiet
    case Handle => s.handler.Reported?
    case Change(pid, _) => pid in s.children && !Zombie(s.children[pid])
  }

  // The slot a statement uses is one of the list's slots.
  predicate InList(m: Main) {
    match m
    case SeekJid(i, _, _) => i <= MAXJOBS
    case SeekPid(i, _, _) => i <= MAXJOBS
    case SetState(i, _) => i < MAXJOBS
    case ReadPid(i) => i < MAXJOBS
    case Scan(i, _) => i <= MAXJOBS
    case ReadFg(i, _) => i < MAXJOBS
    case _ => true
  }

  function Begin(c: Command): Main {
    match c
    case Launch(bg, line) => Block(bg, line)
    case ByJid(jid, fg) => if jid < 1 then Prompt else SeekJid(0, jid, fg)
    case ByPid(pid, fg) => if pid < 1 then Prompt else SeekPid(0, pid, fg)
  }

  // One statement of eval, do_bgfg or waitfg.
  function MainStep(s: State): (r: State)
    requires Enabled(s, Proceed)
    ensures |r.jobs| == |s.jobs| && r.handler == s.handler && r.children == s.children && InList(r.main)
  {
    match s.main
    case Block(bg, line) => s.(main := Fork(bg, line), blocked := true)
    case List(child, bg, line) =>
      var (jobs, next, ok) := Added(s.jobs, s.nextjid, child, 0, if bg then BG else FG, line);
      s.(main := Unblock(child, bg), jobs := jobs, nextjid := next, overflow := s.overflow || !ok)
    case Unblock(child, _) => s.(main := Scan(0, child), blocked := false)
    case SeekJid(i, jid, fg) =>
      if i == MAXJOBS then s.(main := Prompt)
      else if s.jobs[i].jid == jid then s.(main := SetState(i, fg))
      else s.(main := SeekJid(i + 1, jid, fg))
    case SeekPid(i, pid, fg) =>
      if i == MAXJOBS then s.(main := Prompt)
      else if s.jobs[i].pid == pid then s.(main := SetState(i, fg))
      else s.(main := SeekPid(i + 1, pid, fg))
    case SetState(i, fg) =>
      s.(jobs := s.jobs[i := s.jobs[i].(state := if fg then FG else BG)], main := if fg then ReadPid(i) else Prompt)
    case ReadPid(i) => s.(main := Scan(0, s.jobs[i].pid))
    case Scan(i, pid) =>
      if i == MAXJOBS then s.(main := if pid == 0 then Scan(0, pid) else Prompt)
      else if s.jobs[i].state == FG then s.(main := ReadFg(i, pid))
      else s.(main := Scan(i + 1, pid))
    case ReadFg(i, pid) => s.(main := if s.jobs[i].pid == pid then Scan(0, pid) else Prompt)
  }

  // The body of the handler's loop for one report of waitpid.
  function HandleStep(s: State): (r: State)
    requires Enabled(s, Handle)
    ensures |r.jobs| == |s.jobs| && r.main == s.main && r.children == s.children && r.blocked == s.blocked
  {
    var pid := s.handler.pid;
    if s.handler.report == Stopped then
      var i := Slot(s.jobs, pid);
      if i == |s.jobs| then s.(crashed := true)
      else s.(jobs := s.jobs[i := s.jobs[i].(state := ST)], handler := Looping)
    else
      var (jobs, next, _) := Deleted(s.jobs, s.nextjid, pid);
      s.(jobs := jobs, nextjid := next, handler := Looping)
  }

  function Step(s: State, e: Event): (r: State)
    requires Enabled(s, e)
  {
    match e
    case Typed(c) => s.(main := Begin(c))
    case Forked(child) => s.(main := List(child, s.main.bg, s.main.line), children := s.children[child := Quiet])
    case Proceed => MainStep(s)
    case Interrupt => s.(handler := Looping)
    case WaitOne(pid) =>
      s.(handler := Reported(pid, s.children[pid]),
         children := if Zombie(s.children[pid]) then s.children - {pid} else s.children[pid := Quiet])
    case WaitNone => s.(handler := Off)
    case Handle => HandleStep(s)
    case Change(pid, report) => s.(children := s.children[pid := report])
  }

  ghost predicate Run(s: State, es: seq<Event>, r: State)
    decreases |es|
  {
    if es == [] then r == s else Enabled(s, es[0]) && Run(Step(s, es[0]), es[1..], r)
  }

  // ---- The list and the children ------------------------------------------

  // The children the list should show: every unreaped child, with the one the
  // handler has just reaped and without the one eval has just forked.
  ghost function Expected(s: State): set<int> {
    s.children.Keys
    + (if s.handler.Reported? && Zombie(s.handler.report) then {s.handler.pid} else {})
    - (if s.main.List? then {s.main.child} else {})
  }

  ghost predicate Signals(s: State) {
    && (s.blocked <==> s.main.Fork? || s.main.List? || s.main.Unblock?)
    && (s.blocked ==> s.handler == Off)
  }

  ghost predicate Reports(s: State) {
    && (forall p :: p in s.children ==> p > 0)
    && (s.main.List? ==> s.main.child in s.children)
    && (s.handler.Reported? ==>
          && s.handler.pid > 0 && s.handler.report != Quiet
          && (s.handler.pid in s.children <==> !Zombie(s.handler.report)))
  }

  ghost predicate Lists(s: State) {
    && |s.jobs| == MAXJOBS && InList(s.main)
    && DistinctPids(s.jobs)
    && Pids(s.jobs) <= Expected(s)
    && (!s.overflow ==> Pids(s.jobs) == Expected(s))
    && (s.crashed ==> s.overflow)
  }

  // ---- The foreground job -------------------------------------------------

  // Where a job in state FG may be while the main flow is at m.
  predicate FgAt(m: Main, i: nat, j: Job) {
    match m
    case Unblock(child, bg) => !bg && j.pid == child
    case ReadPid(k) => i == k
    case Scan(k, pid) => i >= k && j.pid == pid
    case ReadFg(k, pid) => i == k && j.pid == pid
    case _ => false
  }

  ghost predicate Foreground(s: State) {
    && (forall i :: 0 <= i < |s.jobs| && s.jobs[i].state == FG ==> FgAt(s.main, i, s.jobs[i]))
    && (forall i, j :: 0 <= i < j < |s.jobs| ==> !(s.jobs[i].state == FG && s.jobs[j].state == FG))
  }

  ghost predicate Inv(s: State) {
    Signals(s) && Reports(s) && Lists(s) && Foreground(s)
  }

  lemma InitInv()
    ensures Inv(Init())
  {
  }

  lemma RestatePids(jobs: seq<Job>, i: nat, state: JobState)
    requires i < |jobs| && DistinctPids(jobs)
    ensures var r := jobs[i := jobs[i].(state := state)]; Pids(r) == Pids(jobs) && DistinctPids(r)
  {
    var r := jobs[i := jobs[i].(state := state)];
    assert forall k :: 0 <= k < |jobs| ==> r[k].pid == jobs[k].pid;
    forall p | p in Pids(jobs) ensures p in Pids(r) {
      var k :| 0 <= k < |jobs| && jobs[k].pid != 0 && jobs[k].pid == p;
      assert r[k].pid == p;
    }
  }

  lemma MainStepLists(s: State)
    requires Signals(s) && Reports(s) && Lists(s) && Enabled(s, Proceed)
    ensures Signals(MainStep(s)) && Reports(MainStep(s)) && Lists(MainStep(s))
  {
    match s.main {
      case List(child, bg, line) =>
        AddedPids(s.jobs, s.nextjid, child, 0, if bg then BG else FG, line);
      case SetState(i, fg) =>
        RestatePids(s.jobs, i, if fg then FG else BG);
      case _ =>
    }
  }

  // A change to one slot of a list with no foreground job.
  lemma OneSlotForeground(s: State, r: State, i: nat)
    requires i < |s.jobs| == |r.jobs| && r.jobs == s.jobs[i := r.jobs[i]]
    requires forall k :: 0 <= k < |s.jobs| ==> s.jobs[k].state != FG
    requires r.jobs[i].state == FG ==> FgAt(r.main, i, r.jobs[i])
    ensures Foreground(r)
  {
  }

  lemma ScanForeground(s: State)
    requires Foreground(s) && Enabled(s, Proceed) && (s.main.ReadPid? || s.main.Scan? || s.main.ReadFg?)
    ensures Foreground(MainStep(s))
  {
    assert MainStep(s).jobs == s.jobs;
  }

  lemma MainStepForeground(s: State)
    requires Foreground(s) && Enabled(s, Proceed)
    ensures Foreground(MainStep(s))
  {
    if s.main.List? {
      var i := Slot(s.jobs, 0);
      if s.main.child >= 1 && i < |s.jobs| { OneSlotForeground(s, MainStep(s), i); }
    } else if s.main.SetState? {
      OneSlotForeground(s, MainStep(s), s.main.i);
    } else if s.main.ReadPid? || s.main.Scan? || s.main.ReadFg? {
      ScanForeground(s);
    } else {
      assert MainStep(s).jobs == s.jobs;
    }
  }

  lemma MainStepInv(s: State)
    requires Inv(s) && Enabled(s, Proceed)
    ensures Inv(MainStep(s))
  {
    MainStepLists(s);
    MainStepForeground(s);
  }

  lemma HandleStepInv(s: State)
    requires Inv(s) && Enabled(s, Handle)
    ensures Inv(HandleStep(s))
  {
    var pid := s.handler.pid;
    if s.handler.report == Stopped {
      var i := Slot(s.jobs, pid);
      if i < |s.jobs| {
        RestatePids(s.jobs, i, ST);
      } else {
        assert pid !in Pids(s.jobs);
      }
    } else {
      DeletedPids(s.jobs, s.nextjid, pid);
    }
  }

  lemma StepInv(s: State, e: Event)
    requires Inv(s) && Enabled(s, e)
    ensures Inv(Step(s, e))
  {
    match e {
      case Proceed => MainStepInv(s);
      case Handle => HandleStepInv(s);
      case _ =>
    }
  }

  lemma {:induction false} RunInv(s: State, es: seq<Event>, r: State)
    requires Inv(s) && Run(s, es, r)
    ensures Inv(r)
    decreases |es|
  {
    if es != [] {
      StepInv(s, es[0]);
      RunInv(Step(s, es[0]), es[1..], r);
    }
  }

  // ---- What every run guarantees -------------------------------------------

  // Whenever SIGCHLD is unblocked and no handler is running, the listed pids are
  // distinct and are exactly the forked and unreaped children.
  lemma ListIsChildren(es: seq<Event>, s: State)
    requires Run(Init(), es, s)
    ensures DistinctPids(s.jobs) && Pids(s.jobs) <= Expected(s)
    ensures !s.overflow && !s.blocked && s.handler == Off ==> Pids(s.jobs) == s.children.Keys
    ensures !s.overflow && s.main.List? ==> Pids(s.jobs) == s.children.Keys - {s.main.child}
  {
    InitInv();
    RunInv(Init(), es, s);
  }

  // addjob fails on the seventeenth unreaped child, and only then.
  lemma ListFullIff(s: State)
    requires Inv(s) && !s.overflow && Enabled(s, Proceed) && s.main.List?
    ensures MainStep(s).overflow <==> |s.children| > MAXJOBS
  {
    var m := s.main;
    AddedPids(s.jobs, s.nextjid, m.child, 0, if m.bg then BG else FG, m.line);
    PidsCount(s.jobs);
    assert |s.children.Keys| == |Pids(s.jobs)| + 1;
  }

  ghost predicate WithinLimit(s: State, es: seq<Event>)
    decreases |es|
  {
    |s.children| <= MAXJOBS && (es != [] && Enabled(s, es[0]) ==> WithinLimit(Step(s, es[0]), es[1..]))
  }

  // A run that never has more than MAXJOBS unreaped children keeps the list
  // complete, and the handler never meets a child it cannot find.
  lemma {:induction false} WithinLimitIsSafe(s: State, es: seq<Event>, r: State)
    requires Inv(s) && !s.overflow && Run(s, es, r) && WithinLimit(s, es)
    ensures Inv(r) && !r.overflow && !r.crashed
    decreases |es|
  {
    if es != [] {
      StepInv(s, es[0]);
      if es[0] == Proceed && s.main.List? { ListFullIff(s); }
      WithinLimitIsSafe(Step(s, es[0]), es[1..], r);
    }
  }

  // At most one job is in the foreground in every state, and none is when the
  // main flow is back at the prompt.
  lemma AtMostOneForeground(es: seq<Event>, s: State)
    requires Run(Init(), es, s)
    ensures forall i, j :: 0 <= i < j < |s.jobs| ==> !(s.jobs[i].state == FG && s.jobs[j].state == FG)
    ensures s.main == Prompt ==> forall i :: 0 <= i < |s.jobs| ==> s.jobs[i].state != FG
  {
    InitInv();
    RunInv(Init(), es, s);
  }

  // ---- When waitfg returns ---------------------------------------------------

  // waitfg was called with pid 0: the job was deleted before its pid was read.
  ghost predicate WaitsOnZero(s: State) {
    match s.main
    case Scan(_, pid) => pid == 0
    case ReadFg(i, pid) => pid == 0 && i < |s.jobs| && s.jobs[i].pid == 0
    case _ => false
  }

  lemma StepOnZero(s: State, e: Event)
    requires Inv(s) && WaitsOnZero(s) && Enabled(s, e)
    ensures WaitsOnZero(Step(s, e))
  {
    if e == Handle && s.handler.report == Stopped {
      assert Slot(s.jobs, s.handler.pid) <= |s.jobs|;
    }
  }

  // From there no run ever comes back to the prompt.
  lemma {:induction false} WaitOnZeroNeverReturns(s: State, es: seq<Event>, r: State)
    requires Inv(s) && WaitsOnZero(s) && Run(s, es, r)
    ensures WaitsOnZero(r) && r.main != Prompt
    decreases |es|
  {
    if es != [] {
      StepInv(s, es[0]);
      StepOnZero(s, es[0]);
      WaitOnZeroNeverReturns(Step(s, es[0]), es[1..], r);
    }
  }

  // That is what `fg` gets from a slot that has been cleared.
  lemma ReadPidOnZeroIff(s: State)
    requires Inv(s) && Enabled(s, Proceed) && s.main.ReadPid?
    ensures WaitsOnZero(MainStep(s)) <==> s.jobs[s.main.i].pid == 0
  {
  }

  // waitfg is looking for a process that is no longer in the foreground.
  ghost predicate Released(s: State) {
    && (s.main.Scan? || s.main.ReadFg? || s.main.Prompt?)
    && (s.main.Scan? || s.main.ReadFg? ==> s.main.pid != 0)
    && forall i :: 0 <= i < |s.jobs| ==> s.jobs[i].state != FG
  }

  // Statements left before waitfg returns.
  function Distance(m: Main): nat {
    match m
    case Scan(i, _) => if i <= MAXJOBS then MAXJOBS + 1 - i else 0
    case ReadFg(_, _) => MAXJOBS + 2
    case _ => 0
  }

  lemma StepReleased(s: State, e: Event)
    requires Inv(s) && Released(s) && Enabled(s, e) && !e.Typed?
    ensures Released(Step(s, e))
    ensures Distance(Step(s, e).main) + (if e == Proceed then 1 else 0) <= Distance(s.main)
  {
    if e == Handle && s.handler.report == Stopped {
      assert Slot(s.jobs, s.handler.pid) <= |s.jobs|;
    }
  }

  function Statements(es: seq<Event>): nat {
    if es == [] then 0 else (if es[0] == Proceed then 1 else 0) + Statements(es[1..])
  }

  // Once the job has stopped or gone, waitfg(pid) with pid != 0 returns: however
  // the handler interrupts, the main flow runs at most MAXJOBS + 2 more
  // statements, and while it has not returned it can always run the next one
  // unless the handler is active.
  lemma {:induction false} WaitReturns(s: State, es: seq<Event>, r: State)
    requires Inv(s) && Released(s) && Run(s, es, r) && forall e :: e in es ==> !e.Typed?
    ensures Released(r) && Statements(es) + Distance(r.main) <= Distance(s.main) <= MAXJOBS + 2
    ensures r.main != Prompt && r.handler == Off && !r.crashed ==> Enabled(r, Proceed)
    decreases |es|
  {
    if es != [] {
      StepInv(s, es[0]);
      StepReleased(s, es[0]);
      WaitReturns(Step(s, es[0]), es[1..], r);
    }
  }
}

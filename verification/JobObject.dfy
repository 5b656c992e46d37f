// The shell of shell-lab2/tsh.c in its own form: the job list that the main flow
// and the SIGCHLD handler both update in place.
module JobObject {
  import opened JobTable
  import opened JobControl

  class Shell {
    const list: JobList
    var main: Main
    var blocked: bool
    var handler: Handler
    var children: map<int, Report>
    ghost var overflow: bool
    var crashed: bool

    ghost predicate Valid()
      reads this, list
    {
      list.Valid()
    }

    ghost function View(): State
      reads this, list, list.jobs
    {
      State(list.jobs[..], list.nextjid, main, blocked, handler, children, overflow, crashed)
    }

    constructor ()
      ensures Valid() && fresh(list) && fresh(list.jobs) && View() == Init()
    {
      list := new JobList();
      main, blocked, handler, children := Prompt, false, Off, map[];
      overflow, crashed := false, false;
    }

    method SetState(i: nat, state: JobState)
      requires Valid() && i < MAXJOBS
      modifies list.jobs
      ensures list.jobs[..] == old(list.jobs[..])[i := old(list.jobs[i]).(state := state)]
    {
      list.jobs[i] := list.jobs[i].(state := state);
    }

    // The next statement of eval, do_bgfg or waitfg.
    method Proceeds()
      requires Valid() && Enabled(View(), Proceed)
      modifies this, list, list.jobs
      ensures Valid() && View() == MainStep(old(View()))
    {
      match main {
        case Block(bg, line) =>
          blocked := true;
          main := Fork(bg, line);
        case List(child, bg, line) =>
          var ok := list.AddJob(child, 0, if bg then BG else FG, line);
          overflow := overflow || !ok;
          main := Unblock(child, bg);
        case Unblock(child, _) =>
          blocked := false;
          main := Scan(0, child);
        case SeekJid(i, jid, fg) =>
          main := if i == MAXJOBS then Prompt
                  else if list.jobs[i].jid == jid then Main.SetState(i, fg) else SeekJid(i + 1, jid, fg);
        case SeekPid(i, pid, fg) =>
          main := if i == MAXJOBS then Prompt
                  else if list.jobs[i].pid == pid then Main.SetState(i, fg) else SeekPid(i + 1, pid, fg);
        case SetState(i, fg) =>
          SetState(i, if fg then FG else BG);
          main := if fg then ReadPid(i) else Prompt;
        case ReadPid(i) =>
          main := Scan(0, list.jobs[i].pid);
        case Scan(i, pid) =>
          main := if i == MAXJOBS then (if pid == 0 then Scan(0, pid) else Prompt)
                  else if list.jobs[i].state == FG then ReadFg(i, pid) else Scan(i + 1, pid);
        case ReadFg(i, pid) =>
          main := if list.jobs[i].pid == pid then Scan(0, pid) else Prompt;
      }
    }

    // The body of the loop of sigchld_handler.
    method Handles()
      requires Valid() && Enabled(View(), Handle) && handler.pid >= 1
      modifies this, list, list.jobs
      ensures Valid() && View() == HandleStep(old(View()))
    {
      if handler.report == Stopped {
        var i := list.GetJobPid(handler.pid);
        if i == MAXJOBS {
          crashed := true;
        } else {
          SetState(i, ST);
          handler := Looping;
        }
      } else {
        var _ := list.DeleteJob(handler.pid);
        handler := Looping;
      }
    }

    method Advance(e: Event)
      requires Valid() && Inv(View()) && Enabled(View(), e)
      modifies this, list, list.jobs
      ensures Valid() && View() == Step(old(View()), e) && Inv(View())
    {
      StepInv(View(), e);
      hide Inv, MainStep, HandleStep;
      match e {
        case Typed(command) =>
          main := Begin(command);
        case Forked(child) =>
          children := children[child := Quiet];
          main := List(child, main.bg, main.line);
        case Proceed =>
          Proceeds();
        case Interrupt =>
          handler := Looping;
        case WaitOne(pid) =>
          handler := Reported(pid, children[pid]);
          children := if Zombie(children[pid]) then children - {pid} else children[pid := Quiet];
        case WaitNone =>
          handler := Off;
        case Handle =>
          ReportedPid(View());
          Handles();
        case Change(pid, report) =>
          children := children[pid := report];
      }
    }
  }

  lemma ReportedPid(s: State)
    requires Inv(s) && s.handler.Reported?
    ensures s.handler.pid >= 1
  {
  }
}

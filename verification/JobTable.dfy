// The job list of shell-lab2/tsh.c: sixteen slots and the counter nextjid,
// updated in place, against specification functions on the sequence of slots.
module JobTable {

  const MAXJOBS: nat := 16

  datatype JobState = UNDEF | FG | BG | ST

  datatype Job = Job(pid: int, pgid: int, jid: int, state: JobState, cmdline: string)

  // clearjob: everything but pgid is reset.
  function Cleared(j: Job): Job {
    j.(pid := 0, jid := 0, state := UNDEF, cmdline := "")
  }

  // ---- Specification functions on the slots -------------------------------

  // The largest jid in the list, or 0.
  function MaxJid(jobs: seq<Job>): (m: int)
    ensures m >= 0
    ensures forall i :: 0 <= i < |jobs| ==> jobs[i].jid <= m
    ensures m > 0 ==> exists i :: 0 <= i < |jobs| && jobs[i].jid == m
  {
    if jobs == [] then 0
    else
      var m := MaxJid(jobs[..|jobs| - 1]);
      if jobs[|jobs| - 1].jid > m then jobs[|jobs| - 1].jid else m
  }

  // The first slot holding pid, or |jobs|.
  function Slot(jobs: seq<Job>, pid: int): (i: nat)
    ensures i <= |jobs|
    ensures i < |jobs| ==> jobs[i].pid == pid
    ensures forall k :: 0 <= k < i ==> jobs[k].pid != pid
  {
    if jobs == [] then 0 else if jobs[0].pid == pid then 0 else 1 + Slot(jobs[1..], pid)
  }

  // addjob: the first slot whose pid is 0, if any, takes the job and nextjid.
  function Added(jobs: seq<Job>, nextjid: int, pid: int, pgid: int, state: JobState, cmdline: string): (r: (seq<Job>, int, bool))
    ensures |r.0| == |jobs|
  {
    var i := Slot(jobs, 0);
    if pid < 1 || i == |jobs| then (jobs, nextjid, false)
    else (jobs[i := Job(pid, pgid, nextjid, state, cmdline)],
          if nextjid + 1 > MAXJOBS then 1 else nextjid + 1, true)
  }

  // deletejob: the first slot with this pid is cleared and nextjid is recomputed.
  function Deleted(jobs: seq<Job>, nextjid: int, pid: int): (r: (seq<Job>, int, bool))
    ensures |r.0| == |jobs|
  {
    var i := Slot(jobs, pid);
    if pid < 1 || i == |jobs| then (jobs, nextjid, false)
    else
      var jobs' := jobs[i := Cleared(jobs[i])];
      (jobs', MaxJid(jobs') + 1, true)
  }

  // ---- Process ids -----------------------------------------------------------

  // The pids of the occupied slots.
  function Pids(jobs: seq<Job>): set<int> {
    set i | 0 <= i < |jobs| && jobs[i].pid != 0 :: jobs[i].pid
  }

  ghost predicate DistinctPids(jobs: seq<Job>) {
    forall i, j :: 0 <= i < j < |jobs| && jobs[i].pid != 0 ==> jobs[i].pid != jobs[j].pid
  }

  // One slot that was free takes the job j, and the others are as they were.
  ghost predicate Entered(jobs: seq<Job>, r: seq<Job>, j: Job) {
    exists i :: 0 <= i < |jobs| && jobs[i].pid == 0 && r == jobs[i := j]
  }

  predicate Vacant(j: Job) { j.pid == 0 && j.jid == 0 && j.state == UNDEF && j.cmdline == "" }

  lemma AddedPids(jobs: seq<Job>, nextjid: int, pid: int, pgid: int, state: JobState, cmdline: string)
    requires DistinctPids(jobs) && pid > 0 && pid !in Pids(jobs)
    ensures var (r, _, ok) := Added(jobs, nextjid, pid, pgid, state, cmdline);
      && DistinctPids(r)
      && (ok <==> HasFreeSlot(jobs))
      && Pids(r) == if ok then Pids(jobs) + {pid} else Pids(jobs)
    ensures var (r, next, ok) := Added(jobs, nextjid, pid, pgid, state, cmdline);
      if ok then Entered(jobs, r, Job(pid, pgid, nextjid, state, cmdline)) else r == jobs && next == nextjid
  {
    var r := Added(jobs, nextjid, pid, pgid, state, cmdline).0;
    var i := Slot(jobs, 0);
    if i < |jobs| {
      assert r[i].pid == pid;
      assert jobs[i].pid == 0 && r == jobs[i := r[i]];
      forall p | p in Pids(jobs) ensures p in Pids(r) {
        var k :| 0 <= k < |jobs| && jobs[k].pid != 0 && jobs[k].pid == p;
        assert r[k].pid == p;
      }
    }
  }

  lemma DeletedPids(jobs: seq<Job>, nextjid: int, pid: int)
    requires DistinctPids(jobs) && pid > 0
    ensures var (r, _, ok) := Deleted(jobs, nextjid, pid);
      && DistinctPids(r)
      && (ok <==> pid in Pids(jobs))
      && Pids(r) == Pids(jobs) - {pid}
      && forall i :: 0 <= i < |jobs| ==> if jobs[i].pid == pid then Vacant(r[i]) else r[i] == jobs[i]
    ensures var (_, next, ok) := Deleted(jobs, nextjid, pid); !ok ==> next == nextjid
  {
    var r := Deleted(jobs, nextjid, pid).0;
    var i := Slot(jobs, pid);
    forall p | p in Pids(jobs) && p != pid ensures p in Pids(r) {
      var k :| 0 <= k < |jobs| && jobs[k].pid != 0 && jobs[k].pid == p;
      assert r[k].pid == p;
    }
  }

  lemma PidsOfLast(jobs: seq<Job>)
    requires jobs != []
    ensures var init, last := jobs[..|jobs| - 1], jobs[|jobs| - 1];
      Pids(jobs) == if last.pid == 0 then Pids(init) else Pids(init) + {last.pid}
  {
    var init, last := jobs[..|jobs| - 1], jobs[|jobs| - 1];
    forall p | p in Pids(init) ensures p in Pids(jobs) {
      var k :| 0 <= k < |init| && init[k].pid != 0 && init[k].pid == p;
      assert jobs[k].pid == p;
    }
    if last.pid != 0 { assert jobs[|jobs| - 1].pid in Pids(jobs); }
  }

  ghost predicate HasFreeSlot(jobs: seq<Job>) {
    exists i :: 0 <= i < |jobs| && jobs[i].pid == 0
  }

  lemma FreeOfLast(jobs: seq<Job>)
    requires jobs != []
    ensures HasFreeSlot(jobs) <==> HasFreeSlot(jobs[..|jobs| - 1]) || jobs[|jobs| - 1].pid == 0
  {
    var init := jobs[..|jobs| - 1];
    assert forall i :: 0 <= i < |init| ==> init[i] == jobs[i];
  }

  lemma DistinctPidsOfLast(jobs: seq<Job>)
    requires jobs != [] && DistinctPids(jobs)
    ensures var init, last := jobs[..|jobs| - 1], jobs[|jobs| - 1];
      DistinctPids(init) && (last.pid != 0 ==> last.pid !in Pids(init))
  {
  }

  // Distinct pids fill distinct slots, so a free slot exists exactly when fewer
  // jobs than slots are listed.
  lemma {:induction false} PidsCount(jobs: seq<Job>)
    requires DistinctPids(jobs)
    ensures |Pids(jobs)| <= |jobs|
    ensures |Pids(jobs)| < |jobs| <==> HasFreeSlot(jobs)
  {
    if jobs == [] {
      assert Pids(jobs) == {};
    } else {
      PidsOfLast(jobs);
      FreeOfLast(jobs);
      DistinctPidsOfLast(jobs);
      PidsCount(jobs[..|jobs| - 1]);
    }
  }

  // ---- Job ids -----------------------------------------------------------------

  // A cleared slot has jid 0, so live jids are the nonzero ones.
  ghost predicate DistinctJids(jobs: seq<Job>) {
    forall i, j :: 0 <= i < j < |jobs| && jobs[i].jid != 0 ==> jobs[i].jid != jobs[j].jid
  }

  ghost predicate InStep(jobs: seq<Job>, nextjid: int) {
    nextjid == MaxJid(jobs) + 1
  }

  // A slot is free or holds a job, and a free slot has no jid.
  ghost predicate JidsMatch(jobs: seq<Job>) {
    forall i :: 0 <= i < |jobs| ==> jobs[i].jid >= 0 && (jobs[i].pid == 0 <==> jobs[i].jid == 0)
  }

  // A successful addjob keeps live jids distinct exactly when the jid it hands
  // out is not in use.
  lemma AddedJidsIff(jobs: seq<Job>, nextjid: int, pid: int, pgid: int, state: JobState, cmdline: string)
    requires DistinctJids(jobs) && JidsMatch(jobs) && nextjid >= 1
    requires Added(jobs, nextjid, pid, pgid, state, cmdline).2
    ensures var r := Added(jobs, nextjid, pid, pgid, state, cmdline).0;
      && JidsMatch(r)
      && (DistinctJids(r) <==> forall i :: 0 <= i < |jobs| ==> jobs[i].jid != nextjid)
  {
    var r := Added(jobs, nextjid, pid, pgid, state, cmdline).0;
    var i := Slot(jobs, 0);
    assert forall k :: 0 <= k < |jobs| && k != i ==> r[k] == jobs[k];
    assert r[i].jid == nextjid && jobs[i].jid == 0;
  }

  // From a list in step, addjob hands out a fresh jid, and the list stays in
  // step exactly when that jid is below MAXJOBS.
  lemma AddedInStepIff(jobs: seq<Job>, nextjid: int, pid: int, pgid: int, state: JobState, cmdline: string)
    requires DistinctJids(jobs) && JidsMatch(jobs) && InStep(jobs, nextjid)
    requires Added(jobs, nextjid, pid, pgid, state, cmdline).2
    ensures var (r, next, _) := Added(jobs, nextjid, pid, pgid, state, cmdline);
      && DistinctJids(r) && JidsMatch(r)
      && (InStep(r, next) <==> nextjid < MAXJOBS)
      && (nextjid >= MAXJOBS ==> next == 1)
  {
    AddedJidsIff(jobs, nextjid, pid, pgid, state, cmdline);
    var (r, next, _) := Added(jobs, nextjid, pid, pgid, state, cmdline);
    assert r[Slot(jobs, 0)].jid == nextjid;
    assert MaxJid(r) == nextjid by {
      forall k | 0 <= k < |r| ensures r[k].jid <= nextjid { }
    }
  }

  // A successful deletejob always leaves nextjid one above the largest jid, and
  // keeps distinct jids distinct.
  lemma DeletedInStep(jobs: seq<Job>, nextjid: int, pid: int)
    requires JidsMatch(jobs) && Deleted(jobs, nextjid, pid).2
    ensures var (r, next, _) := Deleted(jobs, nextjid, pid);
      && InStep(r, next) && JidsMatch(r)
      && (DistinctJids(jobs) ==> DistinctJids(r))
  {
  }

  // ---- Whole histories of the list ----------------------------------------

  datatype Op = Add(pid: int) | Delete(pid: int)

  // The list, nextjid, and whether addjob has ever issued a jid of MAXJOBS or more.
  datatype History = History(jobs: seq<Job>, nextjid: int, wrapped: bool)

  function Empty(): seq<Job> {
    seq(MAXJOBS, _ => Job(0, 0, 0, UNDEF, ""))
  }

  function Apply(h: History, op: Op): (r: History)
    ensures |r.jobs| == |h.jobs|
  {
    match op
    case Add(pid) =>
      var (jobs, next, ok) := Added(h.jobs, h.nextjid, pid, 0, BG, "");
      History(jobs, next, h.wrapped || (ok && h.nextjid >= MAXJOBS))
    case Delete(pid) =>
      var (jobs, next, _) := Deleted(h.jobs, h.nextjid, pid);
      History(jobs, next, h.wrapped)
  }

  function Replay(ops: seq<Op>): (h: History)
    ensures |h.jobs| == MAXJOBS
  {
    if ops == [] then History(Empty(), 1, false)
    else Apply(Replay(ops[..|ops| - 1]), ops[|ops| - 1])
  }

  lemma {:induction false} NoMaximum(jobs: seq<Job>)
    requires forall i :: 0 <= i < |jobs| ==> jobs[i].jid <= 0
    ensures MaxJid(jobs) == 0
  {
  }

  // Until addjob has issued a jid of MAXJOBS or more, nextjid is one above the
  // largest live jid and live jids are distinct, for every history.
  lemma {:induction false} ReplayInStep(ops: seq<Op>)
    ensures var h := Replay(ops);
      && |h.jobs| == MAXJOBS && JidsMatch(h.jobs) && h.nextjid >= 1
      && (!h.wrapped ==> InStep(h.jobs, h.nextjid) && DistinctJids(h.jobs))
  {
    if ops == [] {
      NoMaximum(Empty());
    } else {
      var h, op := Replay(ops[..|ops| - 1]), ops[|ops| - 1];
      ReplayInStep(ops[..|ops| - 1]);
      match op {
        case Add(pid) =>
          if Added(h.jobs, h.nextjid, pid, 0, BG, "").2 && !h.wrapped {
            AddedInStepIff(h.jobs, h.nextjid, pid, 0, BG, "");
          }
        case Delete(pid) =>
          if Deleted(h.jobs, h.nextjid, pid).2 { DeletedInStep(h.jobs, h.nextjid, pid); }
      }
    }
  }

  // The history of k jobs started one after the other.
  function Adds(k: nat): seq<Op> {
    seq(k, i requires 0 <= i < k => Add(100 + i))
  }

  function FirstJobs(k: nat): seq<Job>
    requires k <= MAXJOBS
  {
    seq(MAXJOBS, i requires 0 <= i < MAXJOBS => if i < k then Job(100 + i, 0, i + 1, BG, "") else Job(0, 0, 0, UNDEF, ""))
  }

  lemma FirstJobsNext(k: nat)
    requires k < MAXJOBS
    ensures Slot(FirstJobs(k), 0) == k
    ensures FirstJobs(k)[k := Job(100 + k, 0, k + 1, BG, "")] == FirstJobs(k + 1)
  {
    assert FirstJobs(k)[k].pid == 0;
  }

  lemma {:induction false} ReplayAdds(k: nat)
    requires k <= MAXJOBS
    ensures Replay(Adds(k)) == History(FirstJobs(k), if k < MAXJOBS then k + 1 else 1, k == MAXJOBS)
  {
    if k == 0 {
      assert FirstJobs(0) == Empty();
    } else {
      ReplayAdds(k - 1);
      FirstJobsNext(k - 1);
      assert Adds(k)[..k - 1] == Adds(k - 1);
    }
  }

  lemma ReplayNext(ops: seq<Op>, op: Op)
    ensures Replay(ops + [op]) == Apply(Replay(ops), op)
  {
    assert (ops + [op])[..|ops|] == ops;
  }

  // Sixteen jobs started, and those with jids 5 and 6 ended.
  function TwoGone(): seq<Job> {
    var jobs := FirstJobs(16);
    jobs[4 := Cleared(jobs[4])][5 := Cleared(jobs[5])]
  }

  lemma ReplayTwoGone()
    ensures Replay(Adds(16) + [Delete(104)] + [Delete(105)]) == History(TwoGone(), 17, true)
  {
    ReplayAdds(16);
    ReplayNext(Adds(16), Delete(104));
    ReplayNext(Adds(16) + [Delete(104)], Delete(105));
    var j0 := FirstJobs(16);
    assert Slot(j0, 104) == 4 by { assert j0[4].pid == 104; }
    var j1 := j0[4 := Cleared(j0[4])];
    assert Slot(j1, 105) == 5 by { assert j1[5].pid == 105; }
    assert MaxJid(TwoGone()) == 16 by { assert TwoGone()[15].jid == 16; }
  }

  lemma TwoMore(jobs: seq<Job>)
    requires |jobs| == MAXJOBS && jobs[0].jid == 1
    requires jobs[4].pid == 0 && jobs[5].pid == 0 && forall k :: 0 <= k < 4 ==> jobs[k].pid != 0
    ensures Apply(Apply(History(jobs, 17, true), Add(200)), Add(201))
         == History(jobs[4 := Job(200, 0, 17, BG, "")][5 := Job(201, 0, 1, BG, "")], 2, true)
  {
    assert Slot(jobs, 0) == 4;
    var jobs' := jobs[4 := Job(200, 0, 17, BG, "")];
    assert jobs'[5].pid == 0 && forall k :: 0 <= k < 5 ==> jobs'[k].pid != 0;
    assert Slot(jobs', 0) == 5;
  }

  // After a wrap distinctness can fail: start sixteen jobs, end those with jids
  // 5 and 6, and start two more; the second of them is given jid 1 again.
  lemma WrapRepeatsAJid()
    ensures var h := Replay(Adds(16) + [Delete(104)] + [Delete(105)] + [Add(200)] + [Add(201)]);
      h.jobs[0].jid == 1 && h.jobs[5].jid == 1 && !DistinctJids(h.jobs)
  {
    var ops := Adds(16) + [Delete(104)] + [Delete(105)];
    ReplayTwoGone();
    ReplayNext(ops, Add(200));
    ReplayNext(ops + [Add(200)], Add(201));
    TwoMore(TwoGone());
  }

  // ---- The list in its own form ----------------------------------------------

  class JobList {
    const jobs: array<Job>
    var nextjid: int

    ghost predicate Valid()
      reads this
    {
      jobs.Length == MAXJOBS
    }

    // initjobs, with nextjid's initial value.
    constructor ()
      ensures Valid() && fresh(jobs)
      ensures jobs[..] == Empty() && nextjid == 1
    {
      var a := new Job[MAXJOBS](_ => Job(0, 0, 0, UNDEF, ""));
      var i := 0;
      while i < MAXJOBS
        invariant 0 <= i <= MAXJOBS
        invariant forall k :: 0 <= k < MAXJOBS ==> a[k] == Job(0, 0, 0, UNDEF, "")
      {
        a[i] := Cleared(a[i]);
        i := i + 1;
      }
      jobs := a;
      nextjid := 1;
      new;
      assert jobs[..] == Empty();
    }

    // maxjid
    method Largest() returns (max: int)
      requires Valid()
      ensures max == MaxJid(jobs[..])
    {
      max := 0;
      for i := 0 to MAXJOBS
        invariant max == MaxJid(jobs[..i])
      {
        assert jobs[..i + 1][..i] == jobs[..i];
        if jobs[i].jid > max {
          max := jobs[i].jid;
        }
      }
      assert jobs[..MAXJOBS] == jobs[..];
    }

    method AddJob(pid: int, pgid: int, state: JobState, cmdline: string) returns (ok: bool)
      requires Valid()
      modifies this, jobs
      ensures Valid()
      ensures (jobs[..], nextjid, ok) == Added(old(jobs[..]), old(nextjid), pid, pgid, state, cmdline)
    {
      if pid < 1 {
        return false;
      }
      for i := 0 to MAXJOBS
        invariant jobs[..] == old(jobs[..]) && nextjid == old(nextjid)
        invariant i <= Slot(jobs[..], 0)
      {
        if jobs[i].pid == 0 {
          jobs[i] := Job(pid, pgid, nextjid, state, cmdline);
          nextjid := nextjid + 1;
          if nextjid > MAXJOBS {
            nextjid := 1;
          }
          return true;
        }
      }
      return false;
    }

    method DeleteJob(pid: int) returns (ok: bool)
      requires Valid()
      modifies this, jobs
      ensures Valid()
      ensures (jobs[..], nextjid, ok) == Deleted(old(jobs[..]), old(nextjid), pid)
    {
      if pid < 1 {
        return false;
      }
      for i := 0 to MAXJOBS
        invariant jobs[..] == old(jobs[..]) && nextjid == old(nextjid)
        invariant i <= Slot(jobs[..], pid)
      {
        if jobs[i].pid == pid {
          jobs[i] := Cleared(jobs[i]);
          var max := Largest();
          nextjid := max + 1;
          return true;
        }
      }
      return false;
    }

    // fgpid: the pid of the first slot in state FG, or 0.
    method FgPid() returns (pid: int)
      requires Valid()
      ensures (exists i :: 0 <= i < MAXJOBS && jobs[i].state == FG && jobs[i].pid == pid
                 && forall k :: 0 <= k < i ==> jobs[k].state != FG)
        || (pid == 0 && forall k :: 0 <= k < MAXJOBS ==> jobs[k].state != FG)
    {
      for i := 0 to MAXJOBS
        invariant forall k :: 0 <= k < i ==> jobs[k].state != FG
      {
        if jobs[i].state == FG {
          return jobs[i].pid;
        }
      }
      return 0;
    }

    // getjobpid, with the slot number for the pointer and MAXJOBS for NULL.
    method GetJobPid(pid: int) returns (i: nat)
      requires Valid()
      ensures i == if pid < 1 then MAXJOBS else Slot(jobs[..], pid)
    {
      if pid < 1 {
        return MAXJOBS;
      }
      i := 0;
      while i < MAXJOBS
        invariant i <= Slot(jobs[..], pid)
      {
        if jobs[i].pid == pid {
          return;
        }
        i := i + 1;
      }
    }

    // getjobjid
    method GetJobJid(jid: int) returns (i: nat)
      requires Valid()
      ensures i <= MAXJOBS && (i < MAXJOBS ==> jid >= 1 && jobs[i].jid == jid)
      ensures jid >= 1 ==> forall k :: 0 <= k < i ==> jobs[k].jid != jid
      ensures jid < 1 ==> i == MAXJOBS
    {
      if jid < 1 {
        return MAXJOBS;
      }
      i := 0;
      while i < MAXJOBS
        invariant i <= MAXJOBS
        invariant forall k :: 0 <= k < i ==> jobs[k].jid != jid
      {
        if jobs[i].jid == jid {
          return;
        }
        i := i + 1;
      }
    }

    // pid2jid
    method Pid2Jid(pid: int) returns (jid: int)
      requires Valid()
      ensures jid == if pid < 1 || Slot(jobs[..], pid) == MAXJOBS then 0 else jobs[Slot(jobs[..], pid)].jid
    {
      var i := GetJobPid(pid);
      return if i < MAXJOBS then jobs[i].jid else 0;
    }
  }
}

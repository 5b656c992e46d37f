// What every run of the sbuf machine guarantees: it is a bounded first-in
// first-out queue, nothing is lost or duplicated, and it does not get stuck.
module SbufRuns {
  import opened SbufMachine

  // ---- Refinement of an atomic queue -------------------------------------

  // The values waiting in the buffer, oldest first.
  ghost function Queue(s: State): seq<int>
    requires |s.taken| <= |s.stored|
  {
    s.stored[|s.taken|..]
  }

  // The whole call sbuf_insert or sbuf_remove acts on the queue in one step:
  // its array access.  Every other step leaves the queue alone.
  lemma StepRefinesQueue(s: State, t: nat)
    requires Inv(s) && Enabled(s, t)
    ensures Inv(Step(s, t))
    ensures |Queue(s)| <= s.n
    ensures var r := Step(s, t); var th := s.threads[t];
      if th.pc.InsStore? then |Queue(s)| < s.n && Queue(r) == Queue(s) + [th.item]
      else if th.pc.RemRead? then Queue(s) != [] && Queue(s) == [r.threads[t].item] + Queue(r)
      else Queue(r) == Queue(s)
  {
    StepInv(s, t);
    Room(s, t);
    var r := Step(s, t);
    if s.threads[t].pc.RemRead? {
      assert r.taken == r.stored[..|r.taken|];
      assert s.stored[|s.taken|] == r.taken[|s.taken|];
    }
  }

  // Outside the locked section the array from front + 1 to rear, taken round
  // the end of the buffer, is the queue.
  lemma BufferHoldsQueue(s: State)
    requires Inv(s) && s.mutex == 1
    ensures 0 <= s.rear - s.front <= s.n
    ensures s.rear - s.front == s.items + Total(Unannounced, s.threads) + Total(Untaken, s.threads)
    ensures Queue(s) == seq(s.rear - s.front, k requires 0 <= k < s.rear - s.front => s.buf[(s.front + 1 + k) % s.n])
  {
    TotalWithin(Storing, Holder, s.threads);
    TotalWithin(Reading, Holder, s.threads);
    TotalWithin(Unannounced, SlotTicket, s.threads);
    TotalWithin(Untaken, ItemTicket, s.threads);
    forall k | 0 <= k < s.rear - s.front ensures Queue(s)[k] == s.buf[(s.front + 1 + k) % s.n] {
      assert s.buf[Cell(s.front + k, s.n)] == s.stored[s.front + k];
    }
  }

  // In every state of every run the values taken are a prefix of the values
  // stored, at most n are waiting, slots, items and the tickets of the threads
  // inside a call add up to n, and at most one thread is inside the lock.
  lemma RunIsFifo(n: int, programs: seq<seq<Op>>, sched: seq<nat>, s: State)
    requires 1 <= n && Run(Init(n, programs), sched, s)
    ensures Inv(s) && s.n == n
    ensures s.taken <= s.stored && |s.stored| - |s.taken| <= n
    ensures s.slots + s.items + Total(SlotTicket, s.threads) + Total(ItemTicket, s.threads) == n
    ensures forall i, j :: 0 <= i < j < |s.threads| ==> !(Locked(s.threads[i].pc) && Locked(s.threads[j].pc))
  {
    InitInv(n, programs);
    RunInv(Init(n, programs), sched, s);
    TotalWithin(Unannounced, SlotTicket, s.threads);
    TotalWithin(Untaken, ItemTicket, s.threads);
    forall i, j | 0 <= i < j < |s.threads|
      ensures !(Locked(s.threads[i].pc) && Locked(s.threads[j].pc))
    {
      MutualExclusion(s, i, j);
    }
  }

  // ---- Conservation of the values themselves ------------------------------

  // Every value a program inserts is either pending or stored, and every value
  // taken out has been given to exactly one thread.
  ghost predicate Conserved(s: State, x: int, inserted: nat) {
    && Times(x, s.stored) + Total(Pending(x), s.threads) == inserted
    && Times(x, s.taken) == Total(Received(x), s.threads)
  }

  lemma StepConserved(s: State, t: nat, x: int, inserted: nat)
    requires Shape(s) && Enabled(s, t) && Conserved(s, x, inserted)
    ensures Conserved(Step(s, t), x, inserted)
  {
    StepEnters(s, t);
    EnteredCount(s.threads[t], Step(s, t).threads[t], s.stored, Step(s, t).stored, x);
    TakenDelta(s, t, x);
    MovedTotal(Pending(x), s, t);
    MovedTotal(Received(x), s, t);
  }

  lemma {:induction false} RunConserved(s: State, sched: seq<nat>, r: State, x: int, inserted: nat)
    requires Shape(s) && Run(s, sched, r) && Conserved(s, x, inserted)
    ensures Conserved(r, x, inserted)
    decreases |sched|
  {
    if sched != [] {
      StepConserved(s, sched[0], x, inserted);
      RunConserved(Step(s, sched[0]), sched[1..], r, x, inserted);
    }
  }

  // ---- Progress ------------------------------------------------------------

  // Each step uses up one unit of work, and moves each value at most once.
  lemma StepBudgets(s: State, t: nat)
    requires Shape(s) && Enabled(s, t)
    ensures var r := Step(s, t);
      && Total(StepsLeft, r.threads) + 1 == Total(StepsLeft, s.threads)
      && |r.stored| + Total(InsertsLeft, r.threads) == |s.stored| + Total(InsertsLeft, s.threads)
      && |r.taken| + Total(RemovesLeft, r.threads) == |s.taken| + Total(RemovesLeft, s.threads)
  {
    BudgetDelta(s, t);
    MovedTotal(StepsLeft, s, t);
    MovedTotal(InsertsLeft, s, t);
    MovedTotal(RemovesLeft, s, t);
  }

  lemma {:induction false} RunBudgets(s: State, sched: seq<nat>, r: State)
    requires Shape(s) && Run(s, sched, r)
    ensures Total(StepsLeft, r.threads) + |sched| == Total(StepsLeft, s.threads)
    ensures |r.stored| + Total(InsertsLeft, r.threads) == |s.stored| + Total(InsertsLeft, s.threads)
    ensures |r.taken| + Total(RemovesLeft, r.threads) == |s.taken| + Total(RemovesLeft, s.threads)
    decreases |sched|
  {
    if sched != [] {
      StepBudgets(s, sched[0]);
      RunBudgets(Step(s, sched[0]), sched[1..], r);
    }
  }

  ghost predicate Stuck(s: State) {
    forall t: nat :: t < |s.threads| ==> !Enabled(s, t)
  }

  ghost predicate Finished(s: State) {
    forall t: nat :: t < |s.threads| ==> s.threads[t].pc == Outside && s.threads[t].todo == []
  }

  // A thread is a producer or a consumer, as in hw6-concurrency/echoservert_pre.c,
  // where main only inserts and the workers only remove.
  ghost predicate Producer(t: Thread) {
    (forall op :: op in t.todo ==> op.Insert?) && !RemBeforeRead(t.pc) && !RemAfterRead(t.pc)
  }

  ghost predicate Consumer(t: Thread) {
    (forall op :: op in t.todo ==> op.Remove?) && !InsBeforeStore(t.pc) && !InsAfterStore(t.pc)
  }

  ghost predicate Specialised(s: State) {
    forall t: nat :: t < |s.threads| ==> Producer(s.threads[t]) || Consumer(s.threads[t])
  }

  lemma StepSpecialised(s: State, t: nat)
    requires Shape(s) && Enabled(s, t) && Specialised(s)
    ensures Specialised(Step(s, t))
  {
    var r := Step(s, t);
    forall i: nat | i < |r.threads| ensures Producer(r.threads[i]) || Consumer(r.threads[i]) {
      var th := s.threads[i];
      assert Producer(th) || Consumer(th);
      assert forall op :: op in r.threads[i].todo ==> op in th.todo;
      if i == t && th.pc.Outside? {
        assert th.todo[0] in th.todo;
      }
    }
  }

  lemma {:induction false} RunSpecialised(s: State, sched: seq<nat>, r: State)
    requires Shape(s) && Run(s, sched, r) && Specialised(s)
    ensures Specialised(r)
    decreases |sched|
  {
    if sched != [] {
      StepSpecialised(s, sched[0]);
      RunSpecialised(Step(s, sched[0]), sched[1..], r);
    }
  }

  // A sum is zero exactly when every thread contributes nothing.
  lemma {:induction false} TotalZero(r: Role, ts: seq<Thread>)
    ensures Total(r, ts) == 0 <==> forall i: nat :: i < |ts| ==> Weight(r, ts[i]) == 0
  {
    if ts != [] {
      TotalZero(r, ts[1..]);
      assert forall i: nat :: i < |ts[1..]| ==> ts[1..][i] == ts[i + 1];
      assert forall i: nat :: 0 < i < |ts| ==> ts[i] == ts[1..][i - 1];
    }
  }

  // If no thread can move then none is inside a call: the holder of the mutex
  // could move, and without a holder any thread waiting for the mutex could.
  lemma StuckOutside(s: State)
    requires Counts(s) && Stuck(s)
    ensures s.mutex == 1
    ensures forall t: nat :: t < |s.threads| ==> s.threads[t].pc.Outside?
  {
    forall t: nat | t < |s.threads| ensures Weight(Holder, s.threads[t]) == 0 {
      assert !Enabled(s, t);
    }
    TotalZero(Holder, s.threads);
    forall t: nat | t < |s.threads| ensures s.threads[t].pc.Outside? {
      assert !Enabled(s, t);
    }
  }

  lemma {:induction false} AllOps(todo: seq<Op>)
    ensures (forall op :: op in todo ==> op.Insert?) ==> Inserts(todo) == |todo| && Removes(todo) == 0
    ensures (forall op :: op in todo ==> op.Remove?) ==> Removes(todo) == |todo| && Inserts(todo) == 0
  {
    if todo != [] { AllOps(todo[1..]); }
  }

  // In a stuck state all tickets are back, so slots + items == n.
  lemma StuckCounts(s: State)
    requires Inv(s) && Stuck(s)
    ensures s.slots + s.items == s.n && |s.stored| == |s.taken| + s.items
  {
    StuckOutside(s);
    TotalZero(SlotTicket, s.threads);
    TotalZero(ItemTicket, s.threads);
    TotalZero(Unannounced, s.threads);
    TotalZero(Untaken, s.threads);
  }

  // In a stuck state producers remain only if the buffer is full and consumers
  // only if it is empty.
  lemma StuckRemainder(s: State)
    requires Inv(s) && Stuck(s) && Specialised(s)
    ensures Total(InsertsLeft, s.threads) > 0 ==> s.slots == 0
    ensures Total(RemovesLeft, s.threads) > 0 ==> s.items == 0
    ensures Finished(s) <==> Total(InsertsLeft, s.threads) == 0 && Total(RemovesLeft, s.threads) == 0
  {
    StuckOutside(s);
    forall t: nat | t < |s.threads|
      ensures Weight(InsertsLeft, s.threads[t]) > 0 ==> s.slots == 0
      ensures Weight(RemovesLeft, s.threads[t]) > 0 ==> s.items == 0
      ensures s.threads[t].todo == [] <==> Weight(InsertsLeft, s.threads[t]) == 0 && Weight(RemovesLeft, s.threads[t]) == 0
    {
      assert !Enabled(s, t);
      assert Producer(s.threads[t]) || Consumer(s.threads[t]);
      AllOps(s.threads[t].todo);
    }
    TotalZero(InsertsLeft, s.threads);
    TotalZero(RemovesLeft, s.threads);
  }

  // The completion theorem.  Let producers insert I values in all and consumers
  // remove R.  Whatever the schedule, a run that can go no further has finished
  // every call if and only if R <= I <= R + n.
  lemma CompletionIff(n: int, programs: seq<seq<Op>>, sched: seq<nat>, s: State)
    requires 1 <= n && Run(Init(n, programs), sched, s)
    requires Specialised(Init(n, programs)) && Stuck(s)
    ensures var init := Init(n, programs).threads;
      Finished(s) <==> Total(RemovesLeft, init) <= Total(InsertsLeft, init) <= Total(RemovesLeft, init) + n
  {
    RunIsFifo(n, programs, sched, s);
    RunSpecialised(Init(n, programs), sched, s);
    RunBudgets(Init(n, programs), sched, s);
    StuckCounts(s);
    StuckRemainder(s);
  }

  // A run cannot go on for ever: it can be extended as long as it is not stuck,
  // and no run is longer than the number of steps the programs contain.
  lemma RunsAreBounded(n: int, programs: seq<seq<Op>>, sched: seq<nat>, s: State)
    requires 1 <= n && Run(Init(n, programs), sched, s)
    ensures |sched| <= Total(StepsLeft, Init(n, programs).threads)
    ensures |sched| == Total(StepsLeft, Init(n, programs).threads) ==> Finished(s)
    ensures Finished(s) ==> Stuck(s) && |sched| == Total(StepsLeft, Init(n, programs).threads)
  {
    RunBudgets(Init(n, programs), sched, s);
    TotalZero(StepsLeft, s.threads);
  }

  lemma FinishedCounts(n: int, programs: seq<seq<Op>>, sched: seq<nat>, s: State)
    requires 1 <= n && Run(Init(n, programs), sched, s) && Inv(s) && Finished(s) && Stuck(s)
    ensures |s.stored| == Total(InsertsLeft, Init(n, programs).threads)
    ensures |s.taken| == Total(RemovesLeft, Init(n, programs).threads)
    ensures s.slots + s.items == s.n && |s.stored| == |s.taken| + s.items
  {
    RunBudgets(Init(n, programs), sched, s);
    TotalZero(InsertsLeft, s.threads);
    TotalZero(RemovesLeft, s.threads);
    StuckCounts(s);
  }

  // When a run with as many removes as inserts finishes, the consumers have
  // been given exactly the values the producers inserted, each as many times as
  // it was inserted, in the order in which they were stored.
  lemma FinishedExchange(n: int, programs: seq<seq<Op>>, sched: seq<nat>, s: State, x: int)
    requires 1 <= n && Run(Init(n, programs), sched, s) && Finished(s)
    requires Total(RemovesLeft, Init(n, programs).threads) == Total(InsertsLeft, Init(n, programs).threads)
    ensures s.taken == s.stored
    ensures Total(Received(x), s.threads) == Times(x, s.taken) == Total(Pending(x), Init(n, programs).threads)
    ensures s.slots == n && s.items == 0
  {
    RunIsFifo(n, programs, sched, s);
    RunsAreBounded(n, programs, sched, s);
    FinishedCounts(n, programs, sched, s);
    TotalStart(Received(x), programs);
    RunConserved(Init(n, programs), sched, s, x, Total(Pending(x), Init(n, programs).threads));
    TotalZero(Pending(x), s.threads);
  }
}
